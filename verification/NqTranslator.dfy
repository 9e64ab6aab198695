/** NetQuake messages, written by the game a few bytes at a time, translated to QuakeWorld ones as they complete. */
module NqTranslator {
  import opened Bytes
  import opened Options
  import opened SizeBuffer

  const SVC_UPDATESTAT := 3
  const NQ_SVC_SETVIEW := 5
  const SVC_PRINT := 8
  const SVC_STUFFTEXT := 9
  const NQ_SVC_UPDATENAME := 13
  const SVC_UPDATEFRAGS := 14
  const NQ_SVC_UPDATECOLORS := 17
  const SVC_TEMP_ENTITY := 23
  const SVC_KILLEDMONSTER := 27
  const SVC_FOUNDSECRET := 28
  const SVC_INTERMISSION := 30
  const SVC_FINALE := 31
  const SVC_CDTRACK := 32
  const SVC_SELLSCREEN := 33
  const NQ_SVC_CUTSCENE := 34
  const SVC_UPDATEPING := 36
  const SVC_UPDATEENTERTIME := 37
  const SVC_UPDATESTATLONG := 38
  const SVC_SETINFO := 51

  const PRINT_HIGH := 2
  const TE_GUNSHOT := 2
  const TE_LIGHTNING1 := 5
  const NQ_TE_EXPLOSION2 := 12
  const NQ_TE_BEAM := 13

  /** TE_SPIKE, TE_SUPERSPIKE, TE_EXPLOSION, TE_TAREXPLOSION, TE_WIZSPIKE, TE_KNIGHTSPIKE, TE_LAVASPLASH, TE_TELEPORT */
  predicate IsPointEffect(kind: byte) {
    kind in {0, 1, 3, 4, 7, 8, 10, 11}
  }

  /** TE_LIGHTNING1, TE_LIGHTNING2, TE_LIGHTNING3 */
  predicate IsLightning(kind: byte) {
    kind in {5, 6, 9}
  }

  // ---------- Strings in a message ----------

  const TOPCOLOR: seq<byte> := [0x74, 0x6f, 0x70, 0x63, 0x6f, 0x6c, 0x6f, 0x72, 0]
  const BOTTOMCOLOR: seq<byte> := [0x62, 0x6f, 0x74, 0x74, 0x6f, 0x6d, 0x63, 0x6f, 0x6c, 0x6f, 0x72, 0]
  const NAME: seq<byte> := [0x6e, 0x61, 0x6d, 0x65, 0]
  const CUTSCENE: seq<byte> := [0x2f, 0x2f, 0x63, 0x75, 0x74, 0x73, 0x63, 0x65, 0x6e, 0x65, 0x0a, 0]

  /** The decimal digits of a color, ended by a zero. */
  function Digits(color: byte): seq<byte>
    requires color < 20
  {
    if color < 10 then [0x30 + color, 0] else [0x31, 0x30 + color - 10, 0]
  }

  function Color(nibble: byte): byte
    requires nibble < 16
  {
    if nibble < 13 then nibble else 13
  }

  /** memchr for a zero byte: its position, at or after from. */
  function FindNul(b: seq<byte>, from: nat): (at: Option<nat>)
    ensures at.Some? ==> from <= at.value < |b| && b[at.value] == 0 && forall i | from <= i < at.value :: b[i] != 0
    ensures at.None? ==> forall i | from <= i < |b| :: b[i] != 0
    decreases |b| - from
  {
    if from >= |b| then None
    else if b[from] == 0 then Some(from)
    else FindNul(b, from + 1)
  }

  // ---------- One step of NQP_Process ----------

  /** What the command at the head of a buffer calls for: to wait for more bytes, to ignore the rest of the frame,
      or to skip some bytes, emit some, and then pass through the next owed bytes. */
  datatype Action = Wait | Ignore | Do(skip: nat, emit: seq<byte>, owed: nat)

  /** The entity number of a beam as a signed short. */
  function BeamNumber(entnum: int): uint16 {
    ((if entnum > 1023 then 0 else entnum) - 1288) % 0x1_0000
  }

  function TempEntity(b: seq<byte>): Action
    requires |b| > 0
  {
    if |b| < 2 then Wait
    else if IsPointEffect(b[1]) then Do(0, [], 8)
    else if b[1] == TE_GUNSHOT then
      if |b| < 8 then Wait else Do(8, b[..2] + [1] + b[2..8], 0)
    else if IsLightning(b[1]) then Do(0, [], 16)
    else if b[1] == NQ_TE_BEAM then
      if |b| < 16 then Wait
      else
        var entnum: int := b[2] as int + b[3] as int * 256;
        Do(4, [SVC_TEMP_ENTITY, TE_LIGHTNING1] + Le16(BeamNumber(entnum)), 12)
    else if b[1] == NQ_TE_EXPLOSION2 then Do(0, [], 10)
    else Ignore
  }

  /** The two setinfo commands that set a player's colors. */
  function ColorsInfo(slot: byte, colors: byte): seq<byte> {
    [SVC_SETINFO, slot] + TOPCOLOR + Digits(Color(colors % 16)) + [SVC_SETINFO, slot] + BOTTOMCOLOR
        + Digits(Color(colors / 16))
  }

  /** The commands that announce a player's name, with a ping and an enter time of zero. */
  function NameInfo(slot: byte, name: seq<byte>): seq<byte> {
    [SVC_SETINFO, slot] + NAME + name + [SVC_UPDATEPING, slot, 0, 0] + [SVC_UPDATEENTERTIME, slot, 0, 0, 0, 0]
  }

  /** The commands that end in a string. */
  predicate EndsInText(cmd: byte) {
    cmd == SVC_PRINT || cmd == NQ_SVC_UPDATENAME || cmd == SVC_FINALE || cmd == NQ_SVC_CUTSCENE
  }

  function TextAction(b: seq<byte>): Action
    requires |b| > 0
  {
    if b[0] == NQ_SVC_UPDATENAME && |b| < 3 then Wait
    else
      var from := if b[0] == NQ_SVC_UPDATENAME then 2 else 1;
      match FindNul(b, from)
      case None => Wait
      case Some(p) =>
        if b[0] == SVC_PRINT then Do(p + 1, [SVC_PRINT, PRINT_HIGH] + b[1..p + 1], 0)
        else if b[0] == NQ_SVC_UPDATENAME then Do(p + 1, NameInfo(b[1], b[2..p + 1]), 0)
        else if b[0] == SVC_FINALE then Do(0, [], p + 1)
        else Do(p + 1, [SVC_STUFFTEXT] + CUTSCENE, 0)
  }

  function PlainAction(b: seq<byte>, view: seq<byte>): Action
    requires |b| > 0
  {
    var cmd := b[0];
    if cmd == SVC_KILLEDMONSTER || cmd == SVC_FOUNDSECRET || cmd == SVC_SELLSCREEN then Do(0, [], 1)
    else if cmd == SVC_UPDATESTAT then Do(1, [SVC_UPDATESTATLONG], 5)
    else if cmd == NQ_SVC_SETVIEW then
      if |b| < 3 then Wait else Do(3, [], 0)
    else if cmd == SVC_UPDATEFRAGS then Do(0, [], 4)
    else if cmd == NQ_SVC_UPDATECOLORS then
      if |b| < 3 then Wait else Do(3, ColorsInfo(b[1], b[2]), 0)
    else if cmd == SVC_CDTRACK then
      if |b| < 3 then Wait else Do(3, b[..2], 0)
    else if cmd == SVC_INTERMISSION then Do(1, [SVC_INTERMISSION] + view, 0)
    else Ignore
  }

  /** What NQP_Process does with the command at the head of a buffer; view is where the intermission looks from. */
  function Dispatch(b: seq<byte>, view: seq<byte>): Action
    requires |b| > 0
  {
    if b[0] == SVC_TEMP_ENTITY then TempEntity(b)
    else if EndsInText(b[0]) then TextAction(b)
    else PlainAction(b, view)
  }

  /** The translator: nqp_expect, nqp_ignore_this_frame, nqp_buf and what it has written. */
  datatype Nqp = Nqp(owed: nat, ignore: bool, buf: seq<byte>, out: seq<byte>)

  datatype Outcome = Waits | Ignores | Goes(next: Nqp)

  function Step(s: Nqp, view: seq<byte>): Outcome {
    if s.owed > 0 then
      if |s.buf| >= s.owed then Goes(s.(owed := 0, buf := s.buf[s.owed..], out := s.out + s.buf[..s.owed])) else Waits
    else if s.buf == [] then Waits
    else
      match Dispatch(s.buf, view)
      case Wait => Waits
      case Ignore => Ignores
      case Do(skip, emit, owed) =>
        if skip > |s.buf| then Waits
        else Goes(s.(owed := owed, buf := s.buf[skip..], out := s.out + emit))
  }

  lemma TextDispatch(b: seq<byte>, view: seq<byte>)
    requires |b| > 0 && EndsInText(b[0])
    ensures Dispatch(b, view) == TextAction(b)
  {
  }

  lemma DispatchAdvances(b: seq<byte>, view: seq<byte>)
    requires |b| > 0
    ensures var a := Dispatch(b, view);
            a.Do? ==> a.skip <= |b| && (a.skip > 0 || a.owed > 0)
  {
  }

  function Measure(s: Nqp): nat {
    2 * |s.buf| + if s.owed == 0 then 1 else 0
  }

  lemma StepAdvances(s: Nqp, view: seq<byte>)
    ensures var o := Step(s, view);
            o.Goes? ==> Measure(o.next) < Measure(s) && o.next.ignore == s.ignore
  {
    if s.buf != [] {
      DispatchAdvances(s.buf, view);
    }
  }

  /** The loop of NQP_Process. */
  function Loop(s: Nqp, view: seq<byte>): Nqp
    decreases Measure(s)
  {
    StepAdvances(s, view);
    match Step(s, view)
    case Waits => s
    case Ignores => s.(ignore := true)
    case Goes(next) => Loop(next, view)
  }

  /** NQP_Process */
  function Processed(s: Nqp, view: seq<byte>): Nqp {
    if s.ignore then s.(buf := []) else Loop(s, view)
  }

  /** A PF_Write* call: bytes appended, then NQP_Process. */
  function Fed(s: Nqp, bytes: seq<byte>, view: seq<byte>): Nqp {
    Processed(s.(buf := s.buf + bytes), view)
  }

  function FedAll(s: Nqp, pieces: seq<seq<byte>>, view: seq<byte>): Nqp
    decreases |pieces|
  {
    if pieces == [] then s else FedAll(Fed(s, pieces[0], view), pieces[1..], view)
  }

  // ---------- Appending bytes changes no enabled step ----------

  lemma {:induction false} FindNulGrows(b: seq<byte>, from: nat, more: seq<byte>)
    requires FindNul(b, from).Some?
    ensures FindNul(b + more, from) == FindNul(b, from)
    decreases |b| - from
  {
    if b[from] != 0 {
      FindNulGrows(b, from + 1, more);
    }
  }

  lemma TempEntityGrows(b: seq<byte>, more: seq<byte>)
    requires |b| > 0
    ensures TempEntity(b) != Wait ==> TempEntity(b + more) == TempEntity(b)
  {
    hide Le16, BeamNumber, IsPointEffect, IsLightning;
    SlicesGrow(b, more);
  }

  lemma TextActionGrows(b: seq<byte>, more: seq<byte>)
    requires |b| > 0
    ensures TextAction(b) != Wait ==> TextAction(b + more) == TextAction(b)
  {
    hide FindNul, NameInfo, CUTSCENE;
    var from := if b[0] == NQ_SVC_UPDATENAME then 2 else 1;
    if FindNul(b, from).Some? {
      FindNulGrows(b, from, more);
      FindNulBounds(b, from);
    }
    SlicesGrow(b, more);
  }

  lemma DispatchGrows(b: seq<byte>, more: seq<byte>, view: seq<byte>)
    requires |b| > 0
    ensures Dispatch(b, view) != Wait ==> Dispatch(b + more, view) == Dispatch(b, view)
  {
    TempEntityGrows(b, more);
    TextActionGrows(b, more);
    hide ColorsInfo, TextAction, TempEntity;
    SlicesGrow(b, more);
  }

  lemma FindNulBounds(b: seq<byte>, from: nat)
    ensures FindNul(b, from).Some? ==> from <= FindNul(b, from).value < |b|
  {
  }

  lemma SlicesGrow(b: seq<byte>, more: seq<byte>)
    ensures forall i, j | 0 <= i <= j <= |b| :: (b + more)[i..j] == b[i..j]
    ensures forall j | 0 <= j <= |b| :: (b + more)[..j] == b[..j]
    ensures forall i | 0 <= i <= |b| :: (b + more)[i..] == b[i..] + more
  {
  }

  function Longer(s: Nqp, more: seq<byte>): Nqp {
    s.(buf := s.buf + more)
  }

  lemma StepGrows(s: Nqp, more: seq<byte>, view: seq<byte>)
    ensures var o := Step(s, view);
            && (o.Goes? ==> Step(Longer(s, more), view) == Goes(Longer(o.next, more)))
            && (o.Ignores? ==> Step(Longer(s, more), view) == Ignores)
  {
    hide Dispatch;
    SlicesGrow(s.buf, more);
    if s.buf != [] {
      DispatchGrows(s.buf, more, view);
      DispatchAdvances(s.buf, view);
    }
  }

  /** The same but for what is left in the buffer of a frame being ignored. */
  predicate Same(s: Nqp, t: Nqp) {
    s.owed == t.owed && s.ignore == t.ignore && s.out == t.out && (s.buf == t.buf || s.ignore)
  }

  lemma {:induction false} LoopGrows(s: Nqp, more: seq<byte>, view: seq<byte>)
    requires !s.ignore
    ensures Same(Loop(Longer(s, more), view), Processed(Longer(Loop(s, view), more), view))
    decreases Measure(s)
  {
    hide Step;
    StepAdvances(s, view);
    StepGrows(s, more, view);
    match Step(s, view)
    case Waits =>
    case Ignores =>
    case Goes(next) => LoopGrows(next, more, view);
  }

  lemma SameStaysSame(s: Nqp, t: Nqp, bytes: seq<byte>, view: seq<byte>)
    requires Same(s, t)
    ensures Same(Fed(s, bytes, view), Fed(t, bytes, view))
  {
  }

  /** Two writes are as good as one. */
  lemma FedTwice(s: Nqp, x: seq<byte>, y: seq<byte>, view: seq<byte>)
    ensures Same(Fed(s, x + y, view), Fed(Fed(s, x, view), y, view))
  {
    hide Step;
    assert s.buf + (x + y) == s.buf + x + y;
    if !s.ignore {
      LoopGrows(s.(buf := s.buf + x), y, view);
    }
  }

  lemma {:induction false} FedAllOfSame(s: Nqp, t: Nqp, pieces: seq<seq<byte>>, view: seq<byte>)
    requires Same(s, t)
    ensures Same(FedAll(s, pieces, view), FedAll(t, pieces, view))
    decreases |pieces|
  {
    hide Fed;
    if pieces != [] {
      SameStaysSame(s, t, pieces[0], view);
      FedAllOfSame(Fed(s, pieces[0], view), Fed(t, pieces[0], view), pieces[1..], view);
    }
  }

  /** Incremental equals batch: the result of any writes is that of one write of all their bytes. */
  lemma {:induction false} IncrementalEqualsBatch(s: Nqp, pieces: seq<seq<byte>>, view: seq<byte>)
    requires pieces != []
    ensures Same(FedAll(s, pieces, view), Fed(s, Concat(pieces), view))
    decreases |pieces|
  {
    hide Fed;
    if |pieces| == 1 {
      assert pieces[..0] == [] && Concat(pieces) == pieces[0] && pieces[1..] == [];
      assert FedAll(Fed(s, pieces[0], view), pieces[1..], view) == Fed(s, pieces[0], view);
    } else {
      var joined := [pieces[0] + pieces[1]] + pieces[2..];
      FedTwice(s, pieces[0], pieces[1], view);
      var one, two := Fed(s, pieces[0] + pieces[1], view), Fed(Fed(s, pieces[0], view), pieces[1], view);
      FedAllOfSame(two, one, pieces[2..], view);
      assert pieces[1..][1..] == pieces[2..] && joined[1..] == pieces[2..];
      IncrementalEqualsBatch(s, joined, view);
      ConcatJoined(pieces[0], pieces[1], pieces[2..]);
      assert pieces == [pieces[0]] + ([pieces[1]] + pieces[2..]);
    }
  }

  lemma ConcatJoined(x: seq<byte>, y: seq<byte>, rest: seq<seq<byte>>)
    ensures Concat([x + y] + rest) == Concat([x] + ([y] + rest))
  {
    ConcatFromFront([x + y] + rest);
    ConcatFromFront([x] + ([y] + rest));
    ConcatFromFront([y] + rest);
    hide Concat;
    assert ([x + y] + rest)[1..] == rest && ([y] + rest)[1..] == rest && ([x] + ([y] + rest))[1..] == [y] + rest;
    assert (x + y) + Concat(rest) == x + (y + Concat(rest));
  }

  /** So how the game cuts its message makes no difference to the bytes written. */
  lemma SplittingMakesNoDifference(s: Nqp, p: seq<seq<byte>>, q: seq<seq<byte>>, view: seq<byte>)
    requires p != [] && q != [] && Concat(p) == Concat(q)
    ensures FedAll(s, p, view).out == FedAll(s, q, view).out
    ensures Same(FedAll(s, p, view), FedAll(s, q, view))
  {
    IncrementalEqualsBatch(s, p, view);
    IncrementalEqualsBatch(s, q, view);
    hide Fed, FedAll;
  }

  // ---------- What the commands mean ----------

  predicate IsText(text: seq<byte>) {
    forall i | 0 <= i < |text| :: text[i] != 0
  }

  /** The NetQuake commands that are translated. Coordinates and the like are the bytes sent for them. */
  datatype Command =
    | Bare(code: byte)
    | UpdateStat(stat: byte, value: seq<byte>)
    | Print(text: seq<byte>)
    | SetView(entity: seq<byte>)
    | UpdateFrags(slot: byte, frags: seq<byte>)
    | UpdateColors(slot: byte, colors: byte)
    | UpdateName(slot: byte, name: seq<byte>)
    | CdTrack(track: byte, looped: byte)
    | Finale(text: seq<byte>)
    | Intermission
    | Cutscene(text: seq<byte>)
    | PointEffect(kind: byte, position: seq<byte>)
    | Gunshot(position: seq<byte>)
    | Lightning(kind: byte, entity: seq<byte>, line: seq<byte>)
    | Beam(number: uint16, line: seq<byte>)
    | Explosion2(position: seq<byte>, range: seq<byte>)

  predicate IsCommand(c: Command) {
    match c
    case Bare(code) => code in {SVC_KILLEDMONSTER, SVC_FOUNDSECRET, SVC_SELLSCREEN}
    case UpdateStat(_, value) => |value| == 4
    case Print(text) => IsText(text)
    case SetView(entity) => |entity| == 2
    case UpdateFrags(_, frags) => |frags| == 2
    case UpdateColors(_, _) => true
    case UpdateName(_, name) => IsText(name)
    case CdTrack(_, _) => true
    case Finale(text) => IsText(text)
    case Intermission => true
    case Cutscene(text) => IsText(text)
    case PointEffect(kind, position) => IsPointEffect(kind) && |position| == 6
    case Gunshot(position) => |position| == 6
    case Lightning(kind, entity, line) => IsLightning(kind) && |entity| == 2 && |line| == 12
    case Beam(_, line) => |line| == 12
    case Explosion2(position, colors) => |position| == 6 && |colors| == 2
  }

  /** The bytes the game writes for a command. */
  function NqBytes(c: Command): seq<byte> {
    match c
    case Bare(code) => [code]
    case UpdateStat(stat, value) => [SVC_UPDATESTAT, stat] + value
    case Print(text) => [SVC_PRINT] + text + [0]
    case SetView(entity) => [NQ_SVC_SETVIEW] + entity
    case UpdateFrags(slot, frags) => [SVC_UPDATEFRAGS, slot] + frags
    case UpdateColors(slot, colors) => [NQ_SVC_UPDATECOLORS, slot, colors]
    case UpdateName(slot, name) => [NQ_SVC_UPDATENAME, slot] + name + [0]
    case CdTrack(track, looped) => [SVC_CDTRACK, track, looped]
    case Finale(text) => [SVC_FINALE] + text + [0]
    case Intermission => [SVC_INTERMISSION]
    case Cutscene(text) => [NQ_SVC_CUTSCENE] + text + [0]
    case PointEffect(kind, position) => [SVC_TEMP_ENTITY, kind] + position
    case Gunshot(position) => [SVC_TEMP_ENTITY, TE_GUNSHOT] + position
    case Lightning(kind, entity, line) => [SVC_TEMP_ENTITY, kind] + entity + line
    case Beam(entity, line) => [SVC_TEMP_ENTITY, NQ_TE_BEAM] + Le16(entity) + line
    case Explosion2(position, colors) => [SVC_TEMP_ENTITY, NQ_TE_EXPLOSION2] + position + colors
  }

  /** The bytes QuakeWorld clients are sent for it. */
  function QwBytes(c: Command, view: seq<byte>): seq<byte> {
    match c
    case UpdateStat(stat, value) => [SVC_UPDATESTATLONG, stat] + value
    case Print(text) => [SVC_PRINT, PRINT_HIGH] + text + [0]
    case SetView(_) => []
    case UpdateColors(slot, colors) => ColorsInfo(slot, colors)
    case UpdateName(slot, name) => NameInfo(slot, name + [0])
    case CdTrack(track, _) => [SVC_CDTRACK, track]
    case Intermission => [SVC_INTERMISSION] + view
    case Cutscene(_) => [SVC_STUFFTEXT] + CUTSCENE
    case Gunshot(position) => [SVC_TEMP_ENTITY, TE_GUNSHOT, 1] + position
    case Beam(entity, line) => [SVC_TEMP_ENTITY, TE_LIGHTNING1] + Le16(BeamNumber(entity)) + line
    case _ => NqBytes(c)
  }

  // ---------- What a client reads in the new commands ----------

  /** A word as the client reads it: without its zero. */
  function Ascii(s: string): (b: seq<byte>)
    ensures |b| == |s|
  {
    seq(|s|, i requires 0 <= i < |s| => s[i] as int % 256)
  }

  /** The number that decimal digits stand for. */
  function Decimal(digits: seq<byte>): int {
    if digits == [] then 0 else 10 * Decimal(digits[..|digits| - 1]) + digits[|digits| - 1] as int - 0x30
  }

  datatype SetInfo = SetInfo(slot: byte, key: seq<byte>, value: seq<byte>)

  /** A client's reading of a setinfo command: a player, a key and a value, each of the two up to its zero. */
  function ReadSetInfo(b: seq<byte>): Option<(SetInfo, seq<byte>)> {
    if |b| < 2 || b[0] != SVC_SETINFO then None
    else
      match FindNul(b, 2)
      case None => None
      case Some(p) =>
        match FindNul(b, p + 1)
        case None => None
        case Some(q) => Some((SetInfo(b[1], b[2..p], b[p + 1..q]), b[q + 1..]))
  }

  lemma SetInfoIsRead(slot: byte, key: seq<byte>, value: seq<byte>, rest: seq<byte>)
    requires IsText(key) && IsText(value)
    ensures ReadSetInfo([SVC_SETINFO, slot] + (key + [0]) + (value + [0]) + rest)
            == Some((SetInfo(slot, key, value), rest))
  {
    var b := [SVC_SETINFO, slot] + (key + [0]) + (value + [0]) + rest;
    var p, q := 2 + |key|, 3 + |key| + |value|;
    forall i | 2 <= i < p ensures b[i] != 0 {
      assert b[i] == key[i - 2];
    }
    forall i | p < i < q ensures b[i] != 0 {
      assert b[i] == value[i - p - 1];
    }
    FindNulOf(b, 2, p);
    FindNulOf(b, p + 1, q);
    hide FindNul;
    assert b[2..p] == key && b[p + 1..q] == value && b[q + 1..] == rest;
  }

  lemma DigitsAreRead(color: byte)
    requires color < 20
    ensures exists text: seq<byte> :: Digits(color) == text + [0] && IsText(text) && Decimal(text) == color as int
  {
    if color < 10 {
      var text: seq<byte> := [0x30 + color];
      assert text[..0] == [] && Decimal(text) == color as int && Digits(color) == text + [0];
    } else {
      var text: seq<byte> := [0x31, 0x30 + color - 10];
      assert text[..1] == [0x31] && [0x31][..0] == [] && Decimal([0x31]) == 1;
      assert Decimal(text) == color as int && Digits(color) == text + [0];
    }
  }

  function Least(a: int, b: int): int {
    if a < b then a else b
  }

  /** The first command sets one color and is followed by the other, which sets the other. */
  lemma ColorsInParts(slot: byte, colors: byte, top: seq<byte>, bottom: seq<byte>)
    requires Digits(Color(colors % 16)) == top + [0] && Digits(Color(colors / 16)) == bottom + [0]
    ensures ColorsInfo(slot, colors)
            == [SVC_SETINFO, slot] + (Ascii("topcolor") + [0]) + (top + [0])
               + ([SVC_SETINFO, slot] + (Ascii("bottomcolor") + [0]) + (bottom + [0]) + [])
    ensures IsText(Ascii("topcolor")) && IsText(Ascii("bottomcolor"))
  {
    assert TOPCOLOR == Ascii("topcolor") + [0] && BOTTOMCOLOR == Ascii("bottomcolor") + [0];
    assert IsText(Ascii("topcolor")) && IsText(Ascii("bottomcolor"));
    hide Digits, Ascii, TOPCOLOR, BOTTOMCOLOR;
  }

  predicate ReadsColor(r: Option<(SetInfo, seq<byte>)>, slot: byte, key: string, color: int) {
    r.Some? && r.value.0.slot == slot && r.value.0.key == Ascii(key) && Decimal(r.value.0.value) == color
  }

  /** A client reads the two colors of a player, from the lower and the upper half of the byte, each at most 13. */
  lemma ColorsAreRead(slot: byte, colors: byte)
    ensures var first := ReadSetInfo(ColorsInfo(slot, colors));
            && ReadsColor(first, slot, "topcolor", Least(colors % 16, 13))
            && var second := ReadSetInfo(first.value.1);
               ReadsColor(second, slot, "bottomcolor", Least(colors / 16, 13)) && second.value.1 == []
  {
    hide Digits, Decimal, Ascii, ReadSetInfo, IsText, ColorsInfo;
    DigitsAreRead(Color(colors % 16));
    DigitsAreRead(Color(colors / 16));
    var top: seq<byte> :| Digits(Color(colors % 16)) == top + [0] && IsText(top)
                          && Decimal(top) == Color(colors % 16) as int;
    var bottom: seq<byte> :| Digits(Color(colors / 16)) == bottom + [0] && IsText(bottom)
                             && Decimal(bottom) == Color(colors / 16) as int;
    ColorsInParts(slot, colors, top, bottom);
    var second := [SVC_SETINFO, slot] + (Ascii("bottomcolor") + [0]) + (bottom + [0]) + [];
    SetInfoIsRead(slot, Ascii("topcolor"), top, second);
    SetInfoIsRead(slot, Ascii("bottomcolor"), bottom, []);
  }

  /** A client reads a player's name, and after it a ping and an enter time of zero. */
  lemma NameIsRead(slot: byte, name: seq<byte>)
    requires IsText(name)
    ensures ReadSetInfo(NameInfo(slot, name + [0]))
            == Some((SetInfo(slot, Ascii("name"), name),
                     [SVC_UPDATEPING, slot] + Le16(0) + [SVC_UPDATEENTERTIME, slot] + Le32(0)))
  {
    var rest := [SVC_UPDATEPING, slot] + Le16(0) + [SVC_UPDATEENTERTIME, slot] + Le32(0);
    assert NAME == Ascii("name") + [0] && IsText(Ascii("name"));
    assert rest == [SVC_UPDATEPING, slot, 0, 0] + [SVC_UPDATEENTERTIME, slot, 0, 0, 0, 0];
    SetInfoIsRead(slot, Ascii("name"), name, rest);
    hide Ascii, ReadSetInfo, IsText, NAME;
    assert NameInfo(slot, name + [0]) == [SVC_SETINFO, slot] + (Ascii("name") + [0]) + (name + [0]) + rest;
  }

  function Signed(x: uint16): int {
    if x < 0x8000 then x else x as int - 0x1_0000
  }

  /** A client that reads the number of a beam as a signed short gets it 1288 below the entity's. */
  lemma BeamNumberIsRead(entnum: uint16)
    ensures Signed(BeamNumber(entnum)) + 1288 == if entnum <= 1023 then entnum else 0
  {
  }

  // ---------- What is left over ----------

  /** Some command begins with these bytes and has more. */
  ghost predicate IsIncomplete(b: seq<byte>) {
    exists c :: IsCommand(c) && b < NqBytes(c)
  }

  function Zeros(n: nat): (z: seq<byte>)
    ensures |z| == n
  {
    seq(n, _ => 0)
  }

  /** The bytes after position at, with zeros for those that are missing. */
  function Filled(b: seq<byte>, at: nat, size: nat): (r: seq<byte>)
    requires |b| <= at + size
    ensures |r| == size
    ensures forall i | at <= i < |b| :: r[i - at] == b[i]
  {
    if |b| <= at then Zeros(size) else b[at..] + Zeros(at + size - |b|)
  }

  lemma WaitingEffectIsIncomplete(b: seq<byte>)
    requires |b| > 0 && b[0] == SVC_TEMP_ENTITY && TempEntity(b) == Wait
    ensures IsIncomplete(b)
  {
    if |b| < 2 {
      assert b < NqBytes(Gunshot(Zeros(6)));
    } else if b[1] == TE_GUNSHOT {
      var c := Gunshot(Filled(b, 2, 6));
      assert b == NqBytes(c)[..|b|];
      assert b < NqBytes(c);
    } else {
      WaitingBeamIsIncomplete(b);
    }
  }

  lemma WaitingBeamIsIncomplete(b: seq<byte>)
    requires 2 <= |b| < 16 && b[0] == SVC_TEMP_ENTITY && b[1] == NQ_TE_BEAM
    ensures IsIncomplete(b)
  {
    hide Filled;
    var e := Filled(if |b| < 4 then b else b[..4], 2, 2);
    var line := Filled(b, 4, 12);
    var c := Beam(Short(e[0], e[1]), line);
    assert Le16(Short(e[0], e[1])) == e;
    assert NqBytes(c) == [SVC_TEMP_ENTITY, NQ_TE_BEAM] + e + line;
    assert b == NqBytes(c)[..|b|];
    assert b < NqBytes(c);
  }

  lemma WaitingTextIsIncomplete(b: seq<byte>)
    requires |b| > 0 && EndsInText(b[0]) && TextAction(b) == Wait
    ensures IsIncomplete(b)
  {
    hide FindNul, CUTSCENE, NameInfo;
    if b[0] == NQ_SVC_UPDATENAME {
      var name := if |b| < 2 then [] else b[2..];
      var c := UpdateName(if |b| < 2 then 0 else b[1], name);
      assert |b| < 3 ==> IsText(name) || name == [];
      assert b == NqBytes(c)[..|b|];
      assert b < NqBytes(c);
    } else {
      var c := if b[0] == SVC_PRINT then Print(b[1..])
               else if b[0] == SVC_FINALE then Finale(b[1..])
               else Cutscene(b[1..]);
      assert b == NqBytes(c)[..|b|];
      assert b < NqBytes(c);
    }
  }

  lemma WaitingPlainIsIncomplete(b: seq<byte>, view: seq<byte>)
    requires |b| > 0 && b[0] != SVC_TEMP_ENTITY && !EndsInText(b[0]) && PlainAction(b, view) == Wait
    ensures IsIncomplete(b)
  {
    hide ColorsInfo;
    var f := Filled(b, 1, 2);
    var c := if b[0] == NQ_SVC_SETVIEW then SetView(f)
             else if b[0] == NQ_SVC_UPDATECOLORS then UpdateColors(f[0], f[1])
             else CdTrack(f[0], f[1]);
    assert b == NqBytes(c)[..|b|];
    assert b < NqBytes(c);
  }

  lemma WaitingIsIncomplete(b: seq<byte>, view: seq<byte>)
    requires |b| > 0 && Dispatch(b, view) == Wait
    ensures IsIncomplete(b)
  {
    hide IsIncomplete, TempEntity, TextAction, PlainAction;
    if b[0] == SVC_TEMP_ENTITY {
      WaitingEffectIsIncomplete(b);
    } else if EndsInText(b[0]) {
      WaitingTextIsIncomplete(b);
    } else {
      WaitingPlainIsIncomplete(b, view);
    }
  }

  /** What is left in the buffer is nothing, or the beginning of one command and not all of it, or fewer bytes
      than are owed of the command that is passed through; unless the frame is ignored. */
  lemma {:induction false} ResidueIsIncomplete(s: Nqp, view: seq<byte>)
    ensures var t := Loop(s, view);
            t.ignore || (if t.owed > 0 then |t.buf| < t.owed else t.buf == [] || IsIncomplete(t.buf))
    decreases Measure(s)
  {
    hide Dispatch, IsIncomplete;
    StepAdvances(s, view);
    match Step(s, view)
    case Waits =>
      if s.owed == 0 && s.buf != [] {
        DispatchAdvances(s.buf, view);
        WaitingIsIncomplete(s.buf, view);
      }
    case Ignores =>
    case Goes(next) => ResidueIsIncomplete(next, view);
  }

  lemma {:induction false} FindNulOf(b: seq<byte>, from: nat, at: nat)
    requires from <= at < |b| && b[at] == 0 && forall i | from <= i < at :: b[i] != 0
    ensures FindNul(b, from) == Some(at)
    decreases at - from
  {
    if from < at {
      FindNulOf(b, from + 1, at);
    }
  }

  /** What is done with a command at the head of the buffer: it is passed through whole, or replaced,
      or (two kinds) replaced at its head and passed through for the rest. */
  function CommandAction(c: Command, view: seq<byte>): Action {
    match c
    case UpdateStat(_, _) => Do(1, [SVC_UPDATESTATLONG], 5)
    case Beam(number, _) => Do(4, [SVC_TEMP_ENTITY, TE_LIGHTNING1] + Le16(BeamNumber(number)), 12)
    case Bare(_) => Do(0, [], |NqBytes(c)|)
    case UpdateFrags(_, _) => Do(0, [], |NqBytes(c)|)
    case Finale(_) => Do(0, [], |NqBytes(c)|)
    case PointEffect(_, _) => Do(0, [], |NqBytes(c)|)
    case Lightning(_, _, _) => Do(0, [], |NqBytes(c)|)
    case Explosion2(_, _) => Do(0, [], |NqBytes(c)|)
    case _ => Do(|NqBytes(c)|, QwBytes(c, view), 0)
  }

  lemma TextAfter(head: seq<byte>, text: seq<byte>, rest: seq<byte>)
    requires IsText(text)
    ensures var b, at := head + text + [0] + rest, |head| + |text|;
            b[at] == 0 && (forall j | |head| <= j < at :: b[j] != 0) && b[|head|..at + 1] == text + [0]
  {
    var front := head + text;
    var b := front + [0] + rest;
    assert forall j | 0 <= j < |front| :: b[j] == front[j];
    assert forall j | |head| <= j < |front| :: front[j] == text[j - |head|];
  }

  lemma NulAfter(head: seq<byte>, text: seq<byte>, rest: seq<byte>)
    requires IsText(text)
    ensures FindNul(head + text + [0] + rest, |head|) == Some(|head| + |text|)
  {
    TextAfter(head, text, rest);
    FindNulOf(head + text + [0] + rest, |head|, |head| + |text|);
  }

  lemma DispatchOfText(c: Command, rest: seq<byte>, view: seq<byte>)
    requires IsCommand(c) && (c.Print? || c.Finale? || c.Cutscene?)
    ensures Dispatch(NqBytes(c) + rest, view) == CommandAction(c, view)
  {
    hide CUTSCENE, TempEntity, PlainAction, NameInfo, FindNul;
    var head: byte := if c.Print? then SVC_PRINT else if c.Finale? then SVC_FINALE else NQ_SVC_CUTSCENE;
    TextAfter([head], c.text, rest);
    NulAfter([head], c.text, rest);
    var b := [head] + c.text + [0];
    assert NqBytes(c) == b;
    assert (b + rest)[0] == head;
    if c.Print? {
      Appending([SVC_PRINT, PRINT_HIGH], c.text, [0]);
    }
  }

  lemma DispatchOfName(c: Command, rest: seq<byte>, view: seq<byte>)
    requires IsCommand(c) && c.UpdateName?
    ensures Dispatch(NqBytes(c) + rest, view) == CommandAction(c, view)
  {
    TextAfter([NQ_SVC_UPDATENAME, c.slot], c.name, rest);
    NulAfter([NQ_SVC_UPDATENAME, c.slot], c.name, rest);
    hide TempEntity, PlainAction, NameInfo, CUTSCENE, FindNul;
  }

  lemma DispatchOfEffect(c: Command, rest: seq<byte>, view: seq<byte>)
    requires IsCommand(c) && (c.PointEffect? || c.Gunshot? || c.Lightning? || c.Beam? || c.Explosion2?)
    ensures Dispatch(NqBytes(c) + rest, view) == CommandAction(c, view)
  {
    hide BeamNumber, TextAction, PlainAction;
    var b := NqBytes(c) + rest;
    if c.Gunshot? {
      assert b[..2] == [SVC_TEMP_ENTITY, TE_GUNSHOT] && b[2..8] == c.position;
    } else if c.Beam? {
      assert b[2] == c.number % 256 && b[3] == c.number / 256;
    }
  }

  lemma DispatchOfPlain(c: Command, rest: seq<byte>, view: seq<byte>)
    requires IsCommand(c)
    requires c.Bare? || c.UpdateStat? || c.SetView? || c.UpdateFrags? || c.UpdateColors? || c.CdTrack?
             || c.Intermission?
    ensures Dispatch(NqBytes(c) + rest, view) == CommandAction(c, view)
  {
    hide ColorsInfo, TempEntity, TextAction;
    var b := NqBytes(c) + rest;
    if c.CdTrack? {
      assert b[..2] == [SVC_CDTRACK, c.track];
    }
  }

  lemma DispatchOfCommand(c: Command, rest: seq<byte>, view: seq<byte>)
    requires IsCommand(c)
    ensures Dispatch(NqBytes(c) + rest, view) == CommandAction(c, view)
  {
    hide Dispatch, CommandAction, NqBytes;
    if c.Print? || c.Finale? || c.Cutscene? {
      DispatchOfText(c, rest, view);
    } else if c.UpdateName? {
      DispatchOfName(c, rest, view);
    } else if c.PointEffect? || c.Gunshot? || c.Lightning? || c.Beam? || c.Explosion2? {
      DispatchOfEffect(c, rest, view);
    } else {
      DispatchOfPlain(c, rest, view);
    }
  }

  lemma ActionOutput(c: Command, view: seq<byte>)
    requires IsCommand(c)
    ensures var a, b := CommandAction(c, view), NqBytes(c);
            && a.Do? && a.skip + a.owed == |b| && |b| > 0
            && a.emit + b[a.skip..] == QwBytes(c, view)
  {
    hide ColorsInfo, NameInfo, CUTSCENE, BeamNumber;
    match c
    case UpdateStat(stat, value) => assert NqBytes(c)[1..] == [stat] + value;
    case Beam(number, line) => assert NqBytes(c)[4..] == line;
    case _ =>
  }

  lemma PassThrough(b: seq<byte>, rest: seq<byte>, out: seq<byte>, view: seq<byte>)
    ensures Loop(Nqp(|b|, false, b + rest, out), view) == Loop(Nqp(0, false, rest, out + b), view)
  {
    assert (b + rest)[..|b|] == b && (b + rest)[|b|..] == rest;
    if b == [] {
      assert b + rest == rest && out + b == out;
    } else {
      hide Dispatch;
      assert Step(Nqp(|b|, false, b + rest, out), view) == Goes(Nqp(0, false, rest, out + b));
    }
  }

  /** A command whose action takes all its bytes is gone from the buffer when the action is complete. */
  lemma ActionCompletes(b: seq<byte>, rest: seq<byte>, skip: nat, emit: seq<byte>, owed: nat, out: seq<byte>,
                        view: seq<byte>)
    requires |b| > 0 && Dispatch(b + rest, view) == Do(skip, emit, owed) && skip + owed == |b|
    ensures Loop(Nqp(0, false, b + rest, out), view) == Loop(Nqp(0, false, rest, out + (emit + b[skip..])), view)
  {
    hide Dispatch;
    var tail := b[skip..];
    assert (b + rest)[skip..] == tail + rest;
    assert Step(Nqp(0, false, b + rest, out), view) == Goes(Nqp(owed, false, tail + rest, out + emit));
    PassThrough(tail, rest, out + emit, view);
    assert out + emit + tail == out + (emit + tail);
  }

  /** A whole command at the head of the buffer is replaced by its translation. */
  lemma CommandIsTranslated(c: Command, rest: seq<byte>, out: seq<byte>, view: seq<byte>)
    requires IsCommand(c)
    ensures Loop(Nqp(0, false, NqBytes(c) + rest, out), view) == Loop(Nqp(0, false, rest, out + QwBytes(c, view)), view)
  {
    DispatchOfCommand(c, rest, view);
    ActionOutput(c, view);
    hide Dispatch, CommandAction, NqBytes, QwBytes, Loop;
    var a := CommandAction(c, view);
    ActionCompletes(NqBytes(c), rest, a.skip, a.emit, a.owed, out, view);
  }

  function AllNqBytes(cs: seq<Command>): seq<byte> {
    if cs == [] then [] else NqBytes(cs[0]) + AllNqBytes(cs[1..])
  }

  function AllQwBytes(cs: seq<Command>, view: seq<byte>): seq<byte> {
    if cs == [] then [] else QwBytes(cs[0], view) + AllQwBytes(cs[1..], view)
  }

  lemma NothingLoops(out: seq<byte>, view: seq<byte>)
    ensures Loop(Nqp(0, false, [], out), view) == Nqp(0, false, [], out)
  {
  }

  lemma {:induction false} LoopTranslates(cs: seq<Command>, out: seq<byte>, view: seq<byte>)
    requires forall i | 0 <= i < |cs| :: IsCommand(cs[i])
    ensures Loop(Nqp(0, false, AllNqBytes(cs), out), view) == Nqp(0, false, [], out + AllQwBytes(cs, view))
    decreases |cs|
  {
    hide NqBytes, QwBytes, IsCommand, Loop;
    if cs != [] {
      CommandIsTranslated(cs[0], AllNqBytes(cs[1..]), out, view);
      LoopTranslates(cs[1..], out + QwBytes(cs[0], view), view);
      Appending(out, QwBytes(cs[0], view), AllQwBytes(cs[1..], view));
    } else {
      NothingLoops(out, view);
      assert out + [] == out;
    }
  }

  /** These bytes are neither the beginning of a command nor begin with one. */
  ghost predicate IsForeign(b: seq<byte>) {
    forall c | IsCommand(c) :: !(NqBytes(c) <= b) && !(b <= NqBytes(c))
  }

  lemma BeginsWith(c: Command, b: seq<byte>, n: nat)
    requires IsCommand(c) && n <= |b| && NqBytes(c) == b[..n]
    ensures !IsForeign(b)
  {
    hide IsCommand, NqBytes;
    assert b[..n] <= b;
  }

  lemma WholeBeam(b: seq<byte>)
    requires |b| >= 16 && b[0] == SVC_TEMP_ENTITY && b[1] == NQ_TE_BEAM
    ensures !IsForeign(b)
  {
    var c := Beam(Short(b[2], b[3]), b[4..16]);
    assert Le16(c.number) == b[2..4];
    hide Le16, Short;
    assert NqBytes(c) == b[..16];
    assert NqBytes(c) <= b;
  }

  lemma WholeEffect(b: seq<byte>)
    requires |b| >= 16 && b[0] == SVC_TEMP_ENTITY && TempEntity(b).Do?
    ensures !IsForeign(b)
  {
    hide BeamNumber, IsPointEffect, IsLightning, Le16;
    if IsPointEffect(b[1]) {
      assert NqBytes(PointEffect(b[1], b[2..8])) == b[..8] <= b;
    } else if b[1] == TE_GUNSHOT {
      assert NqBytes(Gunshot(b[2..8])) == b[..8] <= b;
    } else if IsLightning(b[1]) {
      assert NqBytes(Lightning(b[1], b[2..4], b[4..16])) == b[..16] <= b;
    } else if b[1] == NQ_TE_BEAM {
      WholeBeam(b);
    } else {
      assert NqBytes(Explosion2(b[2..8], b[8..10])) == b[..10] <= b;
    }
  }

  /** The text from one position up to the first zero after it. */
  lemma TextUpTo(b: seq<byte>, from: nat)
    requires from <= |b| && FindNul(b, from).Some?
    ensures var p := FindNul(b, from).value;
            IsText(b[from..p]) && b[..from] + b[from..p] + [0] == b[..p + 1]
  {
    var p := FindNul(b, from).value;
    assert b[..from] + b[from..p] == b[..p];
  }

  lemma WholeName(b: seq<byte>)
    requires |b| >= 2 && b[0] == NQ_SVC_UPDATENAME && FindNul(b, 2).Some?
    ensures !IsForeign(b)
  {
    hide FindNul, IsText, IsForeign;
    TextUpTo(b, 2);
    var p := FindNul(b, 2).value;
    FindNulBounds(b, 2);
    var c := UpdateName(b[1], b[2..p]);
    assert b[..2] == [NQ_SVC_UPDATENAME, b[1]];
    assert NqBytes(c) == b[..p + 1];
    BeginsWith(c, b, p + 1);
  }

  lemma WholeText(b: seq<byte>)
    requires |b| > 0 && EndsInText(b[0]) && TextAction(b).Do?
    ensures !IsForeign(b)
  {
    hide CUTSCENE, NameInfo, FindNul, IsText, IsForeign;
    if b[0] == NQ_SVC_UPDATENAME {
      WholeName(b);
    } else {
      TextUpTo(b, 1);
      FindNulBounds(b, 1);
      var text := b[1..FindNul(b, 1).value];
      var c := if b[0] == SVC_PRINT then Print(text) else if b[0] == SVC_FINALE then Finale(text) else Cutscene(text);
      assert b[..1] == [b[0]];
      assert NqBytes(c) == b[..FindNul(b, 1).value + 1];
      BeginsWith(c, b, FindNul(b, 1).value + 1);
    }
  }

  lemma WholePlain(b: seq<byte>, view: seq<byte>)
    requires |b| >= 16 && b[0] != SVC_TEMP_ENTITY && !EndsInText(b[0]) && PlainAction(b, view).Do?
    ensures !IsForeign(b)
  {
    hide ColorsInfo;
    var c := if b[0] == SVC_UPDATESTAT then UpdateStat(b[1], b[2..6])
             else if b[0] == NQ_SVC_SETVIEW then SetView(b[1..3])
             else if b[0] == SVC_UPDATEFRAGS then UpdateFrags(b[1], b[2..4])
             else if b[0] == NQ_SVC_UPDATECOLORS then UpdateColors(b[1], b[2])
             else if b[0] == SVC_CDTRACK then CdTrack(b[1], b[2])
             else if b[0] == SVC_INTERMISSION then Intermission
             else Bare(b[0]);
    assert NqBytes(c) <= b;
  }

  lemma CommandIsNotIgnored(c: Command, b: seq<byte>, view: seq<byte>)
    requires IsCommand(c) && |b| > 0 && (NqBytes(c) <= b || b <= NqBytes(c))
    ensures Dispatch(b, view) != Ignore
  {
    hide Dispatch, CommandAction, NqBytes;
    var n := NqBytes(c);
    ActionOutput(c, view);
    if n <= b {
      DispatchOfCommand(c, b[|n|..], view);
      assert n + b[|n|..] == b;
    } else {
      DispatchOfCommand(c, [], view);
      assert b + n[|b|..] == n == n + [];
      DispatchGrows(b, n[|b|..], view);
    }
  }

  /** The frame is given up exactly at bytes that are foreign. */
  lemma IgnoresExactlyForeign(b: seq<byte>, view: seq<byte>)
    requires |b| > 0
    ensures Dispatch(b, view) == Ignore <==> IsForeign(b)
  {
    hide TempEntity, TextAction, PlainAction, NqBytes, IsCommand, CommandAction;
    forall c | IsCommand(c) && (NqBytes(c) <= b || b <= NqBytes(c)) ensures Dispatch(b, view) != Ignore {
      CommandIsNotIgnored(c, b, view);
    }
    if Dispatch(b, view) == Ignore {
      assert IsForeign(b);
    } else if Dispatch(b, view) == Wait {
      WaitingIsIncomplete(b, view);
    } else {
      var all := b + Zeros(16);
      DispatchGrows(b, Zeros(16), view);
      if b[0] == SVC_TEMP_ENTITY {
        WholeEffect(all);
      } else if EndsInText(b[0]) {
        WholeText(all);
      } else {
        WholePlain(all, view);
      }
      var c :| IsCommand(c) && (NqBytes(c) <= all || all <= NqBytes(c));
      assert b <= all;
      assert NqBytes(c) <= b || b <= NqBytes(c);
    }
  }

  lemma {:induction false} LoopStopsAtForeign(cs: seq<Command>, tail: seq<byte>, out: seq<byte>, view: seq<byte>)
    requires forall i | 0 <= i < |cs| :: IsCommand(cs[i])
    requires |tail| > 0 && IsForeign(tail)
    ensures Loop(Nqp(0, false, AllNqBytes(cs) + tail, out), view) == Nqp(0, true, tail, out + AllQwBytes(cs, view))
    decreases |cs|
  {
    if cs != [] {
      hide NqBytes, QwBytes, IsCommand, Loop;
      CommandIsTranslated(cs[0], AllNqBytes(cs[1..]) + tail, out, view);
      Appending(NqBytes(cs[0]), AllNqBytes(cs[1..]), tail);
      LoopStopsAtForeign(cs[1..], tail, out + QwBytes(cs[0], view), view);
      Appending(out, QwBytes(cs[0], view), AllQwBytes(cs[1..], view));
    } else {
      IgnoresExactlyForeign(tail, view);
      hide Dispatch, IsForeign;
      assert AllNqBytes(cs) + tail == tail && out + [] == out;
    }
  }

  /** Foreign bytes give up the frame: what was sent are the translations of the commands before them, however the
      bytes were cut. */
  lemma TranslatesUpToForeign(cs: seq<Command>, tail: seq<byte>, pieces: seq<seq<byte>>, view: seq<byte>)
    requires forall i | 0 <= i < |cs| :: IsCommand(cs[i])
    requires |tail| > 0 && IsForeign(tail) && pieces != [] && Concat(pieces) == AllNqBytes(cs) + tail
    ensures var t := FedAll(Nqp(0, false, [], []), pieces, view);
            t.ignore && t.owed == 0 && t.out == AllQwBytes(cs, view)
  {
    IncrementalEqualsBatch(Nqp(0, false, [], []), pieces, view);
    LoopStopsAtForeign(cs, tail, [], view);
    FedFromNothing(Concat(pieces), view);
    hide FedAll, AllNqBytes, AllQwBytes, Concat, Loop, IsForeign, Fed;
    assert [] + AllQwBytes(cs, view) == AllQwBytes(cs, view);
  }

  lemma FedFromNothing(bytes: seq<byte>, view: seq<byte>)
    ensures Fed(Nqp(0, false, [], []), bytes, view) == Loop(Nqp(0, false, bytes, []), view)
  {
    hide Loop;
    assert [] + bytes == bytes;
  }

  /** All bytes are whole commands, and after them nothing, part of a command, or foreign bytes. */
  lemma {:induction false} EveryStreamSplits(b: seq<byte>) returns (cs: seq<Command>, tail: seq<byte>)
    ensures b == AllNqBytes(cs) + tail && forall i | 0 <= i < |cs| :: IsCommand(cs[i])
    ensures tail == [] || IsIncomplete(tail) || IsForeign(tail)
    decreases |b|
  {
    hide NqBytes, IsCommand;
    if b == [] || IsIncomplete(b) || IsForeign(b) {
      cs, tail := [], b;
    } else {
      var c :| IsCommand(c) && NqBytes(c) <= b;
      var n := NqBytes(c);
      ActionOutput(c, []);
      var rest;
      rest, tail := EveryStreamSplits(b[|n|..]);
      cs := [c] + rest;
      assert cs[1..] == rest;
      Appending(n, AllNqBytes(rest), tail);
    }
  }

  /** Whatever commands the game writes, in whatever pieces, clients are sent their translations in order, and
      nothing is left. */
  lemma TranslationIsFaithful(cs: seq<Command>, pieces: seq<seq<byte>>, view: seq<byte>)
    requires forall i | 0 <= i < |cs| :: IsCommand(cs[i])
    requires pieces != [] && Concat(pieces) == AllNqBytes(cs)
    ensures FedAll(Nqp(0, false, [], []), pieces, view) == Nqp(0, false, [], AllQwBytes(cs, view))
  {
    IncrementalEqualsBatch(Nqp(0, false, [], []), pieces, view);
    LoopTranslates(cs, [], view);
    FedFromNothing(Concat(pieces), view);
    hide FedAll, AllNqBytes, AllQwBytes, Concat, Loop, Fed;
    assert [] + AllQwBytes(cs, view) == AllQwBytes(cs, view);
  }

  lemma Appending(a: seq<byte>, b: seq<byte>, c: seq<byte>)
    ensures (a + b) + c == a + (b + c)
  {
  }

  // ---------- The translator in place ----------

  class Translator {
    const buf: SizeBuf
    const view: seq<byte>
    var ignoreThisFrame: bool
    var owed: nat
    var reliable: seq<byte>

    ghost predicate Valid()
      reads this, buf
    {
      buf.Valid() && buf.maxsize == buf.data.Length == 1024 && !buf.allowOverflow && !buf.overflowed
    }

    ghost function Value(): Nqp
      requires Valid()
      reads this, buf, buf.data
    {
      Nqp(owed, ignoreThisFrame, buf.data[..buf.cursize], reliable)
    }

    /** NQP_Reset */
    constructor (view: seq<byte>)
      ensures Valid() && fresh(buf) && fresh(buf.data) && Value() == Nqp(0, false, [], []) && this.view == view
    {
      this.view := view;
      buf := new SizeBuf(1024, 1024, false);
      ignoreThisFrame, owed, reliable := false, 0, [];
    }

    /** NQP_Flush */
    method Flush(count: nat)
      requires Valid() && count <= buf.cursize
      modifies this`reliable, buf`cursize, buf.data
      ensures Valid()
      ensures Value() == old(Value()).(buf := old(Value()).buf[count..], out := old(reliable + buf.data[..count]))
    {
      reliable := reliable + buf.data[..count];
      Skip(count);
    }

    /** NQP_Skip */
    method Skip(count: nat)
      requires Valid() && count <= buf.cursize
      modifies buf`cursize, buf.data
      ensures Valid()
      ensures Value() == old(Value()).(buf := old(Value()).buf[count..])
    {
      var left := buf.cursize - count;
      forall i | 0 <= i < left {
        buf.data[i] := buf.data[count + i];
      }
      buf.cursize := left;
    }

    /** memchr in the buffer */
    method Find(from: nat) returns (at: Option<nat>)
      requires Valid()
      ensures at == FindNul(buf.data[..buf.cursize], from)
    {
      ghost var b := buf.data[..buf.cursize];
      var i := from;
      while i < buf.cursize
        invariant from <= i && FindNul(b, from) == FindNul(b, i)
      {
        if buf.data[i] == 0 {
          return Some(i);
        }
        i := i + 1;
      }
      at := None;
    }

    /** The bytes of the buffer from one position to another. */
    method Slice(from: nat, to: nat) returns (bytes: seq<byte>)
      requires buf.Valid() && from <= to <= buf.cursize
      ensures bytes == buf.data[..buf.cursize][from..to]
    {
      bytes := buf.data[from..to];
    }

    /** The commands of NQP_Process that end in a string: whether to go on. */
    method TextCommand() returns (goOn: bool)
      requires Valid() && buf.cursize > 0 && owed == 0 && !ignoreThisFrame
      requires EndsInText(buf.data[0])
      modifies this, buf`cursize, buf.data
      ensures Valid()
      ensures match Step(old(Value()), view)
              case Waits => !goOn && Value() == old(Value())
              case Ignores => !goOn && Value() == old(Value()).(ignore := true)
              case Goes(next) => goOn && Value() == next
    {
      hide FindNul, NameInfo, CUTSCENE, Dispatch;
      ghost var b := buf.data[..buf.cursize];
      assert b[0] == buf.data[0] && b[0..] == b && old(reliable) + [] == old(reliable);
      TextDispatch(b, view);
      var cmd := buf.data[0];
      if cmd == NQ_SVC_UPDATENAME && buf.cursize < 3 {
        return false;
      }
      var from := if cmd == NQ_SVC_UPDATENAME then 2 else 1;
      var p := Find(from);
      FindNulBounds(b, from);
      if p == None {
        return false;
      }
      if cmd == SVC_FINALE {
        owed := p.value + 1;
        return true;
      }
      var text := Slice(from, p.value + 1);
      if cmd == SVC_PRINT {
        reliable := reliable + ([SVC_PRINT, PRINT_HIGH] + text);
      } else if cmd == NQ_SVC_UPDATENAME {
        reliable := reliable + NameInfo(buf.data[1], text);
      } else {
        reliable := reliable + ([SVC_STUFFTEXT] + CUTSCENE);
      }
      Skip(p.value + 1);
      goOn := true;
    }

    /** A gunshot, which QuakeWorld gives a count. */
    method Gunshot()
      requires Valid() && buf.cursize >= 8
      modifies this`reliable, buf`cursize, buf.data
      ensures Valid()
      ensures var b := old(Value()).buf;
              Value() == old(Value()).(buf := b[8..], out := old(Value()).out + (b[..2] + [1] + b[2..8]))
    {
      ghost var b := buf.data[..buf.cursize];
      assert buf.data[..2] == b[..2];
      Flush(2);
      reliable := reliable + [1];
      assert buf.data[..6] == b[2..][..6] == b[2..8];
      Flush(6);
      assert b[2..][6..] == b[8..];
      assert reliable == old(reliable) + (b[..2] + [1] + b[2..8]);
    }

    /** The effects: whether to go on. */
    method Effect() returns (goOn: bool)
      requires Valid() && buf.cursize > 0 && owed == 0 && !ignoreThisFrame
      requires buf.data[0] == SVC_TEMP_ENTITY
      modifies this, buf`cursize, buf.data
      ensures Valid()
      ensures match Step(old(Value()), view)
              case Waits => !goOn && Value() == old(Value())
              case Ignores => !goOn && Value() == old(Value()).(ignore := true)
              case Goes(next) => goOn && Value() == next
    {
      hide TextAction, PlainAction, Le16, BeamNumber, IsPointEffect, IsLightning;
      ghost var b := buf.data[..buf.cursize];
      assert b[0] == buf.data[0] && b[0..] == b && old(reliable) + [] == old(reliable);
      if buf.cursize < 2 {
        return false;
      }
      var kind := buf.data[1];
      assert b[1] == kind;
      goOn := true;
      if IsPointEffect(kind) {
        owed := 8;
      } else if kind == TE_GUNSHOT {
        if buf.cursize < 8 {
          return false;
        }
        Gunshot();
      } else if IsLightning(kind) {
        owed := 16;
      } else if kind == NQ_TE_BEAM {
        if buf.cursize < 16 {
          return false;
        }
        var entnum: int := buf.data[2] as int + buf.data[3] as int * 256;
        reliable := reliable + ([SVC_TEMP_ENTITY, TE_LIGHTNING1] + Le16(BeamNumber(entnum)));
        Skip(4);
        owed := 12;
      } else if kind == NQ_TE_EXPLOSION2 {
        owed := 10;
      } else {
        ignoreThisFrame := true;
        goOn := false;
      }
    }

    method CdTrack()
      requires Valid() && buf.cursize >= 3
      modifies this`reliable, buf`cursize, buf.data
      ensures Valid()
      ensures Value() == old(Value()).(buf := old(Value()).buf[3..], out := old(Value()).out + old(Value()).buf[..2])
    {
      ghost var b := buf.data[..buf.cursize];
      assert buf.data[..2] == b[..2];
      Flush(2);
      assert b[2..][1..] == b[3..];
      Skip(1);
    }

    method Intermission()
      requires Valid() && buf.cursize >= 1 && buf.data[0] == SVC_INTERMISSION
      modifies this`reliable, buf`cursize, buf.data
      ensures Valid()
      ensures Value() == old(Value()).(buf := old(Value()).buf[1..],
                                       out := old(Value()).out + ([SVC_INTERMISSION] + view))
    {
      ghost var before, head := reliable, buf.data[..1];
      assert head == [SVC_INTERMISSION];
      Flush(1);
      assert reliable == before + head;
      Appending(before, head, view);
      reliable := reliable + view;
    }

    /** The other commands of NQP_Process: whether to go on. */
    method PlainCommand() returns (goOn: bool)
      requires Valid() && buf.cursize > 0 && owed == 0 && !ignoreThisFrame
      requires buf.data[0] != SVC_TEMP_ENTITY && !EndsInText(buf.data[0])
      modifies this, buf`cursize, buf.data
      ensures Valid()
      ensures match Step(old(Value()), view)
              case Waits => !goOn && Value() == old(Value())
              case Ignores => !goOn && Value() == old(Value()).(ignore := true)
              case Goes(next) => goOn && Value() == next
    {
      hide TextAction, ColorsInfo, TempEntity;
      ghost var b := buf.data[..buf.cursize];
      assert b[0] == buf.data[0] && b[0..] == b && old(reliable) + [] == old(reliable);
      var cmd := buf.data[0];
      if cmd in {NQ_SVC_SETVIEW, NQ_SVC_UPDATECOLORS, SVC_CDTRACK} && buf.cursize < 3 {
        return false;
      }
      goOn := true;
      if cmd == SVC_KILLEDMONSTER || cmd == SVC_FOUNDSECRET || cmd == SVC_SELLSCREEN {
        owed := 1;
      } else if cmd == SVC_UPDATESTAT {
        Skip(1);
        reliable := reliable + [SVC_UPDATESTATLONG];
        owed := 5;
      } else if cmd == NQ_SVC_SETVIEW {
        Skip(3);
      } else if cmd == SVC_UPDATEFRAGS {
        owed := 4;
      } else if cmd == NQ_SVC_UPDATECOLORS {
        reliable := reliable + ColorsInfo(buf.data[1], buf.data[2]);
        Skip(3);
      } else if cmd == SVC_CDTRACK {
        CdTrack();
      } else if cmd == SVC_INTERMISSION {
        Intermission();
      } else {
        ignoreThisFrame := true;
        goOn := false;
      }
    }

    /** NQP_Process */
    method Process()
      requires Valid()
      modifies this, buf, buf.data
      ensures Valid() && Value() == Processed(old(Value()), view)
    {
      hide Dispatch;
      if ignoreThisFrame {
        buf.Clear();
        return;
      }
      var goOn := true;
      while goOn
        invariant Valid()
        invariant goOn ==> !ignoreThisFrame && Loop(Value(), view) == Loop(old(Value()), view)
        invariant !goOn ==> Value() == Loop(old(Value()), view)
        decreases goOn, Measure(Value())
      {
        StepAdvances(Value(), view);
        if owed > 0 {
          if buf.cursize >= owed {
            assert buf.data[..buf.cursize][..owed] == buf.data[..owed];
            Flush(owed);
            owed := 0;
          } else {
            goOn := false;
          }
        } else if buf.cursize == 0 {
          goOn := false;
        } else {
          var cmd := buf.data[0];
          if cmd == SVC_TEMP_ENTITY {
            goOn := Effect();
          } else if EndsInText(cmd) {
            goOn := TextCommand();
          } else {
            goOn := PlainCommand();
          }
        }
      }
    }

    /** A PF_Write* call, when the buffer has room for it. */
    method Write(bytes: seq<byte>)
      requires Valid() && buf.cursize + |bytes| <= 1024
      modifies this, buf, buf.data
      ensures Valid() && Value() == Fed(old(Value()), bytes, view)
    {
      hide Processed;
      var _ := buf.Write(bytes);
      Process();
    }
  }
}
