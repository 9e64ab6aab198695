/** Packet entities as they cross the network: each frame is sent as its differences from one the
    client already has. The decoder is the reading of the bit layout that the server's writer implies. */
module DeltaEntities {
  import opened Bytes
  import opened Entities
  import opened EntityHeaders
  import opened Options

  /** What an encoding depends on: how coordinates and angles become bytes, and the granted extensions. */
  datatype Client = Client(
    coord: real -> seq<byte>,
    coordSize: nat,
    angle: real -> seq<byte>,
    angleSize: nat,
    modelDbl: bool,
    entityDbl: bool,
    entityDbl2: bool,
    maxEdicts: nat)

  ghost predicate Proper(c: Client) {
    && c.coordSize <= 4 && c.angleSize <= 2 && 1 <= c.maxEdicts <= MAX_EDICTS
    && (forall f :: |c.coord(f)| == c.coordSize)
    && (forall f :: |c.angle(f)| == c.angleSize)
  }

  /** The room that a record is given before it is written. */
  const ROOM := 40

  /** The state that every entity number starts from. */
  type Baselines = nat -> EntityState

  // ---------- What a client knows of an entity ----------

  /** The values a client has: for every field, in the order in which fields are written, the bytes that stand
      for it, and besides those the ninth bit of the model. */
  datatype Fields = Fields(number: nat, bigModel: bool, values: seq<seq<byte>>)

  type Known = k: Fields | |k.values| == 11
    witness Fields(0, false, [[], [], [], [], [], [], [], [], [], [], []])

  function Low(c: int): byte {
    c % 256
  }

  function Values(c: Client, s: EntityState): (v: seq<seq<byte>>)
    ensures |v| == 11
  {
    [[Low(s.modelindex)], [Low(s.frame)], [Low(s.colormap)], [Low(s.skinnum)], [Low(s.effects)],
     c.coord(s.origin.x), c.angle(s.angles.x),
     c.coord(s.origin.y), c.angle(s.angles.y),
     c.coord(s.origin.z), c.angle(s.angles.z)]
  }

  function Sizes(c: Client): (n: seq<nat>)
    ensures |n| == 11
  {
    [1, 1, 1, 1, 1, c.coordSize, c.angleSize, c.coordSize, c.angleSize, c.coordSize, c.angleSize]
  }

  function Quantised(c: Client, s: EntityState): Known {
    Fields(s.number, s.modelindex > 255, Values(c, s))
  }

  function QuantisedFrame(c: Client, f: Frame): (k: seq<Known>)
    ensures |k| == |f|
    ensures forall i :: 0 <= i < |f| ==> k[i] == Quantised(c, f[i])
  {
    if f == [] then [] else [Quantised(c, f[0])] + QuantisedFrame(c, f[1..])
  }

  /** The byte that stands for x: x itself if it is one. */
  predicate IsByteOf(v: seq<byte>, x: int) {
    |v| == 1 && v[0] == if 0 <= x < 256 then x else x % 256
  }

  /** The model that a client sees: a byte and a ninth bit. */
  function ModelOf(k: Known): int {
    if |k.values[0]| == 1 then k.values[0][0] as int + (if k.bigModel then 256 else 0) else -1
  }

  /** A client sees in what it knows the number, model, frame, colors, skin and effects of the state, each that fits its
      bytes (a model has nine bits), and the bytes of the coordinates and the angles. */
  predicate Shows(c: Client, k: Known, s: EntityState) {
    && k.number == s.number
    && IsByteOf(k.values[0], s.modelindex) && (0 <= s.modelindex < 512 ==> ModelOf(k) == s.modelindex)
    && IsByteOf(k.values[1], s.frame) && IsByteOf(k.values[2], s.colormap)
    && IsByteOf(k.values[3], s.skinnum) && IsByteOf(k.values[4], s.effects)
    && k.values[5] == c.coord(s.origin.x) && k.values[6] == c.angle(s.angles.x)
    && k.values[7] == c.coord(s.origin.y) && k.values[8] == c.angle(s.angles.y)
    && k.values[9] == c.coord(s.origin.z) && k.values[10] == c.angle(s.angles.z)
  }

  predicate ShowsFrame(c: Client, known: seq<Known>, f: Frame) {
    |known| == |f| && forall i :: 0 <= i < |f| ==> Shows(c, known[i], f[i])
  }

  lemma LowIsByte(x: int)
    ensures IsByteOf([Low(x)], x)
    ensures 256 <= x < 512 ==> Low(x) == x - 256
  {
  }

  lemma QuantisedShows(c: Client, s: EntityState)
    ensures Shows(c, Quantised(c, s), s)
  {
    hide Low, IsByteOf;
    LowIsByte(s.modelindex);
    LowIsByte(s.frame);
    LowIsByte(s.colormap);
    LowIsByte(s.skinnum);
    LowIsByte(s.effects);
    ModelIsShown(c, s);
  }

  lemma ModelIsShown(c: Client, s: EntityState)
    ensures 0 <= s.modelindex < 512 ==> ModelOf(Quantised(c, s)) == s.modelindex
  {
    LowIsByte(s.modelindex);
  }

  lemma QuantisedFrameShows(c: Client, f: Frame)
    ensures ShowsFrame(c, QuantisedFrame(c, f), f)
  {
    hide Quantised, Shows;
    forall i | 0 <= i < |f| ensures Shows(c, QuantisedFrame(c, f)[i], f[i]) {
      QuantisedShows(c, f[i]);
    }
  }

  // ---------- Records ----------

  function Differences(from: EntityState, to: EntityState): Changes {
    Changes(to.modelindex != from.modelindex, to.frame != from.frame, to.colormap != from.colormap,
            to.skinnum != from.skinnum, to.effects != from.effects,
            to.origin.x != from.origin.x, to.angles.x != from.angles.x,
            to.origin.y != from.origin.y, to.angles.y != from.angles.y,
            to.origin.z != from.origin.z, to.angles.z != from.angles.z)
  }

  function HeaderFor(from: EntityState, to: EntityState): Header {
    Header(to.number, false, Differences(from, to), to.modelindex != from.modelindex && to.modelindex > 255)
  }

  /** An extension is needed that the client was not granted. */
  predicate Refused(c: Client, h: Header) {
    || (h.modelDbl && !c.modelDbl)
    || (512 <= h.number < 1024 && !c.entityDbl)
    || (1024 <= h.number && !c.entityDbl2)
    || (1536 <= h.number && !c.entityDbl)
  }

  /** No flag is set. */
  predicate Silent(h: Header, solid: bool) {
    true !in InOrder(h.changes) && !solid && !NeedsEvenMore(h)
  }

  function Clamped(c: Client, to: EntityState): EntityState
    requires 1 <= c.maxEdicts
  {
    if to.number >= c.maxEdicts then to.(number := c.maxEdicts - 1) else to
  }

  /** The values of the fields that changed, one after another. */
  function Packed(flags: seq<bool>, values: seq<seq<byte>>): seq<byte>
    requires |flags| == |values|
  {
    if flags == [] then [] else (if flags[0] then values[0] else []) + Packed(flags[1..], values[1..])
  }

  /** One call of SV_WriteDelta: the bytes written, what the server then holds for the entity, and
      whether the client gets to know of the new state. */
  datatype Update = Update(bytes: seq<byte>, sent: EntityState, told: bool)

  function Delta(c: Client, from: EntityState, to: EntityState, fits: bool, force: bool): Update
    requires 1 <= c.maxEdicts
  {
    var h := HeaderFor(from, to);
    if !fits then Update([], from, false)
    else if Refused(c, h) then Update([], Clamped(c, to), false)
    else if Silent(h, to.solid) && !force then Update([], Clamped(c, to), true)
    else
      Update(HeaderBytes(h, Clamped(c, to).number, to.solid) + Packed(InOrder(h.changes), Values(c, to)),
             Clamped(c, to), true)
  }

  // ---------- Whole frames ----------

  /** A run of SV_EmitPacketEntities: the records, the frame the server keeps, and the frame the client
      can have been told of. */
  datatype Emitted = Emitted(records: seq<byte>, sent: Frame, told: Frame)

  predicate Numbered(f: Frame) {
    forall i :: 0 <= i < |f| ==> 1 <= f[i].number < MAX_EDICTS
  }

  /** One pass of the merge loop: what it writes, and what it leaves of the two lists. */
  datatype Pass = Pass(bytes: seq<byte>, sent: Frame, told: Frame, prev: Frame, next: Frame)

  function OnePass(c: Client, base: Baselines, prev: Frame, next: Frame, fits: bool): (r: Pass)
    requires 1 <= c.maxEdicts && Numbered(prev) && Numbered(next) && (prev != [] || next != [])
    ensures |r.prev| + |r.next| < |prev| + |next|
    ensures Numbered(r.prev) && Numbered(r.next)
  {
    if next == [] || (prev != [] && prev[0].number < next[0].number) then
      Pass(Removal(prev[0].number), [], [], prev[1..], next)
    else if prev != [] && prev[0].number == next[0].number then
      var d := Delta(c, prev[0], next[0], fits, false);
      Pass(d.bytes, [d.sent], [if d.told then next[0] else prev[0]], prev[1..], next[1..])
    else
      var d := Delta(c, base(next[0].number), next[0], fits, true);
      Pass(d.bytes, [d.sent], if d.told then [next[0]] else [], prev, next[1..])
  }

  function Emission(c: Client, base: Baselines, prev: Frame, next: Frame, room: int): Emitted
    requires 1 <= c.maxEdicts && Numbered(prev) && Numbered(next)
    decreases |prev| + |next|
  {
    if prev == [] && next == [] then Emitted([], [], [])
    else
      var p := OnePass(c, base, prev, next, room >= ROOM);
      var e := Emission(c, base, p.prev, p.next, room - |p.bytes|);
      Emitted(p.bytes + e.records, p.sent + e.sent, p.told + e.told)
  }

  // ---------- The decoder ----------

  /** Reads the flagged fields and keeps the others. */
  function Unpacked(flags: seq<bool>, sizes: seq<nat>, kept: seq<seq<byte>>,
                    bytes: seq<byte>): (r: Option<(seq<seq<byte>>, seq<byte>)>)
    requires |flags| == |sizes| == |kept|
    ensures r.Some? ==> |r.value.0| == |flags| && |r.value.1| <= |bytes|
  {
    if flags == [] then Some(([], bytes))
    else
      var size := if flags[0] then sizes[0] else 0;
      if |bytes| < size then None
      else
        var r := Unpacked(flags[1..], sizes[1..], kept[1..], bytes[size..]);
        if r.None? then None
        else Some(([if flags[0] then bytes[..size] else kept[0]] + r.value.0, r.value.1))
  }

  /** Reads the fields of one record on top of what is known. */
  function Patched(c: Client, h: Header, from: Known, bytes: seq<byte>): Option<(Known, seq<byte>)>
  {
    var r := Unpacked(InOrder(h.changes), Sizes(c), from.values, bytes);
    if r.None? then None
    else Some((Fields(h.number, if h.changes.model then h.modelDbl else from.bigModel, r.value.0), r.value.1))
  }

  /** Reads records up to the zero word; entities of the earlier frame that no record names stay as they were. */
  function Decode(c: Client, base: nat -> EntityState, known: seq<Known>, bytes: seq<byte>)
    : Option<(seq<Known>, seq<byte>)>
    decreases |known| + |bytes|
  {
    var p := ParseHeader(bytes);
    if p.None? then None
    else if p.value.End? then Some((known, p.value.rest))
    else
      var h := p.value.header;
      var rest := p.value.rest;
      if known != [] && known[0].number < h.number then
        Following(known[0], Decode(c, base, known[1..], bytes))
      else if known != [] && known[0].number == h.number then
        if h.remove then Decode(c, base, known[1..], rest)
        else
          var u := Patched(c, h, known[0], rest);
          if u.None? then None else Following(u.value.0, Decode(c, base, known[1..], u.value.1))
      else if h.remove then Decode(c, base, known, rest)
      else
        var u := Patched(c, h, Quantised(c, base(h.number)), rest);
        if u.None? then None else Following(u.value.0, Decode(c, base, known, u.value.1))
  }

  function Following(k: Known, r: Option<(seq<Known>, seq<byte>)>): Option<(seq<Known>, seq<byte>)> {
    if r.None? then None else Some(([k] + r.value.0, r.value.1))
  }

  // ---------- One record ----------

  /** Reading what Packed wrote gives the new value of every flagged field and keeps the others. */
  lemma {:induction false} UnpackedOfPacked(flags: seq<bool>, sizes: seq<nat>, kept: seq<seq<byte>>,
                                            values: seq<seq<byte>>, rest: seq<byte>)
    requires |flags| == |sizes| == |kept| == |values|
    requires forall i :: 0 <= i < |values| ==> |values[i]| == sizes[i]
    requires forall i :: 0 <= i < |values| && !flags[i] ==> kept[i] == values[i]
    ensures Unpacked(flags, sizes, kept, Packed(flags, values) + rest) == Some((values, rest))
  {
    if flags != [] {
      UnpackedOfPacked(flags[1..], sizes[1..], kept[1..], values[1..], rest);
      var first := if flags[0] then values[0] else [];
      var more := Packed(flags[1..], values[1..]);
      assert |first| == if flags[0] then sizes[0] else 0;
      hide Packed;
      FirstOfThree(first, more, rest);
      assert [values[0]] + values[1..] == values;
    } else {
      assert [] + rest == rest;
    }
  }

  lemma FirstOfThree(first: seq<byte>, more: seq<byte>, rest: seq<byte>)
    ensures var b := first + more + rest;
            b[..|first|] == first && b[|first|..] == more + rest
  {
  }

  lemma SizesAreRight(c: Client, s: EntityState)
    requires Proper(c)
    ensures forall i :: 0 <= i < 11 ==> |Values(c, s)[i]| == Sizes(c)[i]
  {
  }

  lemma UnflaggedAreEqual(c: Client, from: EntityState, to: EntityState)
    ensures forall i :: 0 <= i < 11 && !InOrder(Differences(from, to))[i] ==> Values(c, from)[i] == Values(c, to)[i]
  {
  }

  /** A record that is written makes the client's copy that of the new state, whatever of it changed. */
  lemma {:induction false} RecordRoundTrip(c: Client, from: EntityState, to: EntityState, rest: seq<byte>)
    requires Proper(c) && 1 <= to.number < c.maxEdicts
    ensures var h := HeaderFor(from, to);
            var fields := Packed(InOrder(h.changes), Values(c, to));
            && ParseHeader(HeaderBytes(h, to.number, to.solid) + fields + rest) == Some(Entry(h, fields + rest))
            && Patched(c, h, Quantised(c, from), fields + rest) == Some((Quantised(c, to), rest))
            && Shows(c, Quantised(c, to), to)
  {
    hide HeaderBytes, ParseHeader, Values, InOrder, Sizes, Packed, Unpacked, Shows;
    QuantisedShows(c, to);
    var h := HeaderFor(from, to);
    var fields := Packed(InOrder(h.changes), Values(c, to));
    HeaderRoundTrip(h, to.solid, fields + rest);
    assert HeaderBytes(h, to.number, to.solid) + fields + rest == HeaderBytes(h, to.number, to.solid) + (fields + rest);
    SizesAreRight(c, to);
    UnflaggedAreEqual(c, from, to);
    UnpackedOfPacked(InOrder(h.changes), Sizes(c), Values(c, from), Values(c, to), rest);
  }

  lemma SilentMeansSame(c: Client, from: EntityState, to: EntityState)
    requires from.number == to.number && Silent(HeaderFor(from, to), to.solid)
    ensures Quantised(c, from) == Quantised(c, to)
  {
    var f := InOrder(Differences(from, to));
    assert forall i :: 0 <= i < 11 ==> !f[i];
    UnflaggedAreEqual(c, from, to);
    assert !f[0];
    assert Values(c, from) == Values(c, to);
  }

  /** With and without a record, the client's copy is that of the state it has been told of. */
  lemma {:induction false} DeltaDecodes(c: Client, from: EntityState, to: EntityState, fits: bool, force: bool,
                                        rest: seq<byte>)
    requires Proper(c) && 1 <= to.number < c.maxEdicts
    ensures var d := Delta(c, from, to, fits, force);
            if d.bytes == [] then
              d.told ==> !force && (from.number == to.number ==> Quantised(c, from) == Quantised(c, to))
            else
              var p := ParseHeader(d.bytes + rest);
              && d.told && p.Some? && p.value.Entry?
              && p.value.header.number == to.number && !p.value.header.remove
              && Patched(c, p.value.header, Quantised(c, from), p.value.rest) == Some((Quantised(c, to), rest))
  {
    hide Values, InOrder, Packed, Patched, ParseHeader, Quantised;
    var d := Delta(c, from, to, fits, force);
    if d.bytes != [] {
      RecordRoundTrip(c, from, to, rest);
    } else if d.told && from.number == to.number {
      SilentMeansSame(c, from, to);
    }
  }

  // ---------- The whole frame ----------

  ghost predicate Given(c: Client, prev: Frame, next: Frame) {
    && Proper(c) && Sorted(prev) && Sorted(next) && Numbered(prev) && Numbered(next)
    && (forall i :: 0 <= i < |next| ==> next[i].number < c.maxEdicts)
  }

  ghost predicate Above(n: nat, f: Frame) {
    forall i :: 0 <= i < |f| ==> n < f[i].number
  }

  /** The next header read names an entity above n, or ends the list. */
  predicate HeaderAbove(n: nat, bytes: seq<byte>) {
    var p := ParseHeader(bytes);
    p.Some? && (p.value.Entry? ==> n < p.value.header.number)
  }

  lemma {:induction false} GivenAfterPass(c: Client, base: Baselines, prev: Frame, next: Frame, fits: bool)
    requires Given(c, prev, next) && (prev != [] || next != [])
    ensures var p := OnePass(c, base, prev, next, fits);
            && Given(c, p.prev, p.next)
            && (forall n :: Above(n, prev) && Above(n, next) ==> Above(n, p.prev) && Above(n, p.next))
            && (prev != [] && next != [] && prev[0].number == next[0].number ==>
                  Above(prev[0].number, p.prev) && Above(prev[0].number, p.next))
  {
    hide Delta, Removal;
  }

  lemma {:induction false} PassHeader(c: Client, base: Baselines, prev: Frame, next: Frame, fits: bool,
                                      rest: seq<byte>, n: nat)
    requires Given(c, prev, next) && (prev != [] || next != [])
    requires Above(n, prev) && Above(n, next) && HeaderAbove(n, rest)
    ensures HeaderAbove(n, OnePass(c, base, prev, next, fits).bytes + rest)
  {
    hide Delta, Removal, ParseHeader, Patched, Quantised;
    var p := OnePass(c, base, prev, next, fits);
    if p.bytes == [] {
      assert p.bytes + rest == rest;
    } else if next == [] || (prev != [] && prev[0].number < next[0].number) {
      RemovalRoundTrip(prev[0].number, rest);
    } else {
      var same := prev != [] && prev[0].number == next[0].number;
      DeltaDecodes(c, if same then prev[0] else base(next[0].number), next[0], fits, !same, rest);
    }
  }

  /** Every header of an emission names an entity of one of the two frames: the zero word is not among them. */
  lemma {:induction false} FirstHeader(c: Client, base: Baselines, prev: Frame, next: Frame, room: int,
                                       tail: seq<byte>, n: nat)
    requires Given(c, prev, next) && Above(n, prev) && Above(n, next)
    ensures HeaderAbove(n, Emission(c, base, prev, next, room).records + (Le16(0) + tail))
    decreases |prev| + |next|
  {
    hide OnePass, ParseHeader, Given;
    GivenMeans(c, prev, next);
    var end := Le16(0) + tail;
    if prev == [] && next == [] {
      assert [] + end == end;
      EndParses(tail);
    } else {
      var p := OnePass(c, base, prev, next, room >= ROOM);
      var e := Emission(c, base, p.prev, p.next, room - |p.bytes|);
      GivenAfterPass(c, base, prev, next, room >= ROOM);
      FirstHeader(c, base, p.prev, p.next, room - |p.bytes|, tail, n);
      PassHeader(c, base, prev, next, room >= ROOM, e.records + end, n);
      assert p.bytes + e.records + end == p.bytes + (e.records + end);
    }
  }

  lemma GivenMeans(c: Client, prev: Frame, next: Frame)
    requires Given(c, prev, next)
    ensures 1 <= c.maxEdicts && Numbered(prev) && Numbered(next)
  {
  }

  lemma {:induction false} RemovalDecodes(c: Client, base: Baselines, prev: Frame, rest: seq<byte>)
    requires prev != [] && Numbered(prev)
    ensures Decode(c, base, QuantisedFrame(c, prev), Removal(prev[0].number) + rest)
            == Decode(c, base, QuantisedFrame(c, prev[1..]), rest)
  {
    hide Removal, ParseHeader, Patched, Values;
    var known := QuantisedFrame(c, prev);
    assert known[1..] == QuantisedFrame(c, prev[1..]);
    RemovalRoundTrip(prev[0].number, rest);
  }

  lemma {:induction false} KeptDecodes(c: Client, base: Baselines, prev: Frame, to: EntityState, fits: bool,
                                       rest: seq<byte>)
    requires Proper(c) && prev != [] && prev[0].number == to.number && 1 <= to.number < c.maxEdicts
    requires HeaderAbove(to.number, rest)
    ensures var d := Delta(c, prev[0], to, fits, false);
            Decode(c, base, QuantisedFrame(c, prev), d.bytes + rest)
            == Following(Quantised(c, if d.told then to else prev[0]),
                         Decode(c, base, QuantisedFrame(c, prev[1..]), rest))
  {
    hide Delta, ParseHeader, Patched, Values;
    var d := Delta(c, prev[0], to, fits, false);
    var known := QuantisedFrame(c, prev);
    assert known[1..] == QuantisedFrame(c, prev[1..]);
    DeltaDecodes(c, prev[0], to, fits, false, rest);
    assert d.bytes == [] ==> d.bytes + rest == rest;
  }

  lemma {:induction false} AddedDecodes(c: Client, base: Baselines, prev: Frame, to: EntityState, fits: bool,
                                        rest: seq<byte>)
    requires Proper(c) && (prev == [] || to.number < prev[0].number) && 1 <= to.number < c.maxEdicts
    ensures var d := Delta(c, base(to.number), to, fits, true);
            var r := Decode(c, base, QuantisedFrame(c, prev), rest);
            Decode(c, base, QuantisedFrame(c, prev), d.bytes + rest)
                == if d.told then Following(Quantised(c, to), r) else r
  {
    hide Delta, ParseHeader, Patched, Values;
    var d := Delta(c, base(to.number), to, fits, true);
    DeltaDecodes(c, base(to.number), to, fits, true, rest);
    assert d.bytes == [] ==> d.bytes + rest == rest;
  }

  lemma QuantisedOne(c: Client, s: EntityState)
    ensures QuantisedFrame(c, [s]) == [Quantised(c, s)]
  {
    hide Quantised;
    assert [s][1..] == [];
  }

  /** If what follows a pass decodes, so does the whole, with the pass's entity in front. */
  lemma {:induction false} PassDecodes(c: Client, base: Baselines, prev: Frame, next: Frame, fits: bool,
                                       rest: seq<byte>, told: Frame, tail: seq<byte>)
    requires Given(c, prev, next) && (prev != [] || next != [])
    requires prev != [] && next != [] && prev[0].number == next[0].number ==> HeaderAbove(prev[0].number, rest)
    requires Decode(c, base, QuantisedFrame(c, OnePass(c, base, prev, next, fits).prev), rest)
             == Some((QuantisedFrame(c, told), tail))
    ensures var p := OnePass(c, base, prev, next, fits);
            Decode(c, base, QuantisedFrame(c, prev), p.bytes + rest)
            == Some((QuantisedFrame(c, p.told) + QuantisedFrame(c, told), tail))
  {
    hide Delta, Removal, Decode, HeaderAbove, Quantised;
    var p := OnePass(c, base, prev, next, fits);
    assert [] + QuantisedFrame(c, told) == QuantisedFrame(c, told);
    if next == [] || (prev != [] && prev[0].number < next[0].number) {
      RemovalDecodes(c, base, prev, rest);
    } else {
      QuantisedOne(c, next[0]);
      if prev != [] && prev[0].number == next[0].number {
        QuantisedOne(c, prev[0]);
        KeptDecodes(c, base, prev, next[0], fits, rest);
      } else {
        AddedDecodes(c, base, prev, next[0], fits, rest);
      }
    }
  }

  lemma {:induction false} NothingDecodes(c: Client, base: Baselines, tail: seq<byte>)
    ensures Decode(c, base, QuantisedFrame(c, []), Le16(0) + tail) == Some((QuantisedFrame(c, []), tail))
  {
    EndParses(tail);
  }

  lemma {:induction false} QuantisedConcat(c: Client, f: Frame, g: Frame)
    ensures QuantisedFrame(c, f + g) == QuantisedFrame(c, f) + QuantisedFrame(c, g)
  {
  }

  /** Decoding against the quantised earlier frame gives exactly the frame the client has been told of. */
  lemma {:induction false} DecodesToTold(c: Client, base: Baselines, prev: Frame, next: Frame, room: int,
                                         tail: seq<byte>)
    requires Given(c, prev, next)
    ensures var e := Emission(c, base, prev, next, room);
            Decode(c, base, QuantisedFrame(c, prev), e.records + (Le16(0) + tail))
            == Some((QuantisedFrame(c, e.told), tail))
    decreases |prev| + |next|
  {
    hide OnePass, ParseHeader, Given, Decode, QuantisedFrame, Le16;
    GivenMeans(c, prev, next);
    var end := Le16(0) + tail;
    if prev == [] && next == [] {
      assert [] + end == end;
      NothingDecodes(c, base, tail);
    } else {
      var fits := room >= ROOM;
      var p := OnePass(c, base, prev, next, fits);
      var e := Emission(c, base, p.prev, p.next, room - |p.bytes|);
      GivenAfterPass(c, base, prev, next, fits);
      DecodesToTold(c, base, p.prev, p.next, room - |p.bytes|, tail);
      if prev != [] && next != [] && prev[0].number == next[0].number {
        FirstHeader(c, base, p.prev, p.next, room - |p.bytes|, tail, prev[0].number);
      }
      PassDecodes(c, base, prev, next, fits, e.records + end, e.told, tail);
      assert p.bytes + e.records + end == p.bytes + (e.records + end);
      QuantisedConcat(c, p.told, e.told);
    }
  }
}
