/** The frame buffer of a multi-view demo: messages with headers, the last one's length
    patched in place when another write with the same address joins it. */
module MvdFrames {
  import opened Bytes
  import opened Options
  import opened SizeBuffer

  const MAX_MVD_SIZE := 8092
  const FRAME_SIZE := (MAX_MVD_SIZE + 10) * 4

  const DEM_MULTIPLE := 3
  const DEM_SINGLE := 4
  const DEM_STATS := 5
  const DEM_ALL := 6

  predicate IsMvdType(kind: byte) {
    kind in {DEM_ALL, DEM_MULTIPLE, DEM_SINGLE, DEM_STATS}
  }

  /** The addresses a header can carry: none for all clients, a mask, or a client number below 32. */
  predicate IsAddress(kind: byte, to: uint32) {
    IsMvdType(kind) && (kind == DEM_SINGLE || kind == DEM_STATS ==> to < 32)
  }

  // ---------- The format ----------

  datatype Message = Message(msec: byte, kind: byte, to: uint32, payload: seq<byte>)

  /** A message as the writer makes it; one to all clients carries no address. */
  predicate IsMessage(m: Message) {
    IsAddress(m.kind, m.to) && (m.kind == DEM_ALL ==> m.to == 0) && |m.payload| <= MAX_MVD_SIZE
  }

  function AddressBytes(kind: byte, to: uint32): seq<byte>
    requires IsAddress(kind, to)
  {
    if kind == DEM_ALL then [DEM_ALL]
    else if kind == DEM_MULTIPLE then [DEM_MULTIPLE] + Le32(to)
    else [kind + 8 * to]
  }

  function Encode(m: Message): seq<byte>
    requires IsMessage(m)
  {
    [m.msec] + AddressBytes(m.kind, m.to) + Le32(|m.payload|) + m.payload
  }

  /** A message byte by byte: the time, the kind in the lower three bits of the next byte with the client, if there is
      one, above it, the mask of clients, if there is one, and the length of what follows. */
  lemma MessageLayout(m: Message)
    requires IsMessage(m)
    ensures var b, at := Encode(m), if m.kind == DEM_MULTIPLE then 6 else 2;
            && |b| == at + 4 + |m.payload|
            && b[0] == m.msec && b[1] % 8 == m.kind
            && (m.kind in {DEM_SINGLE, DEM_STATS} ==> b[1] / 8 == m.to)
            && (m.kind == DEM_MULTIPLE ==> LittleEndian(b[2..6]) == m.to)
            && LittleEndian(b[at..at + 4]) == |m.payload| && b[at + 4..] == m.payload
  {
    hide Le32, LittleEndian;
    Le32Length(m.to);
    Le32Length(|m.payload|);
    Le32IsLittleEndian(m.to);
    Le32IsLittleEndian(|m.payload|);
    var b, at := Encode(m), if m.kind == DEM_MULTIPLE then 6 else 2;
    assert b[at..at + 4] == Le32(|m.payload|);
    if m.kind == DEM_MULTIPLE {
      assert b[2..6] == Le32(m.to);
    }
  }

  predicate AreMessages(ms: seq<Message>) {
    forall i | 0 <= i < |ms| :: IsMessage(ms[i])
  }

  function EncodeAll(ms: seq<Message>): seq<byte>
    requires AreMessages(ms)
  {
    if ms == [] then [] else EncodeAll(ms[..|ms| - 1]) + Encode(ms[|ms| - 1])
  }

  /** A reader of the format: the first message and what follows it. */
  function ParseOne(b: seq<byte>): Option<(Message, seq<byte>)> {
    if |b| < 2 then None
    else
      var kind := b[1] % 8;
      if kind == DEM_ALL then ParseBody(b[0], kind, 0, b[2..])
      else if kind == DEM_MULTIPLE then
        if |b| < 6 then None else ParseBody(b[0], kind, Long(b[2], b[3], b[4], b[5]), b[6..])
      else if kind == DEM_SINGLE || kind == DEM_STATS then ParseBody(b[0], kind, b[1] / 8, b[2..])
      else None
  }

  function ParseBody(msec: byte, kind: byte, to: uint32, b: seq<byte>): Option<(Message, seq<byte>)> {
    if |b| < 4 then None
    else
      var size := Long(b[0], b[1], b[2], b[3]);
      if |b| < 4 + size then None
      else Some((Message(msec, kind, to, b[4..4 + size]), b[4 + size..]))
  }

  lemma ParseOneShortens(b: seq<byte>)
    ensures ParseOne(b).Some? ==> |ParseOne(b).value.1| < |b|
  {
  }

  function ParseAll(b: seq<byte>): Option<seq<Message>>
    decreases |b|
  {
    if b == [] then Some([])
    else
      ParseOneShortens(b);
      match ParseOne(b)
      case None => None
      case Some((m, rest)) =>
        match ParseAll(rest)
        case None => None
        case Some(ms) => Some([m] + ms)
  }

  lemma ParseBodyOfEncoded(msec: byte, kind: byte, to: uint32, payload: seq<byte>, rest: seq<byte>)
    requires |payload| <= MAX_MVD_SIZE
    ensures ParseBody(msec, kind, to, Le32(|payload|) + payload + rest)
            == Some((Message(msec, kind, to, payload), rest))
  {
    LongOfLe32(|payload|);
    hide Le32, Long;
    var b := Le32(|payload|) + payload + rest;
    assert |Le32(|payload|)| == 4 by { Le32Length(|payload|); }
    var l := Le32(|payload|);
    assert b[0] == l[0] && b[1] == l[1] && b[2] == l[2] && b[3] == l[3];
    assert b[4..4 + |payload|] == payload && b[4 + |payload|..] == rest;
  }

  /** Messages to all, and those to a client, whose number shares a byte with the kind. */
  lemma ParseOneOfByte(msec: byte, kind: byte, to: uint32, body: seq<byte>)
    requires (kind == DEM_ALL && to == 0) || (kind in {DEM_SINGLE, DEM_STATS} && to < 32)
    ensures ParseOne([msec, kind + 8 * to] + body) == ParseBody(msec, kind, to, body)
  {
    hide ParseBody, Long;
    var b := [msec, kind + 8 * to] + body;
    assert b[2..] == body;
    assert b[1] % 8 == kind && b[1] / 8 == to;
  }

  lemma ParseOneOfMask(msec: byte, to: uint32, body: seq<byte>)
    ensures ParseOne([msec, DEM_MULTIPLE] + Le32(to) + body) == ParseBody(msec, DEM_MULTIPLE, to, body)
  {
    LongOfLe32(to);
    Le32Length(to);
    hide ParseBody, Le32, Long;
    var l := Le32(to);
    var b := [msec, DEM_MULTIPLE] + l + body;
    assert b[2] == l[0] && b[3] == l[1] && b[4] == l[2] && b[5] == l[3] && b[6..] == body;
    assert b[0] == msec && b[1] == DEM_MULTIPLE;
  }

  lemma ParseOneOfKind(msec: byte, kind: byte, to: uint32, body: seq<byte>)
    requires IsAddress(kind, to) && (kind == DEM_ALL ==> to == 0)
    ensures ParseOne([msec] + AddressBytes(kind, to) + body) == ParseBody(msec, kind, to, body)
  {
    hide ParseOne, ParseBody, Le32;
    if kind == DEM_MULTIPLE {
      assert [msec] + ([DEM_MULTIPLE] + Le32(to)) == [msec, DEM_MULTIPLE] + Le32(to);
      ParseOneOfMask(msec, to, body);
    } else {
      assert [msec] + AddressBytes(kind, to) == [msec, kind + 8 * to];
      ParseOneOfByte(msec, kind, to, body);
    }
  }

  lemma ParseOneOfEncoded(m: Message, rest: seq<byte>)
    requires IsMessage(m)
    ensures ParseOne(Encode(m) + rest) == Some((m, rest))
  {
    var size := Le32(|m.payload|);
    ParseBodyOfEncoded(m.msec, m.kind, m.to, m.payload, rest);
    ParseOneOfKind(m.msec, m.kind, m.to, size + m.payload + rest);
    hide ParseBody, ParseOne, Le32, AddressBytes;
    var head := [m.msec] + AddressBytes(m.kind, m.to);
    assert head + size + m.payload + rest == head + (size + m.payload + rest);
  }

  lemma {:induction false} EncodeAllFromFront(ms: seq<Message>)
    requires AreMessages(ms) && ms != []
    ensures EncodeAll(ms) == Encode(ms[0]) + EncodeAll(ms[1..])
    decreases |ms|
  {
    hide Encode;
    if |ms| > 1 {
      EncodeAllFromFront(ms[..|ms| - 1]);
      assert ms[..|ms| - 1][1..] == ms[1..][..|ms| - 2];
    } else {
      assert ms[..0] == [] == ms[1..];
    }
  }

  /** What the writer's format encodes, the reader recovers; so a buffer has at most one reading. */
  lemma {:induction false} ParseAllOfEncoded(ms: seq<Message>)
    requires AreMessages(ms)
    ensures ParseAll(EncodeAll(ms)) == Some(ms)
    decreases |ms|
  {
    hide Encode, ParseOne, EncodeAll, IsMessage;
    if ms == [] {
      NothingEncoded();
    } else {
      ParseOneOfEncoded(ms[0], EncodeAll(ms[1..]));
      ParseAllOfEncoded(ms[1..]);
      EncodeAllFromFront(ms);
      SomethingEncoded(ms[0]);
      assert [ms[0]] + ms[1..] == ms;
    }
  }

  lemma NothingEncoded()
    ensures EncodeAll([]) == [] && Flatten([]) == []
  {
  }

  lemma SomethingEncoded(m: Message)
    requires IsMessage(m)
    ensures Encode(m) != []
  {
  }

  // ---------- What the messages carry ----------

  /** One byte for an address. */
  datatype Item = Item(kind: byte, to: uint32, data: byte)

  function Items(kind: byte, to: uint32, payload: seq<byte>): seq<Item> {
    seq(|payload|, i requires 0 <= i < |payload| => Item(kind, if kind == DEM_ALL then 0 else to, payload[i]))
  }

  function Flatten(ms: seq<Message>): seq<Item> {
    if ms == [] then []
    else
      var m := ms[|ms| - 1];
      Flatten(ms[..|ms| - 1]) + Items(m.kind, m.to, m.payload)
  }

  // ---------- The writer ----------

  /** The value of a demo frame's buffer and of the fields about its last message. */
  datatype Frame = Frame(buf: Buf, lastTo: uint32, lastType: byte, lastSize: nat, lastSizeOffset: nat)

  const EMPTY_FRAME := Frame(Buf([], FRAME_SIZE, true, false), 0, 0, 0, 0)

  /** An append to a frame buffer; pieces this small never end in Sys_Error. */
  function Put(b: Buf, bytes: seq<byte>): (r: Buf)
    requires b.maxsize == FRAME_SIZE && b.allowOverflow && |bytes| <= FRAME_SIZE
    ensures r.maxsize == FRAME_SIZE && r.allowOverflow && |r.contents| <= FRAME_SIZE
    ensures b.overflowed ==> r.overflowed
    ensures !r.overflowed ==> r.contents == b.contents + bytes
  {
    Written(b, bytes).value
  }

  predicate StartsMessage(f: Frame, kind: byte, to: uint32, size: nat) {
    f.lastType != kind || f.lastTo != to || f.lastSize + size > MAX_MVD_SIZE
  }

  predicate IsFrame(f: Frame) {
    f.buf.maxsize == FRAME_SIZE && f.buf.allowOverflow && |f.buf.contents| <= FRAME_SIZE
  }

  /** Where the last length is recorded, there are four bytes to patch. */
  predicate CanBegin(f: Frame) {
    IsFrame(f) && (f.lastType != 0 && !f.buf.overflowed ==> f.lastSizeOffset + 4 <= |f.buf.contents|)
  }

  /** The header, written a piece at a time. */
  function PutHeader(b: Buf, kind: byte, to: uint32, size: nat): (r: Buf)
    requires b.maxsize == FRAME_SIZE && b.allowOverflow && IsAddress(kind, to) && size <= MAX_MVD_SIZE
    ensures r.maxsize == FRAME_SIZE && r.allowOverflow && |r.contents| <= FRAME_SIZE
    ensures b.overflowed ==> r.overflowed
    ensures !r.overflowed ==> r.contents == b.contents + ([0] + AddressBytes(kind, to) + Le32(size))
  {
    var b1 := Put(b, [0]);
    var b2 := if kind == DEM_MULTIPLE then Put(Put(b1, [DEM_MULTIPLE]), Le32(to)) else Put(b1, AddressBytes(kind, to));
    Put(b2, Le32(size))
  }

  /** The four bytes at an offset replaced. */
  function Patch(s: seq<byte>, at: nat, bytes: seq<byte>): seq<byte>
    requires at + |bytes| <= |s|
  {
    s[..at] + bytes + s[at + |bytes|..]
  }

  /** MVDWrite_BeginEx while recording: whether the write may go on, and the frame. */
  function Begun(f: Frame, kind: byte, to: uint32, size: nat): (bool, Frame)
    requires CanBegin(f) && (IsMvdType(kind) ==> IsAddress(kind, to))
  {
    if f.buf.overflowed || size > MAX_MVD_SIZE || !IsMvdType(kind) then (false, f)
    else if StartsMessage(f, kind, to, size) then
      var buf := PutHeader(f.buf, kind, to, size);
      var g := f.(buf := buf, lastType := kind, lastTo := to, lastSize := size);
      if buf.overflowed then (false, g) else (true, g.(lastSizeOffset := |buf.contents| - 4))
    else
      var total := f.lastSize + size;
      (true, f.(lastSize := total,
                buf := f.buf.(contents := Patch(f.buf.contents, f.lastSizeOffset, Le32(total)))))
  }

  /** A frame whose buffer is a list of messages, with the fields about the last of them right. */
  ghost predicate Holds(f: Frame, ms: seq<Message>) {
    && IsFrame(f) && !f.buf.overflowed && AreMessages(ms)
    && (forall i | 0 <= i < |ms| :: ms[i].msec == 0)
    && f.buf.contents == EncodeAll(ms)
    && (ms == [] ==> f.lastType == 0 && f.lastSize == 0)
    && (ms != [] ==>
          var m := ms[|ms| - 1];
          && m.kind == f.lastType && m.to == (if m.kind == DEM_ALL then 0 else f.lastTo)
          && |m.payload| == f.lastSize
          && f.lastSizeOffset + 4 + |m.payload| == |f.buf.contents|)
  }

  /** A write: MVDWrite_Begin and then exactly size bytes. */
  datatype Write = Write(kind: byte, to: uint32, payload: seq<byte>)

  predicate IsWrite(w: Write) {
    IsAddress(w.kind, w.to) && |w.payload| <= MAX_MVD_SIZE
  }

  function Appended(f: Frame, w: Write): Frame
    requires CanBegin(f) && IsWrite(w)
  {
    var (ok, g) := Begun(f, w.kind, w.to, |w.payload|);
    if ok then g.(buf := Put(g.buf, w.payload)) else g
  }

  /** The messages after a write: the last one longer, or one more. */
  function Joined(f: Frame, ms: seq<Message>, w: Write): seq<Message> {
    if StartsMessage(f, w.kind, w.to, |w.payload|) || ms == [] then
      ms + [Message(0, w.kind, if w.kind == DEM_ALL then 0 else w.to, w.payload)]
    else
      var m := ms[|ms| - 1];
      ms[..|ms| - 1] + [m.(payload := m.payload + w.payload)]
  }

  lemma ItemsOfBoth(kind: byte, to: uint32, first: seq<byte>, second: seq<byte>)
    ensures Items(kind, to, first + second) == Items(kind, to, first) + Items(kind, to, second)
    ensures Items(kind, if kind == DEM_ALL then 0 else to, second) == Items(kind, to, second)
  {
  }

  lemma {:induction false} FlattenOfOneMore(ms: seq<Message>, m: Message)
    ensures Flatten(ms + [m]) == Flatten(ms) + Items(m.kind, m.to, m.payload)
  {
    hide Items;
    assert (ms + [m])[..|ms|] == ms;
  }

  lemma JoinedAreMessages(f: Frame, ms: seq<Message>, w: Write)
    requires Holds(f, ms) && IsWrite(w)
    ensures AreMessages(Joined(f, ms, w)) && forall i | 0 <= i < |Joined(f, ms, w)| :: Joined(f, ms, w)[i].msec == 0
  {
    hide EncodeAll;
  }

  lemma JoinedCarriesTheWrite(f: Frame, ms: seq<Message>, w: Write)
    requires Holds(f, ms) && IsWrite(w)
    ensures Flatten(Joined(f, ms, w)) == Flatten(ms) + Items(w.kind, w.to, w.payload)
  {
    hide EncodeAll, Flatten, Items;
    if StartsMessage(f, w.kind, w.to, |w.payload|) || ms == [] {
      FlattenOfOneMore(ms, Message(0, w.kind, if w.kind == DEM_ALL then 0 else w.to, w.payload));
      ItemsOfBoth(w.kind, w.to, [], w.payload);
    } else {
      var m, init := ms[|ms| - 1], ms[..|ms| - 1];
      assert init + [m] == ms;
      FlattenOfOneMore(init, m);
      FlattenOfOneMore(init, m.(payload := m.payload + w.payload));
      ItemsOfBoth(m.kind, m.to, m.payload, w.payload);
      ItemsOfBoth(w.kind, w.to, [], w.payload);
    }
  }

  lemma {:induction false} EncodeAllOneMore(ms: seq<Message>, m: Message)
    requires AreMessages(ms) && IsMessage(m)
    ensures AreMessages(ms + [m]) && EncodeAll(ms + [m]) == EncodeAll(ms) + Encode(m)
  {
    hide Encode, IsMessage;
    assert (ms + [m])[..|ms|] == ms;
  }

  /** What a write that starts a message leaves. */
  lemma StartedFrame(f: Frame, w: Write)
    requires CanBegin(f) && IsWrite(w) && StartsMessage(f, w.kind, w.to, |w.payload|)
    requires !Appended(f, w).buf.overflowed
    ensures var g := Appended(f, w);
            var header := [0] + AddressBytes(w.kind, w.to) + Le32(|w.payload|);
            && IsFrame(g) && g.lastType == w.kind && g.lastTo == w.to && g.lastSize == |w.payload|
            && g.buf.contents == f.buf.contents + header + w.payload
            && g.lastSizeOffset + 4 + |w.payload| == |g.buf.contents|
  {
    hide Le32, AddressBytes, Written;
    Le32Length(|w.payload|);
  }

  lemma NewMessageHolds(f: Frame, ms: seq<Message>, w: Write)
    requires Holds(f, ms) && IsWrite(w) && StartsMessage(f, w.kind, w.to, |w.payload|)
    requires CanBegin(f) && !Appended(f, w).buf.overflowed
    ensures Holds(Appended(f, w), Joined(f, ms, w))
  {
    hide Le32, Appended, AddressBytes, EncodeAll;
    var m := Message(0, w.kind, if w.kind == DEM_ALL then 0 else w.to, w.payload);
    StartedFrame(f, w);
    EncodeAllOneMore(ms, m);
    SameAddress(w.kind, w.to);
    JoinedAreMessages(f, ms, w);
    var header := [0] + AddressBytes(w.kind, w.to) + Le32(|w.payload|);
    assert f.buf.contents + header + w.payload == f.buf.contents + (header + w.payload);
  }

  lemma SameAddress(kind: byte, to: uint32)
    requires IsAddress(kind, to)
    ensures AddressBytes(kind, if kind == DEM_ALL then 0 else to) == AddressBytes(kind, to)
  {
  }

  lemma PatchBetween(head: seq<byte>, was: seq<byte>, tail: seq<byte>, bytes: seq<byte>)
    requires |was| == |bytes|
    ensures Patch(head + (was + tail), |head|, bytes) == head + (bytes + tail)
  {
    var b := head + (was + tail);
    assert b[..|head|] == head && b[|head| + |bytes|..] == tail;
  }

  lemma Regroup(before: seq<byte>, head: seq<byte>, size: seq<byte>, tail: seq<byte>)
    ensures before + (head + size + tail) == (before + head) + (size + tail)
  {
  }

  lemma Extend(a: seq<byte>, b: seq<byte>, c: seq<byte>, d: seq<byte>)
    ensures a + (b + c) + d == a + (b + (c + d))
  {
  }

  lemma LongerMessage(before: seq<byte>, m: Message, more: seq<byte>)
    requires IsMessage(m) && |m.payload| + |more| <= MAX_MVD_SIZE
    ensures var at := |before| + 1 + |AddressBytes(m.kind, m.to)|;
            && at + 4 + |m.payload| == |before + Encode(m)|
            && |Le32(|m.payload| + |more|)| == 4
            && Patch(before + Encode(m), at, Le32(|m.payload| + |more|)) + more
               == before + Encode(m.(payload := m.payload + more))
  {
    var size, newSize := Le32(|m.payload|), Le32(|m.payload| + |more|);
    Le32Length(|m.payload|);
    Le32Length(|m.payload| + |more|);
    hide Le32, Patch, AddressBytes;
    var head := [m.msec] + AddressBytes(m.kind, m.to);
    Regroup(before, head, size, m.payload);
    PatchBetween(before + head, size, m.payload, newSize);
    Extend(before + head, newSize, m.payload, more);
    Regroup(before, head, newSize, m.payload + more);
    assert |before + head| == |before| + 1 + |AddressBytes(m.kind, m.to)|;
  }

  lemma LongerMessageHolds(f: Frame, ms: seq<Message>, w: Write)
    requires Holds(f, ms) && IsWrite(w) && !StartsMessage(f, w.kind, w.to, |w.payload|)
    requires CanBegin(f) && !Appended(f, w).buf.overflowed
    ensures Holds(Appended(f, w), Joined(f, ms, w))
  {
    hide Encode, Le32, AddressBytes, Put, PutHeader;
    var m, init := ms[|ms| - 1], ms[..|ms| - 1];
    var js := Joined(f, ms, w);
    LongerMessage(EncodeAll(init), m, w.payload);
    assert js[..|js| - 1] == init && js[|js| - 1] == m.(payload := m.payload + w.payload);
    assert f.lastSizeOffset == |EncodeAll(init)| + 1 + |AddressBytes(m.kind, m.to)|;
  }

  /** A write can join the last message: to the same address, and not too long together. */
  predicate CanJoin(ms: seq<Message>, w: Write) {
    ms != [] &&
    var m := ms[|ms| - 1];
    m.kind == w.kind && m.to == w.to && |m.payload| + |w.payload| <= MAX_MVD_SIZE
  }

  /** The messages with one more write: it joins the last if it can. */
  function Grouped(ms: seq<Message>, w: Write): seq<Message> {
    if CanJoin(ms, w) then
      ms[|ms| - 1 := ms[|ms| - 1].(payload := ms[|ms| - 1].payload + w.payload)]
    else ms + [Message(0, w.kind, w.to, w.payload)]
  }

  function GroupedAll(ms: seq<Message>, ws: seq<Write>): seq<Message>
    decreases |ws|
  {
    if ws == [] then ms else GroupedAll(Grouped(ms, ws[0]), ws[1..])
  }

  /** A write to all clients gives no address. */
  predicate IsPlain(w: Write) {
    w.kind == DEM_ALL ==> w.to == 0
  }

  predicate PlainFrame(f: Frame) {
    f.lastType == DEM_ALL ==> f.lastTo == 0
  }

  /** What the frame remembers of its last message is enough to tell whether a write can join it. */
  lemma JoinsExactlyWhen(f: Frame, ms: seq<Message>, w: Write)
    requires Holds(f, ms) && IsWrite(w) && IsPlain(w) && PlainFrame(f)
    ensures StartsMessage(f, w.kind, w.to, |w.payload|) <==> !CanJoin(ms, w)
    ensures Joined(f, ms, w) == Grouped(ms, w)
    ensures PlainFrame(Appended(f, w))
  {
    hide EncodeAll, PutHeader, Put;
  }

  /** Messages that follow each other could not have been one. */
  predicate Tight(ms: seq<Message>) {
    forall i | 0 <= i < |ms| - 1 :: ms[i].kind == ms[i + 1].kind && ms[i].to == ms[i + 1].to ==>
      |ms[i].payload| + |ms[i + 1].payload| > MAX_MVD_SIZE
  }

  lemma {:induction false} GroupedIsTight(ms: seq<Message>, ws: seq<Write>)
    requires Tight(ms)
    ensures Tight(GroupedAll(ms, ws))
    decreases |ws|
  {
    if ws != [] {
      GroupedIsTight(Grouped(ms, ws[0]), ws[1..]);
    }
  }

  /** A write that does not overflow keeps the buffer a list of messages, and adds exactly its bytes. */
  lemma WriteKeepsMessages(f: Frame, ms: seq<Message>, w: Write)
    requires Holds(f, ms) && IsWrite(w)
    ensures CanBegin(f)
    ensures !Appended(f, w).buf.overflowed ==>
              Holds(Appended(f, w), Joined(f, ms, w)) &&
              Flatten(Joined(f, ms, w)) == Flatten(ms) + Items(w.kind, w.to, w.payload)
  {
    hide EncodeAll, Flatten, Items;
    if !Appended(f, w).buf.overflowed {
      JoinedAreMessages(f, ms, w);
      JoinedCarriesTheWrite(f, ms, w);
      if StartsMessage(f, w.kind, w.to, |w.payload|) {
        NewMessageHolds(f, ms, w);
      } else {
        LongerMessageHolds(f, ms, w);
      }
    }
  }

  // ---------- Whole frames ----------

  lemma AppendedCanBegin(f: Frame, w: Write)
    requires CanBegin(f) && IsWrite(w)
    ensures CanBegin(Appended(f, w))
    ensures f.buf.overflowed ==> Appended(f, w).buf.overflowed
  {
    hide Le32, AddressBytes, PutHeader, Put;
    Le32Length(|w.payload|);
    if !StartsMessage(f, w.kind, w.to, |w.payload|) {
      Le32Length(f.lastSize + |w.payload|);
    }
  }

  function AppendAll(f: Frame, ws: seq<Write>): Frame
    requires CanBegin(f) && forall i | 0 <= i < |ws| :: IsWrite(ws[i])
    decreases |ws|
  {
    if ws == [] then f
    else
      AppendedCanBegin(f, ws[0]);
      AppendAll(Appended(f, ws[0]), ws[1..])
  }

  function WrittenItems(ws: seq<Write>): seq<Item> {
    if ws == [] then [] else Items(ws[0].kind, ws[0].to, ws[0].payload) + WrittenItems(ws[1..])
  }

  lemma {:induction false} OverflowStays(f: Frame, ws: seq<Write>)
    requires CanBegin(f) && (forall i | 0 <= i < |ws| :: IsWrite(ws[i])) && f.buf.overflowed
    ensures AppendAll(f, ws).buf.overflowed
    decreases |ws|
  {
    if ws != [] {
      AppendedCanBegin(f, ws[0]);
      OverflowStays(Appended(f, ws[0]), ws[1..]);
    }
  }

  lemma {:induction false} WritesKeepMessages(f: Frame, ms: seq<Message>, ws: seq<Write>) returns (final: seq<Message>)
    requires Holds(f, ms) && forall i | 0 <= i < |ws| :: IsWrite(ws[i])
    ensures CanBegin(f)
    ensures !AppendAll(f, ws).buf.overflowed ==>
              Holds(AppendAll(f, ws), final) && Flatten(final) == Flatten(ms) + WrittenItems(ws)
    ensures !AppendAll(f, ws).buf.overflowed && PlainFrame(f) && (forall i | 0 <= i < |ws| :: IsPlain(ws[i])) ==>
              final == GroupedAll(ms, ws)
    decreases |ws|
  {
    hide EncodeAll, Flatten, Items, Appended, Joined, Grouped, StartsMessage;
    WriteKeepsMessages(f, ms, if ws == [] then Write(DEM_ALL, 0, []) else ws[0]);
    final := ms;
    if ws != [] {
      var g := Appended(f, ws[0]);
      AppendedCanBegin(f, ws[0]);
      if g.buf.overflowed {
        OverflowStays(g, ws[1..]);
      } else {
        final := WritesKeepMessages(g, Joined(f, ms, ws[0]), ws[1..]);
        if PlainFrame(f) && IsPlain(ws[0]) {
          JoinsExactlyWhen(f, ms, ws[0]);
        }
      }
    }
  }

  /** Setting the first byte of the buffer sets the time of its first message. */
  lemma StampFirst(ms: seq<Message>, msec: byte)
    requires AreMessages(ms) && ms != []
    ensures EncodeAll(ms) != []
    ensures AreMessages(ms[0 := ms[0].(msec := msec)])
    ensures EncodeAll(ms)[0 := msec] == EncodeAll(ms[0 := ms[0].(msec := msec)])
  {
    var stamped := ms[0 := ms[0].(msec := msec)];
    EncodeAllFromFront(ms);
    EncodeAllFromFront(stamped);
    assert stamped[1..] == ms[1..];
    StampOne(ms[0], msec, EncodeAll(ms[1..]));
    hide Encode, EncodeAll;
  }

  lemma StampOne(m: Message, msec: byte, rest: seq<byte>)
    requires IsMessage(m)
    ensures Encode(m) != []
    ensures (Encode(m) + rest)[0 := msec] == Encode(m.(msec := msec)) + rest
  {
    hide AddressBytes, Le32;
    var tail := AddressBytes(m.kind, m.to) + Le32(|m.payload|) + m.payload;
    assert Encode(m) == [m.msec] + tail && Encode(m.(msec := msec)) == [msec] + tail;
  }

  lemma {:induction false} FlattenIgnoresTime(ms: seq<Message>, msec: byte)
    requires ms != []
    ensures Flatten(ms[0 := ms[0].(msec := msec)]) == Flatten(ms)
    decreases |ms|
  {
    var stamped := ms[0 := ms[0].(msec := msec)];
    var n := |ms| - 1;
    if n > 0 {
      FlattenIgnoresTime(ms[..n], msec);
      assert stamped[..n] == ms[..n][0 := ms[0].(msec := msec)];
    } else {
      assert stamped[..n] == [] == ms[..n];
    }
  }

  /** A frame always parses: whatever is written to an empty frame, if it does not overflow, the buffer flushed
      with its time reads back as messages of legal size that carry exactly the bytes written, to the same
      addresses and in the same order, the first message having that time and the others none. */
  lemma FrameAlwaysParses(ws: seq<Write>, msec: byte)
    requires forall i | 0 <= i < |ws| :: IsWrite(ws[i])
    ensures var f := AppendAll(EMPTY_FRAME, ws);
            var flushed := if f.buf.contents == [] then [] else f.buf.contents[0 := msec];
            !f.buf.overflowed ==>
              && ParseAll(flushed).Some?
              && Flatten(ParseAll(flushed).value) == WrittenItems(ws)
              && AreMessages(ParseAll(flushed).value)
              && (ws != [] ==> ParseAll(flushed).value != [] && ParseAll(flushed).value[0].msec == msec)
              && (forall i | 1 <= i < |ParseAll(flushed).value| :: ParseAll(flushed).value[i].msec == 0)
  {
    hide Encode, EncodeAll, Flatten, Items, Appended, GroupedAll, Grouped, Tight;
    NothingEncoded();
    var ms := WritesKeepMessages(EMPTY_FRAME, [], ws);
    var f := AppendAll(EMPTY_FRAME, ws);
    if !f.buf.overflowed {
      if ms == [] {
        WritesMakeMessages(EMPTY_FRAME, ws);
      } else {
        StampFirst(ms, msec);
        FlattenIgnoresTime(ms, msec);
        ParseAllOfEncoded(ms[0 := ms[0].(msec := msec)]);
      }
    }
  }

  lemma {:induction false} GroupsAreThere(ms: seq<Message>, ws: seq<Write>)
    ensures ms != [] || ws != [] ==> GroupedAll(ms, ws) != []
    decreases |ws|
  {
    if ws != [] {
      GroupsAreThere(Grouped(ms, ws[0]), ws[1..]);
    }
  }

  /** And the messages are as few as they can be: a write joins the one before it whenever they have the same address
      and fit into one. */
  lemma FrameIsGrouped(ws: seq<Write>, msec: byte)
    requires ws != [] && forall i | 0 <= i < |ws| :: IsWrite(ws[i]) && IsPlain(ws[i])
    ensures GroupedAll([], ws) != [] && Tight(GroupedAll([], ws))
    ensures var f, ms := AppendAll(EMPTY_FRAME, ws), GroupedAll([], ws);
            !f.buf.overflowed ==>
              f.buf.contents != [] && ParseAll(f.buf.contents[0 := msec]) == Some(ms[0 := ms[0].(msec := msec)])
  {
    NothingEncoded();
    GroupsAreThere([], ws);
    GroupedIsTight([], ws);
    hide Encode, EncodeAll, Flatten, Items, Appended, AppendAll, GroupedAll, Tight, ParseAll;
    var ms := WritesKeepMessages(EMPTY_FRAME, [], ws);
    if !AppendAll(EMPTY_FRAME, ws).buf.overflowed {
      StampFirst(ms, msec);
      ParseAllOfEncoded(ms[0 := ms[0].(msec := msec)]);
    }
  }

  lemma {:induction false} WritesMakeMessages(f: Frame, ws: seq<Write>)
    requires CanBegin(f) && forall i | 0 <= i < |ws| :: IsWrite(ws[i])
    ensures AppendAll(f, ws).lastType == 0 && !AppendAll(f, ws).buf.overflowed ==> ws == []
    decreases |ws|
  {
    if ws != [] {
      AppendedCanBegin(f, ws[0]);
      WritesMakeMessages(Appended(f, ws[0]), ws[1..]);
      if Appended(f, ws[0]).buf.overflowed {
        OverflowStays(Appended(f, ws[0]), ws[1..]);
      }
    }
  }

  class DemoFrame {
    const buf: SizeBuf
    var lastTo: uint32
    var lastType: byte
    var lastSize: nat
    var lastSizeOffset: nat

    ghost predicate Valid()
      reads this, buf
    {
      buf.Valid() && buf.maxsize == buf.data.Length == FRAME_SIZE && buf.allowOverflow &&
      (lastType != 0 && !buf.overflowed ==> lastSizeOffset + 4 <= buf.cursize)
    }

    ghost function Value(): Frame
      requires Valid()
      reads this, buf, buf.data
    {
      Frame(buf.Value(), lastTo, lastType, lastSize, lastSizeOffset)
    }

    constructor ()
      ensures Valid() && fresh(buf) && fresh(buf.data) && Value() == EMPTY_FRAME
    {
      buf := new SizeBuf(FRAME_SIZE, FRAME_SIZE, true);
      lastTo, lastType, lastSize, lastSizeOffset := 0, 0, 0, 0;
    }

    /** The MVD_MSG_* writers. */
    method WriteBytes(bytes: seq<byte>)
      requires buf.Valid() && buf.maxsize == buf.data.Length == FRAME_SIZE && buf.allowOverflow && |bytes| <= FRAME_SIZE
      modifies buf, buf.data
      ensures buf.Valid() && buf.Value() == Put(old(buf.Value()), bytes)
    {
      var _ := buf.Write(bytes);
    }

    /** The new-message branch of MVDWrite_BeginEx. */
    method WriteHeader(kind: byte, to: uint32, size: nat)
      requires buf.Valid() && buf.maxsize == buf.data.Length == FRAME_SIZE && buf.allowOverflow
      requires IsAddress(kind, to) && size <= MAX_MVD_SIZE
      modifies buf, buf.data
      ensures buf.Valid() && buf.Value() == PutHeader(old(buf.Value()), kind, to, size)
    {
      hide Put, Le32;
      Le32Length(to);
      Le32Length(size);
      WriteBytes([0]);
      if kind == DEM_ALL {
        WriteBytes([DEM_ALL]);
      } else if kind == DEM_MULTIPLE {
        WriteBytes([DEM_MULTIPLE]);
        WriteBytes(Le32(to));
      } else {
        WriteBytes([kind + 8 * to]);
      }
      WriteBytes(Le32(size));
    }

    /** The other branch: the four bytes of the size replaced. */
    method PatchSize(at: nat, bytes: seq<byte>)
      requires buf.Valid() && at + 4 <= buf.cursize && |bytes| == 4
      modifies buf.data
      ensures buf.Value() == old(buf.Value()).(contents := Patch(old(buf.Value()).contents, at, bytes))
    {
      ghost var before := buf.data[..buf.cursize];
      buf.data[at], buf.data[at + 1], buf.data[at + 2], buf.data[at + 3] := bytes[0], bytes[1], bytes[2], bytes[3];
      assert buf.data[..buf.cursize] == Patch(before, at, bytes);
    }

    /** MVDWrite_BeginEx */
    method BeginEx(recording: bool, kind: byte, to: uint32, size: nat) returns (ok: bool)
      requires Valid() && (IsMvdType(kind) ==> IsAddress(kind, to))
      modifies this, buf, buf.data
      ensures Valid()
      ensures (ok, Value()) == if recording then Begun(old(Value()), kind, to, size) else (false, old(Value()))
    {
      hide PutHeader, AddressBytes, Patch, Le32;
      if !recording || buf.overflowed {
        return false;
      }
      if size > MAX_MVD_SIZE || !IsMvdType(kind) {
        return false;
      }
      if lastType != kind || lastTo != to || lastSize + size > MAX_MVD_SIZE {
        WriteHeader(kind, to, size);
        lastType, lastTo, lastSize := kind, to, size;
        Le32Length(size);
        if buf.overflowed {
          return false;
        }
        lastSizeOffset := buf.cursize - 4;
      } else {
        lastSize := lastSize + size;
        Le32Length(lastSize);
        PatchSize(lastSizeOffset, Le32(lastSize));
      }
      ok := true;
    }

    /** MVDWrite_BeginEx, then the bytes it was called for. */
    method WriteMessage(w: Write)
      requires Valid() && IsWrite(w)
      modifies this, buf, buf.data
      ensures Valid() && Value() == Appended(old(Value()), w)
    {
      hide PutHeader, AddressBytes, Le32;
      AppendedCanBegin(Value(), w);
      var ok := BeginEx(true, w.kind, w.to, |w.payload|);
      if ok {
        WriteBytes(w.payload);
      }
    }

    /** The part of SV_MVDWritePacketsEx that stamps, writes out and resets a frame. */
    method Flush(msec: byte) returns (ok: bool, written: seq<byte>)
      requires Valid()
      modifies this, buf, buf.data
      ensures Valid() && ok == !old(buf.overflowed)
      ensures ok ==> Value() == EMPTY_FRAME
      ensures ok ==> written == if old(buf.cursize) == 0 then [] else old(Value()).buf.contents[0 := msec]
    {
      written := [];
      if buf.overflowed {
        return false, [];
      }
      if buf.cursize != 0 {
        buf.data[0] := msec;
        written := buf.data[..buf.cursize];
      }
      buf.Clear();
      lastTo, lastType, lastSize, lastSizeOffset := 0, 0, 0, 0;
      ok := true;
    }
  }
}
