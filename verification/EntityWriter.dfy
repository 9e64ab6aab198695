/** The writer of packet entities, as it runs on a message buffer and on the frame that the server keeps. */
module EntityWriter {
  import opened Bytes
  import opened DeltaEntities
  import opened DeltaSync
  import opened Entities
  import opened EntityHeaders
  import opened EntityRecords
  import opened Options
  import opened SizeBuffer

  const SVC_PACKETENTITIES := 47
  const SVC_DELTAPACKETENTITIES := 48

  /** An append for which there is room. */
  method Put(msg: SizeBuf, flag: bool, bytes: seq<byte>)
    requires msg.Valid() && msg.cursize + |bytes| <= msg.maxsize
    modifies msg, msg.data
    ensures msg.Valid()
    ensures msg.Value() == old(msg.Value()).(contents := old(msg.Value()).contents + if flag then bytes else [])
    ensures msg.cursize == old(msg.cursize) + (if flag then |bytes| else 0) && msg.maxsize == old(msg.maxsize)
  {
    if flag {
      var _ := msg.Write(bytes);
    }
    assert msg.cursize == |msg.Value().contents|;
  }

  function Part(flags: seq<bool>, values: seq<seq<byte>>, k: nat): seq<byte>
    requires |flags| == |values| && k <= |flags|
  {
    Packed(flags[..k], values[..k])
  }

  lemma {:induction false} PackedSnoc(flags: seq<bool>, values: seq<seq<byte>>, k: nat)
    requires |flags| == |values| && k < |flags|
    ensures Part(flags, values, k + 1) == Part(flags, values, k) + if flags[k] then values[k] else []
  {
    if k > 0 {
      PackedSnoc(flags[1..], values[1..], k - 1);
      assert flags[..k + 1][1..] == flags[1..][..k] && values[..k + 1][1..] == values[1..][..k];
      assert flags[..k][1..] == flags[1..][..k - 1] && values[..k][1..] == values[1..][..k - 1];
    } else {
      assert flags[..1][1..] == [] && values[..1][1..] == [];
    }
  }

  /** The first k fields have been written. */
  ghost predicate Wrote(msg: SizeBuf, start: Buf, flags: seq<bool>, values: seq<seq<byte>>, k: nat)
    requires |flags| == |values| && k <= |flags|
    reads msg, msg.data
  {
    msg.Valid() && msg.Value() == start.(contents := start.contents + Part(flags, values, k))
  }

  /** Field k of a record. */
  method PutField(msg: SizeBuf, flags: seq<bool>, values: seq<seq<byte>>, k: nat, ghost start: Buf)
    requires |flags| == |values| && k < |flags|
    requires Wrote(msg, start, flags, values, k)
    requires msg.cursize + |values[k]| <= msg.maxsize
    modifies msg, msg.data
    ensures Wrote(msg, start, flags, values, k + 1)
    ensures msg.cursize <= old(msg.cursize) + |values[k]| && msg.maxsize == old(msg.maxsize)
  {
    hide Part;
    PackedSnoc(flags, values, k);
    Put(msg, flags[k], values[k]);
    var bytes := if flags[k] then values[k] else [];
    assert start.contents + (Part(flags, values, k) + bytes) == start.contents + Part(flags, values, k) + bytes;
    assert |msg.Value().contents| == msg.cursize;
  }

  /** The fields of a record, in order: model, frame, colormap, skin and effects, and then the
      coordinates and the angles in turn. */
  method PutFields(f: seq<bool>, v: seq<seq<byte>>, msg: SizeBuf)
    requires |f| == |v| == 11 && msg.Valid() && msg.cursize + 23 <= msg.maxsize
    requires |v[0]| == |v[1]| == |v[2]| == |v[3]| == |v[4]| == 1
    requires |v[5]| <= 4 && |v[6]| <= 2 && |v[7]| <= 4 && |v[8]| <= 2 && |v[9]| <= 4 && |v[10]| <= 2
    modifies msg, msg.data
    ensures msg.Valid()
    ensures msg.Value() == old(msg.Value()).(contents := old(msg.Value()).contents + Packed(f, v))
  {
    hide Packed, Wrote, Part;
    ghost var start := msg.Value();
    NothingWrote(msg, f, v);
    PutField(msg, f, v, 0, start);
    PutField(msg, f, v, 1, start);
    PutField(msg, f, v, 2, start);
    PutField(msg, f, v, 3, start);
    PutField(msg, f, v, 4, start);
    PutField(msg, f, v, 5, start);
    PutField(msg, f, v, 6, start);
    PutField(msg, f, v, 7, start);
    PutField(msg, f, v, 8, start);
    PutField(msg, f, v, 9, start);
    PutField(msg, f, v, 10, start);
    WroteAll(msg, start, f, v);
  }

  lemma NothingWrote(msg: SizeBuf, flags: seq<bool>, values: seq<seq<byte>>)
    requires msg.Valid() && |flags| == |values|
    ensures Wrote(msg, msg.Value(), flags, values, 0)
  {
    hide Packed;
    PartEnds(flags, values);
    assert msg.Value().contents + [] == msg.Value().contents;
  }

  lemma WroteAll(msg: SizeBuf, start: Buf, flags: seq<bool>, values: seq<seq<byte>>)
    requires |flags| == |values| && Wrote(msg, start, flags, values, |flags|)
    ensures msg.Valid() && msg.Value() == start.(contents := start.contents + Packed(flags, values))
  {
    hide Packed;
    PartEnds(flags, values);
  }

  lemma PartEnds(flags: seq<bool>, values: seq<seq<byte>>)
    requires |flags| == |values|
    ensures Part(flags, values, 0) == [] && Part(flags, values, |flags|) == Packed(flags, values)
  {
    assert flags[..|flags|] == flags && values[..|values|] == values;
  }

  lemma FieldSizes(c: Client, s: EntityState)
    requires Proper(c)
    ensures var v := Values(c, s);
            && |v[0]| == |v[1]| == |v[2]| == |v[3]| == |v[4]| == 1
            && |v[5]| <= 4 && |v[6]| <= 2 && |v[7]| <= 4 && |v[8]| <= 2 && |v[9]| <= 4 && |v[10]| <= 2
  {
  }

  /** The word and the flag bytes. */
  method PutHeader(h: Header, low: nat, solid: bool, msg: SizeBuf)
    requires msg.Valid() && msg.cursize + 4 <= msg.maxsize
    modifies msg, msg.data
    ensures msg.Valid()
    ensures msg.Value() == old(msg.Value()).(contents := old(msg.Value()).contents + HeaderBytes(h, low, solid))
  {
    hide Le16, HeaderWord, BitsByte, WordBits, MoreBits, EvenMoreBits;
    var more := MoreBits(h.changes, solid, NeedsEvenMore(h));
    var word := Le16(HeaderWord(low, WordBits(h.changes, false, true in more)));
    Le16Length(HeaderWord(low, WordBits(h.changes, false, true in more)));
    ghost var before := msg.Value().contents;
    Put(msg, true, word);
    assert msg.Value().contents == before + word;
    Put(msg, true in more, [BitsByte(more)]);
    Put(msg, NeedsEvenMore(h), [BitsByte(EvenMoreBits(h.modelDbl, h.number))]);
    assert msg.Value().contents == before + HeaderBytes(h, low, solid);
  }

  method WriteRecord(c: Client, h: Header, low: nat, to: EntityState, msg: SizeBuf)
    requires Proper(c) && msg.Valid() && msg.cursize + ROOM <= msg.maxsize
    modifies msg, msg.data
    ensures msg.Valid()
    ensures msg.Value() == old(msg.Value()).(contents := old(msg.Value()).contents
              + (HeaderBytes(h, low, to.solid) + Packed(InOrder(h.changes), Values(c, to))))
  {
    hide HeaderBytes, Packed, Values, InOrder;
    ghost var before := msg.Value().contents;
    PutHeader(h, low, to.solid, msg);
    FieldSizes(c, to);
    assert msg.cursize == |msg.Value().contents|;
    PutFields(InOrder(h.changes), Values(c, to), msg);
    assert before + HeaderBytes(h, low, to.solid) + Packed(InOrder(h.changes), Values(c, to))
        == before + (HeaderBytes(h, low, to.solid) + Packed(InOrder(h.changes), Values(c, to)));
  }

  /** SV_WriteDelta, for entity index of a frame. */
  method WriteDelta(c: Client, from: EntityState, frame: PacketEntities, index: nat, msg: SizeBuf, force: bool)
    requires Proper(c) && msg.Valid() && index < frame.entities.Length
    requires 1 <= frame.entities[index].number < MAX_EDICTS
    modifies frame.entities, msg, msg.data
    ensures msg.Valid()
    ensures var d := Delta(c, from, old(frame.entities[index]), old(msg.cursize) + ROOM <= old(msg.maxsize), force);
            && msg.Value() == old(msg.Value()).(contents := old(msg.Value()).contents + d.bytes)
            && frame.entities[..] == old(frame.entities[..])[index := d.sent]
            && (d.bytes != [] ==>
                  d.bytes == HeaderBytes(HeaderFor(from, old(frame.entities[index])), d.sent.number, d.sent.solid)
                             + Concat(FieldBytes(c, from, old(frame.entities[index]))))
  {
    hide HeaderBytes, Packed, Values, InOrder, Concat, FieldBytes;
    var to := frame.entities[index];
    var h := HeaderFor(from, to);
    ghost var before := msg.Value().contents;
    assert before + [] == before;
    if msg.cursize + ROOM > msg.maxsize {
      frame.entities[index] := from;
      return;
    }
    if to.number >= c.maxEdicts {
      frame.entities[index] := to.(number := c.maxEdicts - 1);
    }
    if Refused(c, h) {
      return;
    }
    if Silent(h, to.solid) && !force {
      return;
    }
    RecordLayout(c, from, to, force);
    WriteRecord(c, h, frame.entities[index].number, to, msg);
  }

  // ---------- The whole message ----------

  /** What an append that may overflow leads to, if it does not. */
  function Appended(b: Buf, bytes: seq<byte>): Option<Buf> {
    if !b.overflowed && |b.contents| + |bytes| <= b.maxsize then Some(b.(contents := b.contents + bytes)) else None
  }

  /** The append went as it should, or it was stopped or the buffer remembers that it overflowed. */
  ghost predicate Follows(b: Buf, ok: bool, expected: Option<Buf>) {
    if expected.Some? then ok && b == expected.value else !ok || b.overflowed
  }

  method Append(msg: SizeBuf, bytes: seq<byte>) returns (ok: bool)
    requires msg.Valid()
    modifies msg, msg.data
    ensures msg.Valid() && msg.maxsize == old(msg.maxsize)
    ensures Follows(msg.Value(), ok, Appended(old(msg.Value()), bytes))
    ensures old(msg.overflowed) ==> msg.overflowed
  {
    ok := msg.Write(bytes);
  }

  method AppendRemoval(number: nat, msg: SizeBuf) returns (ok: bool)
    requires number < MAX_EDICTS && msg.Valid()
    modifies msg, msg.data
    ensures msg.Valid() && msg.maxsize == old(msg.maxsize)
    ensures Follows(msg.Value(), ok, Appended(old(msg.Value()), Removal(number)))
    ensures old(msg.overflowed) ==> msg.overflowed
  {
    hide Le16;
    ghost var before := msg.Value().contents;
    Le16Length(number + 0x4000);
    if number >= 512 {
      Le16Length(number + 0xc000);
      ok := Append(msg, Le16(number + 0xc000));
      if !ok { return; }
      ok := Append(msg, [0x80]);
      if !ok { return; }
      var e := (if number / 512 % 2 == 1 then 0x20 else 0) + (if number >= 1024 then 0x40 else 0);
      ok := Append(msg, [e]);
      assert before + Le16(number + 0xc000) + [0x80] + [e] == before + (Le16(number + 0xc000) + [0x80] + [e]);
    } else {
      ok := Append(msg, Le16(number + 0x4000));
    }
  }

  /** The header byte, and the number of the frame that the delta is from. */
  function Opening(deltaSequence: int): (r: seq<byte>)
    ensures deltaSequence == -1 ==> r == [47]
    ensures deltaSequence != -1 ==> |r| == 2 && r[0] == 48 && IsByteOf(r[1..], deltaSequence)
  {
    if deltaSequence != -1 then [SVC_DELTAPACKETENTITIES, Low(deltaSequence)] else [SVC_PACKETENTITIES]
  }

  method AppendOpening(deltaSequence: int, msg: SizeBuf) returns (ok: bool)
    requires msg.Valid()
    modifies msg, msg.data
    ensures msg.Valid() && msg.maxsize == old(msg.maxsize)
    ensures Follows(msg.Value(), ok, Appended(old(msg.Value()), Opening(deltaSequence)))
  {
    ghost var before := msg.Value().contents;
    if deltaSequence != -1 {
      ok := Append(msg, [SVC_DELTAPACKETENTITIES]);
      if !ok { return; }
      ok := Append(msg, [Low(deltaSequence)]);
      assert before + [SVC_DELTAPACKETENTITIES] + [Low(deltaSequence)] == before + Opening(deltaSequence);
    } else {
      ok := Append(msg, [SVC_PACKETENTITIES]);
    }
  }

  /** How far the merge has come: what remains to be emitted completes what has been. */
  ghost predicate OnCourse(c: Client, base: Baselines, whole: Emitted, start: Buf, now: Buf, prev: Frame, done: Frame,
                           next: Frame)
  {
    && 1 <= c.maxEdicts && Numbered(prev) && Numbered(next)
    && var rest := Emission(c, base, prev, next, start.maxsize - |now.contents|);
       && now == start.(contents := now.contents)
       && start.contents + whole.records == now.contents + rest.records
       && whole.sent == done + rest.sent
  }

  lemma PassStaysOnCourse(c: Client, base: Baselines, whole: Emitted, start: Buf, now: Buf, prev: Frame, done: Frame,
                          next: Frame)
    requires prev != [] || next != []
    requires OnCourse(c, base, whole, start, now, prev, done, next)
    ensures var p := OnePass(c, base, prev, next, start.maxsize - |now.contents| >= ROOM);
            && OnCourse(c, base, whole, start, now.(contents := now.contents + p.bytes), p.prev, done + p.sent, p.next)
            && |now.contents + p.bytes| <= |start.contents + whole.records|
  {
    hide OnePass;
    var room := start.maxsize - |now.contents|;
    var p := OnePass(c, base, prev, next, room >= ROOM);
    var e := Emission(c, base, p.prev, p.next, room - |p.bytes|);
    assert |now.contents + p.bytes| == |now.contents| + |p.bytes|;
    assert now.contents + (p.bytes + e.records) == now.contents + p.bytes + e.records;
    assert done + (p.sent + e.sent) == done + p.sent + e.sent;
  }

  lemma StartsOnCourse(c: Client, base: Baselines, start: Buf, prev: Frame, next: Frame)
    requires 1 <= c.maxEdicts && Numbered(prev) && Numbered(next)
    ensures OnCourse(c, base, Emission(c, base, prev, next, start.maxsize - |start.contents|), start, start, prev, [],
            next)
  {
    hide Emission;
    var e := Emission(c, base, prev, next, start.maxsize - |start.contents|);
    assert [] + e.sent == e.sent;
  }

  lemma CourseEnds(c: Client, base: Baselines, whole: Emitted, start: Buf, now: Buf, done: Frame)
    requires OnCourse(c, base, whole, start, now, [], done, [])
    ensures now == start.(contents := start.contents + whole.records) && done == whole.sent
  {
    assert now.contents + [] == now.contents && done + [] == done;
  }

  /** Where the merge stands between two passes, with i entities of the earlier frame and j of the new one behind it;
      once the buffer has overflowed, only that the message is too long is known. */
  ghost predicate Stands(c: Client, base: Baselines, whole: Emitted, start: Buf, prev: Frame, next: Frame,
                         frame: PacketEntities, msg: SizeBuf, i: nat, j: nat)
    reads frame, frame.entities, msg, msg.data
  {
    && i <= |prev| && j <= |next| == frame.numEntities && frame.Valid() && msg.Valid() && msg.maxsize == start.maxsize
    && Numbered(prev) && Numbered(next)
    && frame.entities[j..frame.numEntities] == next[j..]
    && if msg.overflowed then start.overflowed || |start.contents + whole.records| + 2 > start.maxsize
       else OnCourse(c, base, whole, start, msg.Value(), prev[i..], frame.entities[..j], next[j..])
  }

  /** One pass of the merge loop, in its three cases. */
  method EmitPass(c: Client, base: Baselines, prev: Frame, frame: PacketEntities, msg: SizeBuf, i: nat, j: nat,
                  ghost whole: Emitted, ghost start: Buf, ghost next: Frame)
    returns (ok: bool, i': nat, j': nat)
    requires Proper(c) && Stands(c, base, whole, start, prev, next, frame, msg, i, j)
    requires i < |prev| || j < |next|
    modifies frame.entities, msg, msg.data
    ensures i' + j' > i + j && i' <= |prev| && j' <= |next|
    ensures ok ==> Stands(c, base, whole, start, prev, next, frame, msg, i', j')
    ensures !ok ==> start.overflowed || |start.contents + whole.records| + 2 > start.maxsize
    ensures msg.Valid()
  {
    hide OnCourse, Delta, Removal, HeaderBytes, HeaderFor, FieldBytes, Concat;
    var oldmax := |prev|;
    var newnum := if j >= frame.numEntities then 9999 else frame.entities[j].number;
    var oldnum := if i >= oldmax then 9999 else prev[i].number;
    ghost var now, done := msg.Value(), frame.entities[..j];
    assert j < |next| ==> frame.entities[j] == frame.entities[j..frame.numEntities][0];
    if !msg.overflowed {
      PassStaysOnCourse(c, base, whole, start, now, prev[i..], done, next[j..]);
    }
    ok := true;
    if newnum == oldnum {
      WriteDelta(c, prev[i], frame, j, msg, false);
      i', j' := i + 1, j + 1;
      assert frame.entities[..j'] == done + [frame.entities[j]];
    } else if newnum < oldnum {
      WriteDelta(c, base(newnum), frame, j, msg, true);
      i', j' := i, j + 1;
      assert frame.entities[..j'] == done + [frame.entities[j]];
    } else {
      ok := AppendRemoval(oldnum, msg);
      i', j' := i + 1, j;
      assert done + [] == done;
    }
    assert frame.entities[j'..frame.numEntities] == next[j'..];
  }

  lemma SetsOut(c: Client, base: Baselines, start: Buf, prev: Frame, next: Frame, frame: PacketEntities, msg: SizeBuf)
    requires 1 <= c.maxEdicts && Numbered(prev) && Numbered(next)
    requires frame.Valid() && frame.Value() == next && msg.Valid() && msg.maxsize == start.maxsize
    requires if msg.overflowed then start.overflowed || |start.contents| > start.maxsize else msg.Value() == start
    ensures Stands(c, base, Emission(c, base, prev, next, start.maxsize - |start.contents|), start, prev, next, frame,
            msg, 0, 0)
  {
    hide Emission, OnCourse;
    StartsOnCourse(c, base, start, prev, next);
    assert prev[0..] == prev && next[0..] == next && frame.entities[..0] == [];
    assert frame.entities[0..frame.numEntities] == frame.entities[..frame.numEntities];
  }

  lemma Arrives(c: Client, base: Baselines, whole: Emitted, start: Buf, prev: Frame, next: Frame,
                frame: PacketEntities, msg: SizeBuf)
    requires Stands(c, base, whole, start, prev, next, frame, msg, |prev|, |next|)
    ensures msg.Valid()
    ensures if msg.overflowed then start.overflowed || |start.contents + whole.records| + 2 > start.maxsize
            else msg.Value() == start.(contents := start.contents + whole.records) && frame.Value() == whole.sent
  {
    if !msg.overflowed {
      assert prev[|prev|..] == [] && next[|next|..] == [];
      CourseEnds(c, base, whole, start, msg.Value(), frame.Value());
    }
  }

  /** A whole message, read by a client that knows the earlier frame, shows the frame that is kept. */
  lemma MessageShows(c: Client, base: Baselines, prev: Frame, next: Frame, room: int, lead: seq<byte>,
                     message: seq<byte>)
    requires Given(c, prev, next) && 1 <= c.maxEdicts && Numbered(prev) && Numbered(next)
    requires message == lead + Emission(c, base, prev, next, room).records + Le16(0)
    ensures lead <= message
    ensures KeepsUp(c, base, prev, next, room) ==>
              var seen := Decode(c, base, QuantisedFrame(c, prev), message[|lead|..]);
              seen.Some? && seen.value.1 == [] && ShowsFrame(c, seen.value.0, Emission(c, base, prev, next, room).sent)
  {
    hide Emission, Le16, Decode, QuantisedFrame, ShowsFrame, KeepsUp, Given;
    DeltaReconstructs(c, base, prev, next, room, []);
    assert message[|lead|..] == Emission(c, base, prev, next, room).records + (Le16(0) + []);
  }

  /** SV_EmitPacketEntities. */
  method EmitPacketEntities(c: Client, base: Baselines, deltaSequence: int, prev: Frame, frame: PacketEntities,
                            msg: SizeBuf)
    returns (ok: bool)
    requires Proper(c) && msg.Valid() && frame.Valid()
    requires Numbered(prev) && Numbered(frame.Value()) && (deltaSequence == -1 ==> prev == [])
    modifies frame.entities, msg, msg.data
    ensures msg.Valid()
    ensures var before := old(msg.Value());
            var lead := before.contents + Opening(deltaSequence);
            var e := Emission(c, base, prev, old(frame.Value()), before.maxsize - |lead|);
            if !before.overflowed && |lead| + |e.records| + 2 <= before.maxsize then
              ok && frame.Value() == e.sent && msg.Value() == before.(contents := lead + e.records + Le16(0))
            else
              !ok || msg.overflowed
    ensures var before, next := old(msg.Value()), old(frame.Value());
            var lead := before.contents + Opening(deltaSequence);
            ok && !msg.overflowed && Given(c, prev, next) && KeepsUp(c, base, prev, next, before.maxsize - |lead|) ==>
              && lead <= msg.Value().contents
              && var seen := Decode(c, base, QuantisedFrame(c, prev), msg.Value().contents[|lead|..]);
                 seen.Some? && seen.value.1 == [] && ShowsFrame(c, seen.value.0, frame.Value())
  {
    hide Emission, Stands, Le16, Opening, Decode, QuantisedFrame, ShowsFrame, KeepsUp, Given;
    Le16Length(0);
    ghost var next := frame.Value();
    ghost var start := msg.Value().(contents := msg.Value().contents + Opening(deltaSequence));
    ghost var whole := Emission(c, base, prev, next, start.maxsize - |start.contents|);
    ok := AppendOpening(deltaSequence, msg);
    if !ok {
      return;
    }
    var i: nat, j: nat := 0, 0;
    SetsOut(c, base, start, prev, next, frame, msg);
    while j < frame.numEntities || i < |prev|
      invariant Stands(c, base, whole, start, prev, next, frame, msg, i, j)
      invariant j <= |next| == frame.numEntities && i <= |prev|
      decreases |prev| + |next| - i - j
    {
      ok, i, j := EmitPass(c, base, prev, frame, msg, i, j, whole, start, next);
      if !ok {
        return;
      }
    }
    Arrives(c, base, whole, start, prev, next, frame, msg);
    ok := Append(msg, Le16(0));
    if ok && !msg.overflowed && Given(c, prev, next) {
      MessageShows(c, base, prev, next, start.maxsize - |start.contents|, start.contents, msg.Value().contents);
    }
  }
}
