/** Server and client after a packet of entities: when the frame that the one keeps is the frame that the other has. */
module DeltaSync {
  import opened Bytes
  import opened DeltaEntities
  import opened Entities
  import opened EntityHeaders
  import opened Options

  // ---------- What the server keeps against what the client knows ----------

  /** The client was granted every extension that the entity's number and model can need. */
  predicate Granted(c: Client, s: EntityState) {
    && (s.modelindex > 255 ==> c.modelDbl)
    && (512 <= s.number < 1024 || 1536 <= s.number ==> c.entityDbl)
    && (1024 <= s.number ==> c.entityDbl2)
  }

  predicate AllGranted(c: Client, f: Frame) {
    forall i :: 0 <= i < |f| ==> Granted(c, f[i])
  }

  /** An entity that the earlier frame lacks has room and no need of a refused extension; one that it has
      needs no refused extension for a change that shows. */
  predicate PassKeepsUp(c: Client, base: Baselines, prev: Frame, next: Frame, fits: bool)
    requires prev != [] || next != []
  {
    if next == [] || (prev != [] && prev[0].number < next[0].number) then true
    else if prev != [] && prev[0].number == next[0].number then
      fits && Refused(c, HeaderFor(prev[0], next[0])) ==> Quantised(c, prev[0]) == Quantised(c, next[0])
    else
      fits && !Refused(c, HeaderFor(base(next[0].number), next[0]))
  }

  predicate KeepsUp(c: Client, base: Baselines, prev: Frame, next: Frame, room: int)
    requires 1 <= c.maxEdicts && Numbered(prev) && Numbered(next)
    decreases |prev| + |next|
  {
    if prev == [] && next == [] then true
    else
      var p := OnePass(c, base, prev, next, room >= ROOM);
      PassKeepsUp(c, base, prev, next, room >= ROOM) && KeepsUp(c, base, p.prev, p.next, room - |p.bytes|)
  }

  predicate SameNumbers(f: Frame, g: Frame) {
    |f| == |g| && forall i :: 0 <= i < |f| ==> f[i].number == g[i].number
  }

  lemma {:induction false} PassInStep(c: Client, base: Baselines, prev: Frame, next: Frame, fits: bool)
    requires Given(c, prev, next) && (prev != [] || next != [])
    ensures var p := OnePass(c, base, prev, next, fits);
            && |p.sent| == |next| - |p.next| <= 1 && p.next == next[|p.sent|..] && |p.told| <= |p.sent|
            && (if PassKeepsUp(c, base, prev, next, fits) then QuantisedFrame(c, p.told) == QuantisedFrame(c, p.sent)
                else |p.told| == |p.sent| ==> QuantisedFrame(c, p.told) != QuantisedFrame(c, p.sent))
            && (PassKeepsUp(c, base, prev, next, fits) ==> SameNumbers(p.sent, next[..|p.sent|]))
  {
    hide Removal, Packed, HeaderBytes, InOrder, Values;
    var p := OnePass(c, base, prev, next, fits);
    if next != [] && (prev == [] || prev[0].number >= next[0].number) {
      QuantisedOne(c, p.sent[0]);
      if p.told != [] {
        QuantisedOne(c, p.told[0]);
      }
    }
  }

  /** Of two frames in two parts, the first no longer than the second part by part. */
  lemma SameStart(c: Client, a: Frame, b: Frame, d: Frame, e: Frame)
    requires |a| <= |d| && |b| <= |e|
    ensures QuantisedFrame(c, a + b) == QuantisedFrame(c, d + e)
            <==> QuantisedFrame(c, a) == QuantisedFrame(c, d) && QuantisedFrame(c, b) == QuantisedFrame(c, e)
  {
    QuantisedConcat(c, a, b);
    QuantisedConcat(c, d, e);
    var qa, qb, qd, qe := QuantisedFrame(c, a), QuantisedFrame(c, b), QuantisedFrame(c, d), QuantisedFrame(c, e);
    hide QuantisedFrame;
    if qa + qb == qd + qe {
      assert qa == (qa + qb)[..|qa|] && qd == (qd + qe)[..|qd|];
      assert qb == (qa + qb)[|qa|..] && qe == (qd + qe)[|qd|..];
    }
  }

  lemma NothingEmitted(c: Client, base: Baselines, room: int)
    requires 1 <= c.maxEdicts
    ensures Emission(c, base, [], [], room) == Emitted([], [], []) && KeepsUp(c, base, [], [], room)
    ensures SameNumbers([], [])
  {
  }

  /** What one pass adds to the whole. */
  lemma OnePassOf(c: Client, base: Baselines, prev: Frame, next: Frame, room: int)
    requires 1 <= c.maxEdicts && Numbered(prev) && Numbered(next) && (prev != [] || next != [])
    ensures var p := OnePass(c, base, prev, next, room >= ROOM);
            var later := Emission(c, base, p.prev, p.next, room - |p.bytes|);
            && Emission(c, base, prev, next, room)
               == Emitted(p.bytes + later.records, p.sent + later.sent, p.told + later.told)
            && KeepsUp(c, base, prev, next, room)
               == (PassKeepsUp(c, base, prev, next, room >= ROOM)
                   && KeepsUp(c, base, p.prev, p.next, room - |p.bytes|))
  {
    hide OnePass, PassKeepsUp, Numbered;
  }

  /** What the server keeps for the next delta looks to the client like what it was told, exactly if every
      entity that the earlier frame lacked had room and no extension that is needed was refused. */
  lemma {:induction false} InStepExactlyWhenKeptUp(c: Client, base: Baselines, prev: Frame, next: Frame, room: int)
    requires Given(c, prev, next)
    ensures var e := Emission(c, base, prev, next, room);
            && |e.told| <= |e.sent| == |next|
            && (QuantisedFrame(c, e.told) == QuantisedFrame(c, e.sent) <==> KeepsUp(c, base, prev, next, room))
    decreases |prev| + |next|
  {
    hide OnePass, PassKeepsUp, QuantisedFrame, Given, Sorted, Numbered, Emission, KeepsUp;
    GivenMeans(c, prev, next);
    if prev == [] && next == [] {
      NothingEmitted(c, base, room);
    } else {
      OnePassOf(c, base, prev, next, room);
      var p := OnePass(c, base, prev, next, room >= ROOM);
      var e := Emission(c, base, p.prev, p.next, room - |p.bytes|);
      GivenAfterPass(c, base, prev, next, room >= ROOM);
      PassInStep(c, base, prev, next, room >= ROOM);
      InStepExactlyWhenKeptUp(c, base, p.prev, p.next, room - |p.bytes|);
      SameStart(c, p.told, e.told, p.sent, e.sent);
    }
  }

  lemma SameNumbersJoined(f: Frame, g: Frame, next: Frame)
    requires |f| <= |next| && SameNumbers(f, next[..|f|]) && SameNumbers(g, next[|f|..])
    ensures SameNumbers(f + g, next)
  {
    forall i | |f| <= i < |next| ensures (f + g)[i].number == next[i].number {
      assert g[i - |f|].number == next[|f|..][i - |f|].number;
    }
    forall i | 0 <= i < |f| ensures (f + g)[i].number == next[i].number {
      assert f[i].number == next[..|f|][i].number;
    }
  }

  /** The frame the server keeps has the numbers of the new frame, in the same order. */
  lemma {:induction false} SentNumbers(c: Client, base: Baselines, prev: Frame, next: Frame, room: int)
    requires Given(c, prev, next) && KeepsUp(c, base, prev, next, room)
    ensures SameNumbers(Emission(c, base, prev, next, room).sent, next)
    decreases |prev| + |next|
  {
    hide OnePass, PassKeepsUp, QuantisedFrame, Given, Sorted, Numbered, SameNumbers, Emission, KeepsUp;
    GivenMeans(c, prev, next);
    if prev == [] && next == [] {
      NothingEmitted(c, base, room);
    } else {
      OnePassOf(c, base, prev, next, room);
      var p := OnePass(c, base, prev, next, room >= ROOM);
      GivenAfterPass(c, base, prev, next, room >= ROOM);
      PassInStep(c, base, prev, next, room >= ROOM);
      SentNumbers(c, base, p.prev, p.next, room - |p.bytes|);
      SameNumbersJoined(p.sent, Emission(c, base, p.prev, p.next, room - |p.bytes|).sent, next);
    }
  }

  /** A client that lacks an entity for want of room is taken to have its baseline. */
  lemma LeftOutEntityIsTakenAsKnown(c: Client, base: Baselines, s: EntityState)
    requires Proper(c) && 1 <= s.number < c.maxEdicts
    ensures var e := Emission(c, base, [], [s], ROOM - 1);
            e.told == [] && e.sent == [base(s.number)]
  {
    var p := OnePass(c, base, [], [s], false);
    assert p == Pass([], [base(s.number)], [], [], []);
  }

  /** So is a client that lacks an entity for want of an extension, with all the room that is asked for. */
  lemma RefusedEntityIsTakenAsKnown(c: Client, base: Baselines, s: EntityState)
    requires Proper(c) && 512 <= s.number < 1024 && s.number < c.maxEdicts && !c.entityDbl
    ensures var e := Emission(c, base, [], [s], ROOM);
            e.told == [] && e.sent == [s]
  {
    var p := OnePass(c, base, [], [s], true);
    assert p == Pass([], [s], [], [], []);
  }

  /** A record is written only if the client was granted every extension that it uses; and if there is room and
      something to say, only for want of one is it not. */
  lemma WrittenExactlyIfGranted(c: Client, from: EntityState, to: EntityState, force: bool)
    requires Proper(c) && (force || !Silent(HeaderFor(from, to), to.solid))
    ensures Delta(c, from, to, true, force).bytes != [] <==>
              && (to.modelindex != from.modelindex && to.modelindex > 255 ==> c.modelDbl)
              && (512 <= to.number < 1024 || 1536 <= to.number ==> c.entityDbl)
              && (1024 <= to.number ==> c.entityDbl2)
  {
    hide InOrder, Packed, Values;
  }

  /** What an entity that did not change costs in every message: nothing, unless it is solid or its number needs the
      second byte of flags. */
  lemma UnchangedEntityCosts(c: Client, s: EntityState)
    requires Proper(c)
    ensures |Delta(c, s, s, true, false).bytes|
            == if Refused(c, HeaderFor(s, s)) then 0 else if s.number >= 512 then 4 else if s.solid then 3 else 0
  {
    hide HeaderWord, BitsByte, EvenMoreBits, Packed, Values;
    var h := HeaderFor(s, s);
    var flags, more := InOrder(h.changes), MoreBits(h.changes, s.solid, NeedsEvenMore(h));
    assert true !in flags && flags == seq(11, _ => false);
    NothingPacked(flags, Values(c, s));
    assert more == [false, false, false, false, false, false, s.solid, NeedsEvenMore(h)];
    assert more[6] == s.solid && more[7] == NeedsEvenMore(h);
  }

  lemma {:induction false} NothingPacked(flags: seq<bool>, values: seq<seq<byte>>)
    requires |flags| == |values| && true !in flags
    ensures Packed(flags, values) == []
    decreases |flags|
  {
    if flags != [] {
      assert flags[0] in flags;
      NothingPacked(flags[1..], values[1..]);
    }
  }

  /** A record is never longer than the room that is checked for it. */
  lemma RecordFits(c: Client, from: EntityState, to: EntityState, fits: bool, force: bool)
    requires Proper(c)
    ensures |Delta(c, from, to, fits, force).bytes| <= ROOM
  {
    hide HeaderBytes, Packed, Values, InOrder, Sizes;
    var h := HeaderFor(from, to);
    SizesAreRight(c, to);
    PackedLength(InOrder(h.changes), Sizes(c), Values(c, to));
    SizesAddUp(c);
  }

  function Total(n: seq<nat>): nat {
    if n == [] then 0 else n[0] + Total(n[1..])
  }

  lemma SizesAddUp(c: Client)
    ensures Total(Sizes(c)) == 5 + 3 * c.coordSize + 3 * c.angleSize
  {
    var s := Sizes(c);
    forall k | 0 <= k < 11
      ensures Total(s[k..]) == s[k] + Total(s[k + 1..])
    {
      assert s[k..][1..] == s[k + 1..];
    }
    assert s[0..] == s && s[11..] == [];
    assert Total(s[8..]) == s[8] + s[9] + s[10];
    assert Total(s[4..]) == s[4] + s[5] + s[6] + s[7] + Total(s[8..]);
  }

  lemma {:induction false} PackedLength(flags: seq<bool>, sizes: seq<nat>, values: seq<seq<byte>>)
    requires |flags| == |sizes| == |values|
    requires forall i :: 0 <= i < |values| ==> |values[i]| == sizes[i]
    ensures |Packed(flags, values)| <= Total(sizes)
  {
    if flags != [] {
      PackedLength(flags[1..], sizes[1..], values[1..]);
    }
  }

  /** There is room at every entity of the new frame, by the test that is made before its record. */
  predicate AllFit(c: Client, base: Baselines, prev: Frame, next: Frame, room: int)
    requires 1 <= c.maxEdicts && Numbered(prev) && Numbered(next)
    decreases |prev| + |next|
  {
    if prev == [] && next == [] then true
    else
      var p := OnePass(c, base, prev, next, room >= ROOM);
      && (|p.next| < |next| ==> room >= ROOM)
      && AllFit(c, base, p.prev, p.next, room - |p.bytes|)
  }

  lemma {:induction false} FittingPass(c: Client, base: Baselines, prev: Frame, next: Frame, fits: bool)
    requires Given(c, prev, next) && AllGranted(c, next) && (prev != [] || next != [])
    requires |OnePass(c, base, prev, next, fits).next| < |next| ==> fits
    ensures var p := OnePass(c, base, prev, next, fits);
            AllGranted(c, p.next) && p.told == p.sent && p.told + p.next == next
    ensures var p := OnePass(c, base, prev, next, fits);
            if |p.next| < |next| then |p.bytes| <= ROOM && |p.prev| <= |prev|
            else p.next == next && |p.bytes| <= 4 && |p.prev| < |prev|
  {
    hide Packed, HeaderBytes, InOrder, Values, Removal;
    if next != [] {
      RecordFits(c, base(next[0].number), next[0], fits, true);
      if prev != [] {
        RecordFits(c, prev[0], next[0], fits, false);
      }
    }
  }

  /** When the test for room never fails, the client is told of the whole new frame and the server keeps it. */
  lemma {:induction false} AllFitTellsAll(c: Client, base: Baselines, prev: Frame, next: Frame, room: int)
    requires Given(c, prev, next) && AllGranted(c, next) && AllFit(c, base, prev, next, room)
    ensures var e := Emission(c, base, prev, next, room);
            e.told == next && e.sent == next
    decreases |prev| + |next|
  {
    hide OnePass, AllGranted, Given, Sorted, Numbered;
    GivenMeans(c, prev, next);
    if prev != [] || next != [] {
      var p := OnePass(c, base, prev, next, room >= ROOM);
      GivenAfterPass(c, base, prev, next, room >= ROOM);
      FittingPass(c, base, prev, next, room >= ROOM);
      AllFitTellsAll(c, base, p.prev, p.next, room - |p.bytes|);
    }
  }

  /** Room for the longest records is more than is needed. */
  lemma {:induction false} AmpleRoomFitsAll(c: Client, base: Baselines, prev: Frame, next: Frame, room: int)
    requires Given(c, prev, next) && AllGranted(c, next) && room >= ROOM * |next| + 4 * |prev|
    ensures AllFit(c, base, prev, next, room)
    decreases |prev| + |next|
  {
    hide OnePass, AllGranted, Given, Sorted, Numbered;
    GivenMeans(c, prev, next);
    if prev != [] || next != [] {
      var p := OnePass(c, base, prev, next, room >= ROOM);
      GivenAfterPass(c, base, prev, next, room >= ROOM);
      EmptyNextStays(c, base, prev, next, room >= ROOM);
      FittingPass(c, base, prev, next, room >= ROOM);
      AmpleRoomFitsAll(c, base, p.prev, p.next, room - |p.bytes|);
    }
  }

  lemma EmptyNextStays(c: Client, base: Baselines, prev: Frame, next: Frame, fits: bool)
    requires 1 <= c.maxEdicts && Numbered(prev) && Numbered(next) && (prev != [] || next != [])
    ensures next == [] ==> OnePass(c, base, prev, next, fits).next == []
  {
  }

  /** The delta reconstructs: decoding against the quantised earlier frame gives the quantised frame that the
      server keeps exactly if the client keeps up, and the new frame if all of it fits and nothing is refused. */
  lemma DeltaReconstructs(c: Client, base: Baselines, prev: Frame, next: Frame, room: int, tail: seq<byte>)
    requires Given(c, prev, next)
    ensures var e := Emission(c, base, prev, next, room);
            var r := Decode(c, base, QuantisedFrame(c, prev), e.records + (Le16(0) + tail));
            && (r == Some((QuantisedFrame(c, e.sent), tail)) <==> KeepsUp(c, base, prev, next, room))
            && (AllGranted(c, next) && AllFit(c, base, prev, next, room) ==>
                  e.sent == next && r == Some((QuantisedFrame(c, next), tail)))
            && r.Some? && ShowsFrame(c, r.value.0, e.told)
            && (KeepsUp(c, base, prev, next, room) ==> ShowsFrame(c, r.value.0, e.sent))
  {
    hide Emission, Decode, KeepsUp, AllFit, AllGranted, Given, QuantisedFrame, ShowsFrame;
    GivenMeans(c, prev, next);
    DecodesToTold(c, base, prev, next, room, tail);
    InStepExactlyWhenKeptUp(c, base, prev, next, room);
    QuantisedFrameShows(c, Emission(c, base, prev, next, room).told);
    QuantisedFrameShows(c, Emission(c, base, prev, next, room).sent);
    if AllGranted(c, next) && AllFit(c, base, prev, next, room) {
      AllFitTellsAll(c, base, prev, next, room);
    }
  }
}
