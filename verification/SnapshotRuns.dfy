/** A run of snapshots, each sent as a delta from an earlier one that the client has acknowledged. */
module SnapshotRuns {
  import opened Bytes
  import opened DeltaEntities
  import opened DeltaSync
  import opened Entities
  import opened Options

  /** One packet of entities: the snapshot it is a delta from, if any, the entities selected and the room there was. */
  datatype Snapshot = Snapshot(basis: Option<nat>, next: Frame, room: int)

  /** The frame that the server keeps for snapshot k. */
  function Kept(c: Client, base: Baselines, run: seq<Snapshot>, k: nat): Frame
    requires k < |run|
    decreases k, 1
  {
    var prev := KeptBasis(c, base, run, k);
    if 1 <= c.maxEdicts && Numbered(prev) && Numbered(run[k].next) then
      Emission(c, base, prev, run[k].next, run[k].room).sent
    else []
  }

  function KeptBasis(c: Client, base: Baselines, run: seq<Snapshot>, k: nat): Frame
    requires k < |run|
    decreases k, 0
  {
    if run[k].basis.Some? && run[k].basis.value < k then Kept(c, base, run, run[k].basis.value) else []
  }

  /** The records of snapshot k and the zero word after them. */
  function Message(c: Client, base: Baselines, run: seq<Snapshot>, k: nat): seq<byte>
    requires k < |run|
  {
    var prev := KeptBasis(c, base, run, k);
    if 1 <= c.maxEdicts && Numbered(prev) && Numbered(run[k].next) then
      Emission(c, base, prev, run[k].next, run[k].room).records + (Le16(0) + [])
    else []
  }

  /** What the client makes of snapshot k. It reads the messages that snapshot k rests on and no others. */
  function Seen(c: Client, base: Baselines, run: seq<Snapshot>, k: nat): Option<seq<Known>>
    requires k < |run|
    decreases k
  {
    var known := if run[k].basis.Some? && run[k].basis.value < k then Seen(c, base, run, run[k].basis.value)
                 else Some([]);
    if known.None? then None
    else
      var r := Decode(c, base, known.value, Message(c, base, run, k));
      if r.Some? && r.value.1 == [] then Some(r.value.0) else None
  }

  /** The entities of snapshot k are as entities are selected, and it keeps up with the frame that it rests on. */
  ghost predicate GoodSnapshot(c: Client, base: Baselines, run: seq<Snapshot>, k: nat)
    requires k < |run|
  {
    && Given(c, [], run[k].next)
    && (Numbered(KeptBasis(c, base, run, k)) ==>
          KeepsUp(c, base, KeptBasis(c, base, run, k), run[k].next, run[k].room))
  }

  /** Snapshot k and those that it rests on are good; nothing is asked of the others. */
  ghost predicate GoodChain(c: Client, base: Baselines, run: seq<Snapshot>, k: nat)
    requires k < |run|
    decreases k
  {
    && GoodSnapshot(c, base, run, k)
    && (run[k].basis.Some? ==> run[k].basis.value < k && GoodChain(c, base, run, run[k].basis.value))
  }

  /** The frames that the server keeps along a chain can serve as the basis of later ones. */
  lemma {:induction false} KeptIsSorted(c: Client, base: Baselines, run: seq<Snapshot>, k: nat)
    requires k < |run| && GoodChain(c, base, run, k)
    ensures Given(c, KeptBasis(c, base, run, k), run[k].next)
    ensures KeepsUp(c, base, KeptBasis(c, base, run, k), run[k].next, run[k].room)
    ensures Sorted(Kept(c, base, run, k)) && Numbered(Kept(c, base, run, k))
    decreases k
  {
    hide Emission, KeepsUp;
    if run[k].basis.Some? {
      KeptIsSorted(c, base, run, run[k].basis.value);
    }
    SentNumbers(c, base, KeptBasis(c, base, run, k), run[k].next, run[k].room);
  }

  /** Along whatever chain of deltas a snapshot rests on, and whatever became of the packets outside of it, the
      client's frame is the quantised frame of the server. */
  lemma {:induction false} SnapshotsStayInStep(c: Client, base: Baselines, run: seq<Snapshot>, k: nat)
    requires k < |run| && GoodChain(c, base, run, k)
    ensures Seen(c, base, run, k) == Some(QuantisedFrame(c, Kept(c, base, run, k)))
    ensures ShowsFrame(c, Seen(c, base, run, k).value, Kept(c, base, run, k))
    decreases k
  {
    hide Emission, Decode, KeepsUp, Sorted, Numbered, Given, QuantisedFrame, ShowsFrame;
    QuantisedFrameShows(c, Kept(c, base, run, k));
    KeptIsSorted(c, base, run, k);
    var prev := KeptBasis(c, base, run, k);
    GivenMeans(c, prev, run[k].next);
    assert QuantisedFrame(c, []) == [];
    if run[k].basis.Some? {
      SnapshotsStayInStep(c, base, run, run[k].basis.value);
    }
    DeltaReconstructs(c, base, prev, run[k].next, run[k].room, []);
  }

  /** A snapshot that rests on good ones brings server and client into step exactly if it keeps up itself. */
  lemma InStepExactlyWhenKeptUp(c: Client, base: Baselines, run: seq<Snapshot>, k: nat)
    requires k < |run| && Given(c, [], run[k].next)
    requires run[k].basis.Some? ==> run[k].basis.value < k && GoodChain(c, base, run, run[k].basis.value)
    ensures Numbered(KeptBasis(c, base, run, k))
    ensures Seen(c, base, run, k) == Some(QuantisedFrame(c, Kept(c, base, run, k))) <==>
            KeepsUp(c, base, KeptBasis(c, base, run, k), run[k].next, run[k].room)
  {
    hide Emission, Decode, KeepsUp, QuantisedFrame;
    var prev := KeptBasis(c, base, run, k);
    assert QuantisedFrame(c, []) == [];
    if run[k].basis.Some? {
      KeptIsSorted(c, base, run, run[k].basis.value);
      SnapshotsStayInStep(c, base, run, run[k].basis.value);
    }
    DeltaReconstructs(c, base, prev, run[k].next, run[k].room, []);
  }
}
