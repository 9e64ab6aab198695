/** Which entities go into a client's packet: the nearest ones, in entity order. */
module Snapshots {
  import opened Entities
  import opened Geometry
  import opened Options

  /** An edict with the answers of the three filters about it: whether the client can see it, and
      whether it goes into the separate nail list. */
  datatype Edict = Edict(state: EntityState, absmin: Vec, absmax: Vec, visible: bool, nail: bool)

  type Edicts = seq<Edict>

  predicate Eligible(edicts: Edicts, hidden: nat, e: nat)
    requires e < |edicts|
  {
    edicts[e].visible && e != hidden && !edicts[e].nail
  }

  /** How many of the edicts from first up to, and not including, e are eligible. */
  function EligibleCount(edicts: Edicts, hidden: nat, first: nat, e: nat): nat
    requires e <= |edicts|
    decreases e
  {
    if e <= first then 0
    else EligibleCount(edicts, hidden, first, e - 1) + if Eligible(edicts, hidden, e - 1) then 1 else 0
  }

  /** The squared distance from a viewer to the middle of an edict's bounds. */
  function Distance(viewer: Vec, ed: Edict): real {
    var away := Sub(viewer, Scale(Add(ed.absmin, ed.absmax), 0.5));
    Dot(away, away)
  }

  /** It is measured from the point that is as far from one corner of the bounds as from the other. */
  lemma DistanceIsToTheMiddle(viewer: Vec, ed: Edict, middle: Vec)
    requires Sub(ed.absmax, middle) == Sub(middle, ed.absmin)
    ensures Distance(viewer, ed) == (viewer.x - middle.x) * (viewer.x - middle.x)
                                    + (viewer.y - middle.y) * (viewer.y - middle.y)
                                    + (viewer.z - middle.z) * (viewer.z - middle.z)
  {
    assert Scale(Add(ed.absmin, ed.absmax), 0.5) == middle;
  }

  lemma DistanceIsNotNegative(viewer: Vec, ed: Edict)
    ensures Distance(viewer, ed) >= 0.0
  {
    var d := Sub(viewer, Scale(Add(ed.absmin, ed.absmax), 0.5));
    assert d.x * d.x >= 0.0 && d.y * d.y >= 0.0 && d.z * d.z >= 0.0;
  }

  /** What is copied into the packet for edict e. */
  function Copied(edicts: Edicts, e: nat): EntityState
    requires e < |edicts|
  {
    edicts[e].state.(number := e, solid := false)
  }

  predicate Holds(pack: Frame, e: nat) {
    exists i :: 0 <= i < |pack| && pack[i].number == e
  }

  /** A frame drawn from the eligible edicts below e. */
  ghost predicate Drawn(edicts: Edicts, hidden: nat, first: nat, e: nat, pack: Frame)
    requires e <= |edicts|
  {
    && Sorted(pack)
    && forall i :: 0 <= i < |pack| ==>
         first <= pack[i].number < e
         && Eligible(edicts, hidden, pack[i].number)
         && pack[i] == Copied(edicts, pack[i].number)
  }

  /** No eligible edict below e that the frame leaves out is nearer than one it holds. */
  ghost predicate Nearest(edicts: Edicts, hidden: nat, first: nat, e: nat, viewer: Vec, pack: Frame)
    requires e <= |edicts| && Drawn(edicts, hidden, first, e, pack)
  {
    forall n, i :: first <= n < e && Eligible(edicts, hidden, n) && !Holds(pack, n) && 0 <= i < |pack| ==>
      Distance(viewer, edicts[pack[i].number]) <= Distance(viewer, edicts[n])
  }

  /** Every eligible edict below e that the frame leaves out comes after all it holds. */
  ghost predicate FirstCome(edicts: Edicts, hidden: nat, first: nat, e: nat, pack: Frame)
    requires e <= |edicts|
  {
    forall n, i :: first <= n < e && Eligible(edicts, hidden, n) && !Holds(pack, n) && 0 <= i < |pack| ==>
      pack[i].number < n
  }

  /** The frame holds every eligible edict below e. */
  ghost predicate Everything(edicts: Edicts, hidden: nat, first: nat, e: nat, pack: Frame)
    requires e <= |edicts|
  {
    forall n :: first <= n < e && Eligible(edicts, hidden, n) ==> Holds(pack, n)
  }

  /** What the packet holds once the edicts below e have been looked at: as many of the eligible ones
      as fit, in entity order, and the nearest of them (without a viewer, the first of them). */
  ghost predicate Selection(edicts: Edicts, hidden: nat, first: nat, e: nat, viewer: Option<Vec>, max: nat, pack: Frame)
    requires e <= |edicts|
  {
    && |pack| == (if EligibleCount(edicts, hidden, first, e) < max then EligibleCount(edicts, hidden, first, e)
                  else max)
    && Drawn(edicts, hidden, first, e, pack)
    && (|pack| < max ==> Everything(edicts, hidden, first, e, pack))
    && (viewer.Some? ==> Nearest(edicts, hidden, first, e, viewer.value, pack))
    && (viewer.None? ==> FirstCome(edicts, hidden, first, e, pack))
  }

  // ---------- One more edict ----------

  lemma AppendHolds(edicts: Edicts, hidden: nat, first: nat, e: nat, pack: Frame)
    requires first <= e < |edicts| && Eligible(edicts, hidden, e)
    requires Drawn(edicts, hidden, first, e, pack)
    ensures Drawn(edicts, hidden, first, e + 1, pack + [Copied(edicts, e)])
    ensures Holds(pack + [Copied(edicts, e)], e)
    ensures forall n :: Holds(pack, n) ==> Holds(pack + [Copied(edicts, e)], n)
  {
    var grown := pack + [Copied(edicts, e)];
    assert grown[|pack|].number == e;
    forall n | Holds(pack, n)
      ensures Holds(grown, n)
    {
      var i :| 0 <= i < |pack| && pack[i].number == n;
      assert grown[i].number == n;
    }
  }

  /** Replacing the furthest of a nearest selection by a nearer newcomer gives a nearest selection. */
  lemma EvictionKeepsNearest(edicts: Edicts, hidden: nat, first: nat, e: nat, viewer: Vec, pack: Frame, best: nat)
    requires first <= e < |edicts| && Eligible(edicts, hidden, e) && best < |pack|
    requires Drawn(edicts, hidden, first, e, pack) && Nearest(edicts, hidden, first, e, viewer, pack)
    requires forall i :: 0 <= i < |pack| ==>
               Distance(viewer, edicts[pack[i].number]) <= Distance(viewer, edicts[pack[best].number])
    requires Distance(viewer, edicts[e]) < Distance(viewer, edicts[pack[best].number])
    ensures var after := pack[..best] + pack[best + 1..] + [Copied(edicts, e)];
            Drawn(edicts, hidden, first, e + 1, after) && Nearest(edicts, hidden, first, e + 1, viewer, after)
  {
    hide Distance;
    var rest := pack[..best] + pack[best + 1..];
    var after := rest + [Copied(edicts, e)];
    assert forall i :: 0 <= i < |rest| ==> rest[i] == pack[if i < best then i else i + 1];
    assert Drawn(edicts, hidden, first, e, rest);
    AppendHolds(edicts, hidden, first, e, rest);
    forall k | 0 <= k < |pack| && k != best
      ensures Holds(rest, pack[k].number)
    {
      assert rest[if k < best then k else k - 1].number == pack[k].number;
    }
    forall n, i | first <= n < e + 1 && Eligible(edicts, hidden, n) && !Holds(after, n) && 0 <= i < |after|
      ensures Distance(viewer, edicts[after[i].number]) <= Distance(viewer, edicts[n])
    {
      if Holds(pack, n) {
        var k :| 0 <= k < |pack| && pack[k].number == n;
        assert k == best;
      } else {
        assert Distance(viewer, edicts[pack[best].number]) <= Distance(viewer, edicts[n]);
      }
    }
  }

  lemma EvictionKeepsSelection(edicts: Edicts, hidden: nat, first: nat, e: nat, viewer: Vec, max: nat, pack: Frame,
                               best: nat)
    requires first <= e < |edicts| && Eligible(edicts, hidden, e) && best < |pack| == max
    requires Selection(edicts, hidden, first, e, Some(viewer), max, pack)
    requires forall i :: 0 <= i < |pack| ==>
               Distance(viewer, edicts[pack[i].number]) <= Distance(viewer, edicts[pack[best].number])
    requires Distance(viewer, edicts[e]) < Distance(viewer, edicts[pack[best].number])
    ensures Selection(edicts, hidden, first, e + 1, Some(viewer), max,
              pack[..best] + pack[best + 1..] + [Copied(edicts, e)])
  {
    EvictionKeepsNearest(edicts, hidden, first, e, viewer, pack, best);
  }

  lemma SkipKeepsSelection(edicts: Edicts, hidden: nat, first: nat, e: nat, viewer: Option<Vec>, max: nat, pack: Frame)
    requires first <= e < |edicts|
    requires Selection(edicts, hidden, first, e, viewer, max, pack)
    requires Eligible(edicts, hidden, e) ==> |pack| == max
    requires Eligible(edicts, hidden, e) && viewer.Some? ==>
               forall i :: 0 <= i < |pack| ==>
                 Distance(viewer.value, edicts[pack[i].number]) <= Distance(viewer.value, edicts[e])
    ensures Selection(edicts, hidden, first, e + 1, viewer, max, pack)
  {
    hide Distance;
  }

  lemma AppendKeepsSelection(edicts: Edicts, hidden: nat, first: nat, e: nat, viewer: Option<Vec>, max: nat,
                             pack: Frame)
    requires first <= e < |edicts| && Eligible(edicts, hidden, e) && |pack| < max
    requires Selection(edicts, hidden, first, e, viewer, max, pack)
    ensures Selection(edicts, hidden, first, e + 1, viewer, max, pack + [Copied(edicts, e)])
  {
    hide Distance;
    AppendHolds(edicts, hidden, first, e, pack);
    var grown := pack + [Copied(edicts, e)];
    assert Everything(edicts, hidden, first, e + 1, grown);
  }

  /** The first of the indices below n with the greatest distance; -1 if none is above -1. */
  method Furthest(distances: array<real>, n: nat) returns (furthest: real, best: int)
    requires n <= distances.Length
    ensures best == -1 ==> furthest == -1.0
    ensures best != -1 ==> 0 <= best < n && furthest == distances[best] > -1.0
    ensures forall i :: 0 <= i < n ==> distances[i] <= furthest
    ensures forall i :: 0 <= i < best ==> distances[i] < furthest
  {
    furthest, best := -1.0, -1;
    for i := 0 to n
      invariant best == -1 ==> furthest == -1.0
      invariant best != -1 ==> 0 <= best < i && furthest == distances[best] > -1.0
      invariant forall k :: 0 <= k < i ==> distances[k] <= furthest
      invariant forall k :: 0 <= k < best ==> distances[k] < furthest
    {
      if furthest < distances[i] {
        furthest, best := distances[i], i;
      }
    }
  }

  /** memmove: drop element at, moving what follows it down; the last of the n elements stays where it was as well. */
  method CloseGap<T>(a: array<T>, at: nat, n: nat)
    requires at < n <= a.Length
    modifies a
    ensures a[..n - 1] == old(a[..at] + a[at + 1..n])
    ensures a[n - 1..] == old(a[n - 1..])
  {
    for i := at to n - 1
      invariant a[..i] == old(a[..at] + a[at + 1..i + 1])
      invariant a[i..] == old(a[i..])
    {
      ghost var before := a[..];
      a[i] := a[i + 1];
      assert a[..i + 1] == before[..i] + [before[i + 1]];
      assert before[i + 1] == before[i..][1] == old(a[i..])[1] == old(a[i + 1]);
      assert a[i + 1..] == before[i + 1..] == before[i..][1..];
      assert old(a[i..])[1..] == old(a[i + 1..]);
    }
  }

  /** The distances are those of the packet's entities. */
  ghost predicate Measured(edicts: Edicts, viewer: Vec, pack: Frame, distances: seq<real>)
    requires |pack| <= |distances|
  {
    forall i :: 0 <= i < |pack| ==>
      pack[i].number < |edicts| && distances[i] == Distance(viewer, edicts[pack[i].number])
  }

  /** Shuffle the others down, and put x at the end. */
  method Replace<T>(a: array<T>, at: nat, n: nat, x: T)
    requires at < n <= a.Length
    modifies a
    ensures var before := old(a[..n]); a[..n] == before[..at] + before[at + 1..] + [x]
  {
    ghost var before := a[..n];
    CloseGap(a, at, n);
    a[n - 1] := x;
    assert a[..n] == a[..n - 1] + [x];
    assert old(a[..at]) == before[..at] && old(a[at + 1..n]) == before[at + 1..];
  }

  lemma MeasuredAfterEviction(edicts: Edicts, viewer: Vec, pack: Frame, distances: seq<real>, best: nat, e: nat)
    requires best < |pack| == |distances| && e < |edicts|
    requires Measured(edicts, viewer, pack, distances)
    ensures Measured(edicts, viewer, pack[..best] + pack[best + 1..] + [Copied(edicts, e)],
              distances[..best] + distances[best + 1..] + [Distance(viewer, edicts[e])])
  {
    hide Distance;
  }

  lemma MeasuredAfterAppend(edicts: Edicts, viewer: Vec, pack: Frame, distances: seq<real>, e: nat)
    requires |pack| < |distances| && e < |edicts|
    requires Measured(edicts, viewer, pack, distances)
    ensures Measured(edicts, viewer, pack + [Copied(edicts, e)], distances[|pack| := Distance(viewer, edicts[e])])
  {
    hide Distance;
  }

  lemma FurthestIsFurthest(edicts: Edicts, viewer: Vec, pack: Frame, distances: seq<real>, bound: real)
    requires |pack| == |distances| && Measured(edicts, viewer, pack, distances)
    requires forall i :: 0 <= i < |distances| ==> distances[i] <= bound
    ensures forall i :: 0 <= i < |pack| ==>
              pack[i].number < |edicts| && Distance(viewer, edicts[pack[i].number]) <= bound
    ensures forall i :: 0 <= i < |pack| && distances[i] == bound ==>
              Distance(viewer, edicts[pack[i].number]) == bound
  {
    hide Distance;
  }

  /** One pass of the entity loop for an edict the filters let through. */
  method Consider(edicts: Edicts, first: nat, hidden: nat, viewer: Option<Vec>, max: nat, pack: PacketEntities,
                  distances: array<real>, e: nat)
    requires first <= e < |edicts| && Eligible(edicts, hidden, e)
    requires pack.Valid() && max <= pack.entities.Length && max == distances.Length
    requires Selection(edicts, hidden, first, e, viewer, max, pack.Value())
    requires pack.numEntities <= max
    requires viewer.Some? ==> Measured(edicts, viewer.value, pack.Value(), distances[..])
    modifies pack, pack.entities, distances
    ensures pack.Valid() && pack.numEntities <= max
    ensures Selection(edicts, hidden, first, e + 1, viewer, max, pack.Value())
    ensures viewer.Some? ==> Measured(edicts, viewer.value, pack.Value(), distances[..])
  {
    hide Distance, Selection, Eligible, Measured, Copied;
    ghost var before, measures := pack.Value(), distances[..];
    var position := pack.numEntities;
    if pack.numEntities == max {
      if viewer.None? {
        SkipKeepsSelection(edicts, hidden, first, e, viewer, max, before);
        return;
      }
      var distance := Distance(viewer.value, edicts[e]);
      DistanceIsNotNegative(viewer.value, edicts[e]);
      var furthest, best := Furthest(distances, max);
      FurthestIsFurthest(edicts, viewer.value, before, distances[..],
                         if furthest <= distance then distance else furthest);
      if furthest <= distance || best == -1 {
        SkipKeepsSelection(edicts, hidden, first, e, viewer, max, before);
        return;
      }
      EvictionKeepsSelection(edicts, hidden, first, e, viewer.value, max, before, best);
      MeasuredAfterEviction(edicts, viewer.value, before, distances[..], best, e);
      Replace(pack.entities, best, max, Copied(edicts, e));
      Replace(distances, best, max, distance);
      assert measures == old(distances[..max]) && distances[..] == distances[..max];
    } else {
      AppendKeepsSelection(edicts, hidden, first, e, viewer, max, before);
      pack.numEntities := pack.numEntities + 1;
      if viewer.Some? {
        MeasuredAfterAppend(edicts, viewer.value, before, distances[..], e);
        distances[position] := Distance(viewer.value, edicts[e]);
        assert distances[..] == measures[position := Distance(viewer.value, edicts[e])];
      }
      pack.entities[position] := Copied(edicts, e);
      assert pack.Value() == before + [Copied(edicts, e)];
    }
  }

  /** The entity loop of SV_WriteEntitiesToClient, for a client with an edict when there is a viewer
      and for a recorder without one otherwise. */
  method SelectEntities(edicts: Edicts, first: nat, hidden: nat, viewer: Option<Vec>, max: nat, pack: PacketEntities)
    requires first <= |edicts| && max <= pack.entities.Length
    modifies pack, pack.entities
    ensures pack.Valid()
    ensures Selection(edicts, hidden, first, |edicts|, viewer, max, pack.Value())
  {
    hide Distance, Selection;
    var distances := new real[max](_ => 0.0);
    pack.numEntities := 0;
    NothingYet(edicts, hidden, first, viewer, max);
    for e := first to |edicts|
      invariant pack.Valid() && pack.numEntities <= max
      invariant Selection(edicts, hidden, first, e, viewer, max, pack.Value())
      invariant viewer.Some? ==> Measured(edicts, viewer.value, pack.Value(), distances[..])
    {
      if !edicts[e].visible || e == hidden || edicts[e].nail {
        SkipKeepsSelection(edicts, hidden, first, e, viewer, max, pack.Value());
        continue;
      }
      Consider(edicts, first, hidden, viewer, max, pack, distances, e);
    }
  }

  lemma NothingYet(edicts: Edicts, hidden: nat, first: nat, viewer: Option<Vec>, max: nat)
    requires first <= |edicts|
    ensures Selection(edicts, hidden, first, first, viewer, max, [])
  {
    hide Distance;
  }
}
