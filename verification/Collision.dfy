/** Tracing the player's hull through the world and the entities in it. */
module Collision {
  import opened Options
  import opened Geometry
  import opened Hulls
  import opened BoxHull

  const PLAYER_MINS := Vec(-16.0, -16.0, -24.0)
  const PLAYER_MAXS := Vec(16.0, 16.0, 32.0)

  /** cmodel_t: its point hull, its player hull with that hull's clip box, and its bounds. */
  datatype Model = Model(hull0: Hull, hull1: Hull, clipMins: Vec, clipMaxs: Vec, mins: Vec, maxs: Vec)

  /** physent_t: a brush model, or a box. */
  datatype PhysEnt = PhysEnt(origin: Vec, model: Option<Model>, mins: Vec, maxs: Vec)

  predicate ProperEnt(pe: PhysEnt) {
    pe.model.Some? ==> WellFormed(pe.model.value.hull0) && WellFormed(pe.model.value.hull1)
  }

  /** physents[0] is the world. */
  predicate ProperWorld(ents: seq<PhysEnt>) {
    ents != [] && ents[0].model.Some? && forall i | 0 <= i < |ents| :: ProperEnt(ents[i])
  }

  /** The box of an entity grown by the player's. */
  function GrownMins(pe: PhysEnt): Vec {
    Sub(pe.mins, PLAYER_MAXS)
  }

  function GrownMaxs(pe: PhysEnt): Vec {
    Sub(pe.maxs, PLAYER_MINS)
  }

  function EntHull(pe: PhysEnt): Hull {
    if pe.model.Some? then pe.model.value.hull1 else HullOfBox(GrownMins(pe), GrownMaxs(pe))
  }

  function EntOffset(pe: PhysEnt): Vec {
    if pe.model.Some? then Add(Sub(pe.model.value.clipMins, PLAYER_MINS), pe.origin) else pe.origin
  }

  lemma EntHullIsWellFormed(pe: PhysEnt)
    requires ProperEnt(pe)
    ensures WellFormed(EntHull(pe))
  {
    BoxIsWellFormed(GrownMins(pe), GrownMaxs(pe));
  }

  /** The player at p is in this entity's solid. */
  predicate Stuck(pe: PhysEnt, p: Vec)
    requires ProperEnt(pe)
  {
    EntHullIsWellFormed(pe);
    Solid(EntHull(pe), EntHull(pe).first, Sub(p, EntOffset(pe)))
  }

  /** A player's box and an entity's overlap along one axis. */
  predicate Overlaps(at: real, lower: real, upper: real, emins: real, emaxs: real) {
    emins <= at + upper && at + lower < emaxs
  }

  /** In an entity that is a box, the player is stuck exactly if their boxes overlap; in a brush model whose clip box is
      the player's, exactly if the model's player hull is solid there. */
  lemma StuckMeans(pe: PhysEnt, p: Vec)
    requires ProperEnt(pe)
    ensures pe.model.None? ==>
              (Stuck(pe, p) <==>
                && Overlaps(p.x, -16.0, 16.0, pe.origin.x + pe.mins.x, pe.origin.x + pe.maxs.x)
                && Overlaps(p.y, -16.0, 16.0, pe.origin.y + pe.mins.y, pe.origin.y + pe.maxs.y)
                && Overlaps(p.z, -24.0, 32.0, pe.origin.z + pe.mins.z, pe.origin.z + pe.maxs.z))
    ensures pe.model.Some? && pe.model.value.clipMins == PLAYER_MINS ==>
              (Stuck(pe, p) <==> Solid(pe.model.value.hull1, pe.model.value.hull1.first, Sub(p, pe.origin)))
  {
    hide Contents, HullOfBox;
    if pe.model.None? {
      BoxIsSolidInside(GrownMins(pe), GrownMaxs(pe), Sub(p, pe.origin));
      FirstOfBox(GrownMins(pe), GrownMaxs(pe));
    }
  }

  lemma FirstOfBox(mins: Vec, maxs: Vec)
    ensures HullOfBox(mins, maxs).first == 0
  {
  }

  predicate Touching(pe: PhysEnt, p: Vec)
    requires ProperEnt(pe)
  {
    EntHullIsWellFormed(pe);
    TouchesSolid(EntHull(pe), EntHull(pe).first, Sub(p, EntOffset(pe)))
  }

  /** A position the player may be in. */
  predicate Free(ents: seq<PhysEnt>, p: Vec)
    requires ProperWorld(ents)
  {
    forall i | 0 <= i < |ents| :: !Stuck(ents[i], p)
  }

  ghost predicate FreeSegment(ents: seq<PhysEnt>, p: Vec, q: Vec)
    requires ProperWorld(ents)
  {
    forall s | 0.0 <= s <= 1.0 :: Free(ents, Lerp(p, q, s))
  }

  /** PM_TestPlayerPosition */
  method TestPlayerPosition(ents: seq<PhysEnt>, box: BoxStorage, pos: Vec) returns (free: bool)
    requires ProperWorld(ents) && box.Valid()
    modifies box.planes
    ensures box.Valid() && free == Free(ents, pos)
  {
    for i := 0 to |ents|
      invariant box.Valid()
      invariant forall j | 0 <= j < i :: !Stuck(ents[j], pos)
    {
      var pe := ents[i];
      EntHullIsWellFormed(pe);
      var hull, offset;
      if pe.model.Some? {
        hull := pe.model.value.hull1;
        offset := Add(Sub(pe.model.value.clipMins, PLAYER_MINS), pe.origin);
      } else {
        hull := box.HullForBox(Sub(pe.mins, PLAYER_MAXS), Sub(pe.maxs, PLAYER_MINS));
        offset := pe.origin;
      }
      var contents := HullPointContents(hull, hull.first, Sub(pos, offset));
      if contents == CONTENTS_SOLID {
        assert Stuck(ents[i], pos);
        return false;
      }
    }
    free := true;
  }

  // ---------- Culling ----------

  function LowerBound(s: real, e: real): real {
    if e > s then s - 1.0 else e - 1.0
  }

  function UpperBound(s: real, e: real): real {
    if e > s then e + 1.0 else s + 1.0
  }

  /** PM_TraceBounds: a box one unit larger than the segment. */
  function TraceMins(start: Vec, end: Vec): Vec {
    Vec(LowerBound(start.x, end.x), LowerBound(start.y, end.y), LowerBound(start.z, end.z))
  }

  function TraceMaxs(start: Vec, end: Vec): Vec {
    Vec(UpperBound(start.x, end.x), UpperBound(start.y, end.y), UpperBound(start.z, end.z))
  }

  /** PM_CullTraceBox: the boxes are apart along some axis. */
  predicate CullTraceBox(mins: Vec, maxs: Vec, offset: Vec, emins: Vec, emaxs: Vec, hullmins: Vec, hullmaxs: Vec) {
    mins.x + hullmins.x > offset.x + emaxs.x || maxs.x + hullmaxs.x < offset.x + emins.x ||
    mins.y + hullmins.y > offset.y + emaxs.y || maxs.y + hullmaxs.y < offset.y + emins.y ||
    mins.z + hullmins.z > offset.z + emaxs.z || maxs.z + hullmaxs.z < offset.z + emins.z
  }

  predicate Culled(i: nat, pe: PhysEnt, start: Vec, end: Vec) {
    var mins, maxs := TraceMins(start, end), TraceMaxs(start, end);
    match pe.model
    case Some(m) => i > 0 && CullTraceBox(mins, maxs, pe.origin, m.mins, m.maxs, m.clipMins, m.clipMaxs)
    case None => CullTraceBox(mins, maxs, pe.origin, GrownMins(pe), GrownMaxs(pe), ORIGIN, ORIGIN)
  }

  /** What culling relies on for a brush model: where its player hull is solid, the clip box
      at that place is within one unit of the model's bounds. */
  ghost predicate SolidWithinBounds(pe: PhysEnt)
    requires ProperEnt(pe)
  {
    pe.model.Some? ==>
      forall p | Touching(pe, p) ::
        var m := pe.model.value;
        && p.x + m.clipMins.x <= pe.origin.x + m.maxs.x + 1.0 && p.x + m.clipMaxs.x >= pe.origin.x + m.mins.x - 1.0
        && p.y + m.clipMins.y <= pe.origin.y + m.maxs.y + 1.0 && p.y + m.clipMaxs.y >= pe.origin.y + m.mins.y - 1.0
        && p.z + m.clipMins.z <= pe.origin.z + m.maxs.z + 1.0 && p.z + m.clipMaxs.z >= pe.origin.z + m.mins.z - 1.0
  }

  ghost predicate GoodWorld(ents: seq<PhysEnt>) {
    && ProperWorld(ents)
    && forall i | 0 < i < |ents| :: SolidWithinBounds(ents[i])
  }

  lemma BetweenInBounds(s: real, e: real, k: real)
    requires 0.0 <= k <= 1.0
    ensures LowerBound(s, e) + 1.0 <= Between(s, e, k) <= UpperBound(s, e) - 1.0
  {
    if e > s {
      ProductSign(e - s, k);
      ProductSign(e - s, 1.0 - k);
    } else {
      ProductSign(s - e, k);
      ProductSign(s - e, 1.0 - k);
    }
  }

  /** No point of a segment touches the solid of an entity culled from it. */
  lemma CulledIsClear(ents: seq<PhysEnt>, i: nat, start: Vec, end: Vec, s: real)
    requires GoodWorld(ents) && i < |ents| && Culled(i, ents[i], start, end) && 0.0 <= s <= 1.0
    ensures !Touching(ents[i], Lerp(start, end, s))
  {
    hide Between, TouchesSolid, LowerBound, UpperBound;
    var pe, p := ents[i], Lerp(start, end, s);
    BetweenInBounds(start.x, end.x, s);
    BetweenInBounds(start.y, end.y, s);
    BetweenInBounds(start.z, end.z, s);
    if pe.model.Some? {
      assert SolidWithinBounds(pe);
    } else {
      BoxIsSolidInside(GrownMins(pe), GrownMaxs(pe), Sub(p, pe.origin));
    }
  }

  // ---------- The trace against one entity ----------

  /** The trace through an entity's hull, moved back into the world. */
  function EntTrace(pe: PhysEnt, start: Vec, end: Vec): Trace
    requires ProperEnt(pe)
  {
    EntHullIsWellFormed(pe);
    var t := Traced(EntHull(pe), Sub(start, EntOffset(pe)), Sub(end, EntOffset(pe)));
    var moved := t.(endpos := Add(t.endpos, EntOffset(pe)));
    var fixed := if moved.allsolid then moved.(startsolid := true) else moved;
    if fixed.startsolid then fixed.(fraction := 0.0) else fixed
  }

  lemma LerpMoved(a: Vec, b: Vec, o: Vec, s: real)
    ensures Sub(Lerp(a, b, s), o) == Lerp(Sub(a, o), Sub(b, o), s)
    ensures Add(Lerp(Sub(a, o), Sub(b, o), s), o) == Lerp(a, b, s)
  {
  }

  lemma EntTraceMeaning(pe: PhysEnt, start: Vec, end: Vec)
    requires ProperEnt(pe)
    ensures var t := EntTrace(pe, start, end);
            && 0.0 <= t.fraction <= 1.0
            && (t.allsolid ==> t.startsolid)
            && (t.startsolid <==> Stuck(pe, start))
            && (t.startsolid ==> t.fraction == 0.0)
            && (!t.startsolid ==> t.endpos == Lerp(start, end, t.fraction))
            && (!t.startsolid ==> forall s | 0.0 <= s <= t.fraction :: !Stuck(pe, Lerp(start, end, s)))
  {
    hide Lerp, Sub, Add, Contents, TouchesSolid, Traced, Dot;
    EntHullIsWellFormed(pe);
    var h, o := EntHull(pe), EntOffset(pe);
    TraceIsSound(h, Sub(start, o), Sub(end, o));
    var t := Traced(h, Sub(start, o), Sub(end, o));
    if t.allsolid {
      LerpEnds(Sub(start, o), Sub(end, o));
      assert Solid(h, h.first, Lerp(Sub(start, o), Sub(end, o), 0.0));
    }
    LerpMoved(start, end, o, t.fraction);
    forall s | 0.0 <= s <= t.fraction && !t.startsolid ensures !Stuck(pe, Lerp(start, end, s)) {
      LerpMoved(start, end, o, s);
    }
  }

  lemma EntTraceMeetsSolid(pe: PhysEnt, start: Vec, end: Vec, s: real)
    requires ProperEnt(pe) && 0.0 <= s <= 1.0 && Stuck(pe, Lerp(start, end, s))
    ensures var t := EntTrace(pe, start, end);
            t.startsolid || t.fraction < s
  {
    hide Lerp, Sub, Add, Contents, TouchesSolid, Traced, Dot;
    EntHullIsWellFormed(pe);
    var h, o := EntHull(pe), EntOffset(pe);
    LerpMoved(start, end, o, s);
    SolidStops(h, Sub(start, o), Sub(end, o), s);
  }

  lemma UntouchedIsCrossed(pe: PhysEnt, start: Vec, end: Vec)
    requires ProperEnt(pe)
    requires forall s | 0.0 <= s <= 1.0 :: !Touching(pe, Lerp(start, end, s))
    ensures EntTrace(pe, start, end).fraction == 1.0
  {
    hide Lerp, Sub, Add, Contents, TouchesSolid, Traced, Dot;
    EntHullIsWellFormed(pe);
    var h, o := EntHull(pe), EntOffset(pe);
    forall s | 0.0 <= s <= 1.0 ensures !TouchesSolid(h, h.first, Lerp(Sub(start, o), Sub(end, o), s)) {
      LerpMoved(start, end, o, s);
      assert !Touching(pe, Lerp(start, end, s));
    }
    ClearOfSolid(h, Sub(start, o), Sub(end, o));
  }

  // ---------- PM_PlayerTrace ----------

  /** The nearest of the traces against the first n entities, the earlier on a tie. */
  function TraceAgainst(ents: seq<PhysEnt>, n: nat, start: Vec, end: Vec, cull: bool): Trace
    requires ProperWorld(ents) && n <= |ents|
  {
    if n == 0 then InitialTrace(end).(entnum := -1)
    else
      var total := TraceAgainst(ents, n - 1, start, end, cull);
      if cull && Culled(n - 1, ents[n - 1], start, end) then total
      else
        var t := EntTrace(ents[n - 1], start, end);
        if t.fraction < total.fraction then t.(entnum := n - 1) else total
  }

  function PlayerTraced(ents: seq<PhysEnt>, start: Vec, end: Vec): Trace
    requires ProperWorld(ents)
  {
    TraceAgainst(ents, |ents|, start, end, true)
  }

  method PlayerTrace(ents: seq<PhysEnt>, box: BoxStorage, start: Vec, end: Vec) returns (total: Trace)
    requires ProperWorld(ents) && box.Valid()
    modifies box.planes
    ensures box.Valid() && total == PlayerTraced(ents, start, end)
  {
    hide Lerp, Contents, Walk, Traced, SoundTrace;
    total := InitialTrace(end).(entnum := -1);
    var tracemins, tracemaxs := TraceMins(start, end), TraceMaxs(start, end);
    for i := 0 to |ents|
      invariant box.Valid()
      invariant total == TraceAgainst(ents, i, start, end, true)
    {
      var pe := ents[i];
      EntHullIsWellFormed(pe);
      var hull, offset;
      if pe.model.Some? {
        var m := pe.model.value;
        hull := m.hull1;
        if i > 0 && CullTraceBox(tracemins, tracemaxs, pe.origin, m.mins, m.maxs, m.clipMins, m.clipMaxs) {
          continue;
        }
        offset := Add(Sub(m.clipMins, PLAYER_MINS), pe.origin);
      } else {
        var mins, maxs := Sub(pe.mins, PLAYER_MAXS), Sub(pe.maxs, PLAYER_MINS);
        if CullTraceBox(tracemins, tracemaxs, pe.origin, mins, maxs, ORIGIN, ORIGIN) {
          continue;
        }
        hull := box.HullForBox(mins, maxs);
        offset := pe.origin;
      }
      var trace := HullTrace(hull, Sub(start, offset), Sub(end, offset));
      trace := trace.(endpos := Add(trace.endpos, offset));
      if trace.allsolid {
        trace := trace.(startsolid := true);
      }
      if trace.startsolid {
        trace := trace.(fraction := 0.0);
      }
      if trace.fraction < total.fraction {
        total := trace.(entnum := i);
      }
    }
  }

  lemma {:induction false} FractionAtMostOne(ents: seq<PhysEnt>, n: nat, start: Vec, end: Vec, cull: bool)
    requires ProperWorld(ents) && n <= |ents|
    ensures 0.0 <= TraceAgainst(ents, n, start, end, cull).fraction <= 1.0
  {
    hide EntTrace, Culled;
    if n > 0 {
      FractionAtMostOne(ents, n - 1, start, end, cull);
      EntTraceMeaning(ents[n - 1], start, end);
    }
  }

  /** Culling changes nothing: the trace is the one against every entity. */
  lemma {:induction false} CullingChangesNothing(ents: seq<PhysEnt>, n: nat, start: Vec, end: Vec)
    requires GoodWorld(ents) && n <= |ents|
    ensures TraceAgainst(ents, n, start, end, true) == TraceAgainst(ents, n, start, end, false)
  {
    hide EntTrace, Culled, Lerp, Touching;
    if n > 0 {
      CullingChangesNothing(ents, n - 1, start, end);
      FractionAtMostOne(ents, n - 1, start, end, false);
      if Culled(n - 1, ents[n - 1], start, end) {
        forall s | 0.0 <= s <= 1.0 ensures !Touching(ents[n - 1], Lerp(start, end, s)) {
          CulledIsClear(ents, n - 1, start, end, s);
        }
        UntouchedIsCrossed(ents[n - 1], start, end);
      }
    }
  }

  /** From a free start, the part of the segment traversed is free of every entity. */
  ghost predicate SafeTrace(ents: seq<PhysEnt>, n: nat, start: Vec, end: Vec, t: Trace)
    requires ProperWorld(ents) && n <= |ents|
  {
    && 0.0 <= t.fraction <= 1.0
    && ((forall i | 0 <= i < n :: !Stuck(ents[i], start)) ==>
          && !t.startsolid && !t.allsolid && t.endpos == Lerp(start, end, t.fraction)
          && forall i, s | 0 <= i < n && 0.0 <= s <= t.fraction :: !Stuck(ents[i], Lerp(start, end, s)))
    && ((exists i :: 0 <= i < n && Stuck(ents[i], start)) ==> t.fraction == 0.0)
    && (t.allsolid ==> t.startsolid)
    && (!t.startsolid ==> t.endpos == Lerp(start, end, t.fraction))
  }

  lemma {:induction false} TraceAgainstIsSafe(ents: seq<PhysEnt>, n: nat, start: Vec, end: Vec)
    requires ProperWorld(ents) && n <= |ents|
    ensures SafeTrace(ents, n, start, end, TraceAgainst(ents, n, start, end, false))
  {
    hide EntTrace, Culled, Lerp, Stuck;
    if n == 0 {
      LerpEnds(start, end);
    } else {
      TraceAgainstIsSafe(ents, n - 1, start, end);
      EntTraceMeaning(ents[n - 1], start, end);
    }
  }

  /** PM_PlayerTrace from a free position: it never starts in solid, it ends at the returned fraction of the way,
      and every position up to there is free. From a position in solid it does not move. */
  lemma PlayerTraceIsSafe(ents: seq<PhysEnt>, start: Vec, end: Vec)
    requires GoodWorld(ents)
    ensures var t := PlayerTraced(ents, start, end);
            && 0.0 <= t.fraction <= 1.0
            && (Free(ents, start) ==>
                  && !t.startsolid && !t.allsolid && t.endpos == Lerp(start, end, t.fraction)
                  && (forall s | 0.0 <= s <= t.fraction :: Free(ents, Lerp(start, end, s)))
                  && FreeSegment(ents, start, t.endpos))
            && (!Free(ents, start) ==> t.fraction == 0.0 && (!t.startsolid ==> t.endpos == start))
            && (t.allsolid ==> t.startsolid)
  {
    CullingChangesNothing(ents, |ents|, start, end);
    TraceAgainstIsSafe(ents, |ents|, start, end);
    LerpEnds(start, end);
    hide Lerp, Stuck, Between, TraceAgainst;
    var t := PlayerTraced(ents, start, end);
    if Free(ents, start) {
      forall s | 0.0 <= s <= 1.0 ensures Free(ents, Lerp(start, t.endpos, s)) {
        PartOfTrace(start, end, t.fraction, s);
      }
    }
  }

  lemma PartOfTrace(start: Vec, end: Vec, f: real, s: real)
    requires 0.0 <= f && 0.0 <= s <= 1.0
    ensures Lerp(start, Lerp(start, end, f), s) == Lerp(start, end, Between(0.0, f, s))
    ensures 0.0 <= Between(0.0, f, s) <= f
  {
    LerpEnds(start, end);
    LerpOfLerps(start, end, 0.0, f, s);
    ProductSign(f, s);
    ProductSign(f, 1.0 - s);
  }

  /** And it stops before any entity on the way. */
  lemma {:induction false} TraceStopsAtSolid(ents: seq<PhysEnt>, n: nat, i: nat, start: Vec, end: Vec, s: real)
    requires ProperWorld(ents) && i < n <= |ents| && 0.0 <= s <= 1.0 && Stuck(ents[i], Lerp(start, end, s))
    ensures var t := TraceAgainst(ents, n, start, end, false);
            t.fraction < s || t.fraction == 0.0
  {
    hide EntTrace, Culled, Lerp, Stuck;
    FractionAtMostOne(ents, n - 1, start, end, false);
    EntTraceMeaning(ents[n - 1], start, end);
    if i == n - 1 {
      EntTraceMeetsSolid(ents[i], start, end, s);
    } else {
      TraceStopsAtSolid(ents, n - 1, i, start, end, s);
    }
  }

  lemma PlayerTraceStopsAtSolid(ents: seq<PhysEnt>, start: Vec, end: Vec, s: real)
    requires GoodWorld(ents) && 0.0 <= s <= 1.0 && !Free(ents, Lerp(start, end, s))
    ensures var t := PlayerTraced(ents, start, end);
            t.fraction < s || t.fraction == 0.0
  {
    hide Lerp, Stuck;
    CullingChangesNothing(ents, |ents|, start, end);
    var i :| 0 <= i < |ents| && Stuck(ents[i], Lerp(start, end, s));
    TraceStopsAtSolid(ents, |ents|, i, start, end, s);
  }

  /** The trace is that against the first of the entities that stop it soonest; none stops it sooner. */
  ghost predicate IsLeast(ents: seq<PhysEnt>, n: nat, start: Vec, end: Vec, t: Trace)
    requires ProperWorld(ents) && n <= |ents|
  {
    && (forall i | 0 <= i < n :: EntTrace(ents[i], start, end).fraction >= t.fraction)
    && if t.entnum == -1 then t == InitialTrace(end).(entnum := -1)
       else
         && 0 <= t.entnum < n && t.fraction < 1.0
         && t == EntTrace(ents[t.entnum], start, end).(entnum := t.entnum)
         && forall i | 0 <= i < t.entnum :: EntTrace(ents[i], start, end).fraction > t.fraction
  }

  lemma {:induction false} TraceAgainstIsLeast(ents: seq<PhysEnt>, n: nat, start: Vec, end: Vec)
    requires ProperWorld(ents) && n <= |ents|
    ensures IsLeast(ents, n, start, end, TraceAgainst(ents, n, start, end, false))
  {
    hide EntTrace, Culled;
    if n > 0 {
      TraceAgainstIsLeast(ents, n - 1, start, end);
      EntTraceMeaning(ents[n - 1], start, end);
    }
  }

  /** What stops the player is the nearest entity, and the player is left just in front of a plane of its hull. */
  lemma PlayerTraceStopsAtNearest(ents: seq<PhysEnt>, start: Vec, end: Vec)
    requires GoodWorld(ents)
    ensures var t := PlayerTraced(ents, start, end);
            && IsLeast(ents, |ents|, start, end, t)
            && (t.fraction < 1.0 && !t.startsolid ==>
                  && 0 <= t.entnum < |ents|
                  && var h, o := EntHull(ents[t.entnum]), EntOffset(ents[t.entnum]);
                     && WellFormed(h)
                     && StopsBefore(h, h.first, Sub(start, o), Sub(end, o), 0.0, 1.0, t.(endpos := Sub(t.endpos, o))))
  {
    CullingChangesNothing(ents, |ents|, start, end);
    TraceAgainstIsLeast(ents, |ents|, start, end);
    var t := PlayerTraced(ents, start, end);
    if t.fraction < 1.0 && !t.startsolid {
      EntTraceStops(ents[t.entnum], start, end, t.entnum);
    }
  }

  lemma EntTraceStops(pe: PhysEnt, start: Vec, end: Vec, entnum: int)
    requires ProperEnt(pe)
    ensures var t, h, o := EntTrace(pe, start, end).(entnum := entnum), EntHull(pe), EntOffset(pe);
            && WellFormed(h)
            && (t.fraction < 1.0 && !t.startsolid ==>
                  StopsBefore(h, h.first, Sub(start, o), Sub(end, o), 0.0, 1.0, t.(endpos := Sub(t.endpos, o))))
  {
    hide Lerp, Contents, Traced, AtPlane, Crosses, EntHull;
    EntHullIsWellFormed(pe);
    var t, h, o := EntTrace(pe, start, end), EntHull(pe), EntOffset(pe);
    var u := Traced(h, Sub(start, o), Sub(end, o));
    TraceIsSound(h, Sub(start, o), Sub(end, o));
    if t.fraction < 1.0 && !t.startsolid {
      assert Sub(Add(u.endpos, o), o) == u.endpos;
      EntnumIsNothing(h, Sub(start, o), Sub(end, o), u, t.(entnum := entnum, endpos := u.endpos));
    }
  }

  lemma EntnumIsNothing(h: Hull, start: Vec, end: Vec, t: Trace, u: Trace)
    requires WellFormed(h) && u == t.(entnum := u.entnum) && StopsBefore(h, h.first, start, end, 0.0, 1.0, t)
    ensures StopsBefore(h, h.first, start, end, 0.0, 1.0, u)
  {
    hide Lerp, Contents, TouchesSolid, Crosses, Dot, Sub, Scale;
    var pl, p, m :| StopsAt(h, h.first, start, end, 0.0, 1.0, t, pl, p, m);
    assert StopsAt(h, h.first, start, end, 0.0, 1.0, u, pl, p, m);
  }
}
