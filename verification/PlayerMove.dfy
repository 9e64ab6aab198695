/** Player movement: how sliding, stepping, nudging and snapping to the ground move the origin. */
module PlayerMove {
  import opened Options
  import opened Geometry
  import opened Hulls
  import opened BoxHull
  import opened Collision
  import opened Slides

  datatype PmType = Normal | OldSpectator | Spectator | Dead | Fly | Immobile | Lock

  // ---------- Positions that free segments link ----------

  /** The player can be brought from a to b along segments that stay free. */
  ghost predicate Linked(ents: seq<PhysEnt>, a: Vec, b: Vec)
    requires ProperWorld(ents)
  {
    exists path: seq<Vec> :: FreePath(ents, path, a, b)
  }

  ghost predicate FreePath(ents: seq<PhysEnt>, path: seq<Vec>, a: Vec, b: Vec)
    requires ProperWorld(ents)
  {
    && path != [] && path[0] == a && path[|path| - 1] == b && Free(ents, a)
    && forall i | 0 <= i < |path| - 1 :: FreeSegment(ents, path[i], path[i + 1])
  }

  /** A free position stays linked to where it came from; one in solid does not move. */
  ghost predicate Kept(ents: seq<PhysEnt>, a: Vec, b: Vec)
    requires ProperWorld(ents)
  {
    if Free(ents, a) then Linked(ents, a, b) else a == b
  }

  lemma KeptByItself(ents: seq<PhysEnt>, a: Vec)
    requires ProperWorld(ents)
    ensures Kept(ents, a, a)
  {
    if Free(ents, a) {
      assert FreePath(ents, [a], a, a);
    }
  }

  lemma LinkedIsFree(ents: seq<PhysEnt>, a: Vec, b: Vec)
    requires ProperWorld(ents) && Linked(ents, a, b)
    ensures Free(ents, a) && Free(ents, b)
  {
    hide Free, Lerp;
    var path :| FreePath(ents, path, a, b);
    if |path| > 1 {
      var i := |path| - 2;
      assert FreeSegment(ents, path[i], path[i + 1]);
      LerpEnds(path[i], path[i + 1]);
      assert Free(ents, Lerp(path[i], path[i + 1], 1.0));
    }
  }

  lemma LinkedThenSegment(ents: seq<PhysEnt>, a: Vec, b: Vec, c: Vec)
    requires ProperWorld(ents) && Linked(ents, a, b) && FreeSegment(ents, b, c)
    ensures Linked(ents, a, c)
  {
    hide Free, FreeSegment;
    var path :| FreePath(ents, path, a, b);
    assert FreePath(ents, path + [c], a, c);
  }

  lemma KeptTwice(ents: seq<PhysEnt>, a: Vec, b: Vec, c: Vec)
    requires ProperWorld(ents) && Kept(ents, a, b) && Kept(ents, b, c)
    ensures Kept(ents, a, c)
  {
    if Free(ents, a) {
      LinkedIsFree(ents, a, b);
      hide Free, FreeSegment;
      var p :| FreePath(ents, p, a, b);
      var q :| FreePath(ents, q, b, c);
      var r := p + q[1..];
      forall i | 0 <= i < |r| - 1 ensures FreeSegment(ents, r[i], r[i + 1]) {
        if i >= |p| - 1 {
          var j := i - (|p| - 1);
          assert r[i] == q[j] && r[i + 1] == q[j + 1];
        }
      }
      assert FreePath(ents, r, a, c);
    }
  }

  /** Where a trace ends is kept from where it started. */
  lemma TracedIsKept(ents: seq<PhysEnt>, start: Vec, end: Vec)
    requires GoodWorld(ents)
    ensures var t := PlayerTraced(ents, start, end);
            !t.startsolid ==> Kept(ents, start, t.endpos)
  {
    hide Lerp, Free, TraceAgainst, FreeSegment;
    PlayerTraceIsSafe(ents, start, end);
    KeptByItself(ents, start);
    var t := PlayerTraced(ents, start, end);
    if Free(ents, start) {
      LinkedThenSegment(ents, start, start, t.endpos);
    }
  }

  // ---------- Turning the velocity ----------

  /** The loops of PM_SlideMove that turn the velocity along the planes met: along the first plane whose
      direction leaves the others, else along the crease of two; None when there is no crease. */
  method AlongPlanes(original: Vec, planes: seq<Vec>) returns (velocity: Option<Vec>)
    requires planes != []
    ensures forall i | 0 <= i < |planes| && LeavesOthers(original, planes, i)
            && (forall k | 0 <= k < i :: !LeavesOthers(original, planes, k)) ::
              velocity == Some(ClipVelocity(original, planes[i]))
    ensures (forall i | 0 <= i < |planes| :: !LeavesOthers(original, planes, i)) ==>
              if |planes| != 2 then velocity == None
              else
                var dir := CrossProduct(planes[0], planes[1]);
                velocity == Some(Scale(dir, Dot(dir, ClipVelocity(original, planes[1]))))
    ensures velocity == Along(original, planes)
  {
    hide Dot, ClipVelocity, CrossProduct, Scale;
    var v := original;
    for i := 0 to |planes|
      invariant forall k | 0 <= k < i :: !LeavesOthers(original, planes, k)
      invariant i > 0 ==> v == ClipVelocity(original, planes[i - 1])
    {
      v := ClipVelocity(original, planes[i]);
      var j := 0;
      while j < |planes|
        invariant j <= |planes|
        invariant forall k | 0 <= k < j && k != i :: Dot(v, planes[k]) >= 0.0
      {
        if j != i && Dot(v, planes[j]) < 0.0 {
          break;
        }
        j := j + 1;
      }
      if j == |planes| {
        assert LeavesOthers(original, planes, i);
        FirstLeavingIs(original, planes, 0, i);
        return Some(v);
      }
    }
    FirstLeavingIs(original, planes, 0, |planes|);
    if |planes| != 2 {
      return None;
    }
    var dir := CrossProduct(planes[0], planes[1]);
    velocity := Some(Scale(dir, Dot(dir, v)));
  }

  // ---------- Stepping and standing ----------

  /** How deep in water a player at height z is, and in what: water reaches the feet, the middle or the eyes. */
  function WaterAt(hull: Hull, x: real, y: real, z: real): (nat, int)
    requires WellFormed(hull)
  {
    var feet := Contents(hull, hull.first, Vec(x, y, z - 23.0));
    if feet > CONTENTS_WATER then (0, CONTENTS_EMPTY)
    else if Contents(hull, hull.first, Vec(x, y, z + 4.0)) > CONTENTS_WATER then (1, feet)
    else if Contents(hull, hull.first, Vec(x, y, z + 22.0)) > CONTENTS_WATER then (2, feet)
    else (3, feet)
  }

  // ---------- Nudging a player out of solid ----------

  /** ((int)(x * 8)) * 0.125 */
  function CutToEighth(x: real): real {
    (if x >= 0.0 then (x * 8.0).Floor else -((-x * 8.0).Floor)) as real * 0.125
  }

  type signindex = i: int | 0 <= i < 3

  function Sign(i: signindex): real {
    if i == 0 then 0.0 else if i == 1 then -1.0 else 1.0
  }

  function Eighth(base: Vec, x: signindex, y: signindex, z: signindex): Vec {
    Vec(base.x + Sign(x) * 0.125, base.y + Sign(y) * 0.125, base.z + Sign(z) * 0.125)
  }

  function Raised(base: Vec, z: nat): Vec {
    Vec(base.x, base.y, base.z + z as real)
  }

  const NUDGES := 45

  /** The positions PM_NudgePosition tries, in order. */
  function Nudged(base: Vec, n: nat): Vec {
    if n < 27 then Eighth(base, n % 3, n / 3 % 3, n / 9 % 3) else Raised(base, n - 26)
  }

  /** The first 27 are an eighth of a unit away or none on every axis, x before y before z, down before up. */
  lemma EighthIsNudged(base: Vec, x: signindex, y: signindex, z: signindex)
    ensures Nudged(base, 9 * z + 3 * y + x) == Eighth(base, x, y, z)
    ensures var offset := [0.0, -0.125, 0.125];
            Nudged(base, 9 * z + 3 * y + x) == Add(base, Vec(offset[x], offset[y], offset[z]))
    ensures Eighth(base, 0, 0, 0) == base
  {
  }

  ghost predicate NoneFree(ents: seq<PhysEnt>, base: Vec, n: nat)
    requires ProperWorld(ents)
  {
    forall m: nat | m < n :: !Free(ents, Nudged(base, m))
  }

  ghost predicate IsFirstFreeNudge(ents: seq<PhysEnt>, base: Vec, p: Vec)
    requires ProperWorld(ents)
  {
    exists n: nat :: n < NUDGES && p == Nudged(base, n) && Free(ents, p) && NoneFree(ents, base, n)
  }

  ghost predicate IsNudge(base: Vec, p: Vec) {
    exists n: nat :: n < NUDGES && p == Nudged(base, n)
  }

  /** From a free position the player is linked to the new one. From one in solid, it either stays,
      or is nudged to a free position and linked to the new one from there. */
  ghost predicate Moved(ents: seq<PhysEnt>, a: Vec, b: Vec)
    requires ProperWorld(ents)
  {
    if Free(ents, a) then Linked(ents, a, b)
    else a == b || exists n :: IsNudge(a, n) && Linked(ents, n, b)
  }

  lemma KeptIsMoved(ents: seq<PhysEnt>, base: Vec, nudged: Vec, b: Vec)
    requires ProperWorld(ents) && Kept(ents, nudged, b)
    requires Free(ents, base) ==> nudged == base
    requires nudged == base || IsFirstFreeNudge(ents, base, nudged)
    ensures Moved(ents, base, b)
  {
    hide Free;
  }

  /** So a player who was not in solid is not in solid afterwards. */
  lemma MovedStaysFree(ents: seq<PhysEnt>, a: Vec, b: Vec)
    requires ProperWorld(ents) && Moved(ents, a, b)
    ensures Free(ents, a) ==> Free(ents, b)
    ensures Free(ents, b) || b == a
  {
    hide Free;
    if Free(ents, a) {
      LinkedIsFree(ents, a, b);
    } else if a != b {
      var n :| IsNudge(a, n) && Linked(ents, n, b);
      LinkedIsFree(ents, n, b);
    }
  }

  /** movevars_t, as far as the flow of the origin depends on it. */
  datatype MoveVars = MoveVars(slidefix: bool, airstep: bool, pground: bool)

  // ---------- Finding the ground ----------

  /** What is just below a position. */
  function Below(ents: seq<PhysEnt>, p: Vec): Trace
    requires ProperWorld(ents)
  {
    PlayerTraced(ents, p, Add(p, Vec(0.0, 0.0, -1.0)))
  }

  /** Whether a player at p is on the ground, and where it is once snapped to it. */
  function Grounded(ents: seq<PhysEnt>, vars: MoveVars, pmType: PmType, rise: real, onground: bool, p: Vec): (Vec, bool)
    requires ProperWorld(ents)
  {
    var ground := Below(ents, p);
    var stands := rise <= 180.0 && (!vars.pground || onground) && StandsOn(ground);
    var level := WaterAt(ents[0].model.value.hull0, p.x, p.y, p.z).0;
    (if stands && !vars.pground && pmType != Fly && level < 2 && !ground.startsolid then ground.endpos else p, stands)
  }

  /** A player who is snapped to the ground comes straight down, no more than a unit, to just above what stops it. */
  lemma SnappedRests(ents: seq<PhysEnt>, vars: MoveVars, pmType: PmType, rise: real, onground: bool, p: Vec)
    requires GoodWorld(ents) && Free(ents, p)
    ensures var (q, stands) := Grounded(ents, vars, pmType, rise, onground, p);
            var level, t := WaterAt(ents[0].model.value.hull0, p.x, p.y, p.z).0, Below(ents, p);
            if stands && !vars.pground && pmType != Fly && level < 2 then
              && q.x == p.x && q.y == p.y && p.z - 1.0 <= q.z <= p.z
              && 0 <= t.entnum < |ents|
              && var h, o := EntHull(ents[t.entnum]), EntOffset(ents[t.entnum]);
                 && WellFormed(h)
                 && StopsBefore(h, h.first, Sub(p, o), Sub(Add(p, Vec(0.0, 0.0, -1.0)), o), 0.0, 1.0,
                                t.(endpos := Sub(q, o)))
            else q == p
  {
    hide WaterAt, PlayerTraced, Free, EntHull, EntOffset, StopsBefore, SolidWithinBounds, WellFormed, IsLeast;
    var down := Add(p, Vec(0.0, 0.0, -1.0));
    PlayerTraceIsSafe(ents, p, down);
    PlayerTraceStopsAtNearest(ents, p, down);
  }

  function Contacts(ents: seq<PhysEnt>, tests: bool, p: Vec, touched: seq<int>): seq<int>
    requires ProperWorld(ents)
  {
    if tests && Below(ents, p).entnum > 0 then WithTouched(touched, Below(ents, p).entnum) else touched
  }

  // ---------- Where a move leads ----------

  /** The velocity and flags that friction, acceleration, jumping and gravity leave; any values whatever. */
  datatype Impulse = Impulse(velocity: Vec, onground: bool, waterjumptime: real)

  /** A player on the ground who has no speed along it stays. */
  predicate Idle(onground: bool, drive: Vec) {
    onground && drive.x == 0.0 && drive.y == 0.0
  }

  /** PM_AirMove: how the player slides, and whether it is then on the ground. */
  function AirMoved(ents: seq<PhysEnt>, vars: MoveVars, origin: Vec, drive: Vec, time: real, jumping: bool,
                    touched: seq<int>, onground: bool, waterlevel: nat): (Slide, bool)
    requires ProperWorld(ents)
  {
    if Idle(onground, drive) then (Slide(origin, ORIGIN, UNBLOCKED, touched), true)
    else if onground then (StepSlid(ents, origin, drive, time, jumping, touched, false, false), true)
    else
      var s := if vars.airstep then StepSlid(ents, origin, drive, time, jumping, touched, true, waterlevel < 2)
               else Slid(ents, origin, drive, time, jumping, touched);
      (s, vars.pground && s.blocked.floor)
  }

  /** The part of PM_PlayerMove between finding the ground twice. */
  function Driven(ents: seq<PhysEnt>, vars: MoveVars, pmType: PmType, waterlevel: nat, placed: Vec, jump: Impulse,
                  drive: Vec, time: real, touched: seq<int>): (Slide, bool)
    requires ProperWorld(ents)
  {
    var jumping := jump.waterjumptime != 0.0;
    if waterlevel >= 2 || pmType == Fly then
      (StepSlid(ents, placed, drive, time, jumping, touched, false, !jump.onground && waterlevel < 2), jump.onground)
    else AirMoved(ents, vars, placed, drive, time, jumping, touched, jump.onground, waterlevel)
  }

  /** Where the way is open, the player goes all of it, unless it stands idle; where it is not, it may step over what it
      meets, but in the air only if that is enabled. */
  lemma DrivenWhole(ents: seq<PhysEnt>, vars: MoveVars, pmType: PmType, waterlevel: nat, placed: Vec, jump: Impulse,
                    drive: Vec, time: real, touched: seq<int>)
    requires GoodWorld(ents)
    ensures var s := Driven(ents, vars, pmType, waterlevel, placed, jump, drive, time, touched).0;
            var idle := waterlevel < 2 && pmType != Fly && Idle(jump.onground, drive);
            && (idle ==> s == Slide(placed, ORIGIN, UNBLOCKED, touched))
            && (!idle ==> (s.blocked == UNBLOCKED <==> Whole(ents, placed, drive, time)))
            && (!idle && Whole(ents, placed, drive, time) ==>
                  s == Slide(Add(placed, Scale(drive, time)), drive, UNBLOCKED, touched))
            && (var swims := waterlevel >= 2 || pmType == Fly;
                var slow, jumping := !jump.onground && waterlevel < 2, jump.waterjumptime != 0.0;
                !idle ==>
                  s == if swims || jump.onground || vars.airstep
                       then StepSlid(ents, placed, drive, time, jumping, touched, !swims && !jump.onground, slow)
                       else Slid(ents, placed, drive, time, jumping, touched))
  {
    hide StepSlid, Slid, Whole, Add, Scale;
    var jumping := jump.waterjumptime != 0.0;
    SlideIsWholeExactlyWhen(ents, placed, drive, time, jumping, touched);
    StepLeadsAsFar(ents, placed, drive, time, jumping, touched, false, !jump.onground && waterlevel < 2);
    StepLeadsAsFar(ents, placed, drive, time, jumping, touched, false, false);
    StepLeadsAsFar(ents, placed, drive, time, jumping, touched, true, waterlevel < 2);
  }

  /** How a move leads on: from base to where the player is nudged, to where that is placed, and along the slide from
      there, which goes the whole way exactly if it is open. */
  ghost predicate Leads(
    ents: seq<PhysEnt>, vars: MoveVars, pmType: PmType, rise: real, onground: bool, base: Vec, jump: Impulse,
    drive: Vec, time: real, nudged: Vec, placed: Vec, slid: (Slide, bool))
    requires ProperWorld(ents)
  {
    var level := WaterAt(ents[0].model.value.hull0, nudged.x, nudged.y, nudged.z).0;
    var touched := Contacts(ents, rise <= 180.0 && (!vars.pground || onground), nudged, []);
    var idle := level < 2 && pmType != Fly && Idle(jump.onground, drive);
    && (Free(ents, base) ==> nudged == base)
    && (if Free(ents, nudged) then IsFirstFreeNudge(ents, base, nudged)
        else nudged == base && NoneFree(ents, base, NUDGES))
    && placed == Grounded(ents, vars, pmType, rise, onground, nudged).0
    && slid == Driven(ents, vars, pmType, level, placed, jump, drive, time, touched)
    && (idle ==> slid.0.origin == placed && slid.0.velocity == ORIGIN)
    && (!idle ==> (slid.0.blocked == UNBLOCKED <==> Whole(ents, placed, drive, time)))
    && (!idle && Whole(ents, placed, drive, time) ==>
          slid.0.origin == Add(placed, Scale(drive, time)) && slid.0.velocity == drive)
  }

  lemma NudgedDrivenLeads(
    ents: seq<PhysEnt>, vars: MoveVars, pmType: PmType, rise: real, onground: bool, base: Vec, jump: Impulse,
    drive: Vec, time: real, nudged: Vec, placed: Vec, slid: (Slide, bool))
    requires GoodWorld(ents)
    requires Free(ents, base) ==> nudged == base
    requires if Free(ents, nudged) then IsFirstFreeNudge(ents, base, nudged)
             else nudged == base && NoneFree(ents, base, NUDGES)
    requires placed == Grounded(ents, vars, pmType, rise, onground, nudged).0
    requires slid == Driven(ents, vars, pmType, WaterAt(ents[0].model.value.hull0, nudged.x, nudged.y, nudged.z).0,
                            placed, jump, drive, time,
                            Contacts(ents, rise <= 180.0 && (!vars.pground || onground), nudged, []))
    ensures Leads(ents, vars, pmType, rise, onground, base, jump, drive, time, nudged, placed, slid)
  {
    hide WaterAt, Grounded, Driven, Contacts, Whole, Free, IsFirstFreeNudge, NoneFree, Add, Scale, SolidWithinBounds;
    DrivenWhole(ents, vars, pmType, WaterAt(ents[0].model.value.hull0, nudged.x, nudged.y, nudged.z).0, placed, jump,
                drive, time, Contacts(ents, rise <= 180.0 && (!vars.pground || onground), nudged, []));
  }

  /** A player who lands fast loses the speed into the ground. */
  function Landed(vars: MoveVars, onground: bool, velocity: Vec, ground: TracePlane): Vec {
    if !vars.pground && onground && velocity.z < -300.0 && Dot(velocity, ground.normal) < -0.1
    then ClipVelocity(velocity, ground.normal) else velocity
  }

  // ---------- The player ----------

  /** playermove_t */
  class Mover {
    const ents: seq<PhysEnt>
    const vars: MoveVars
    const box: BoxStorage
    var origin: Vec
    var velocity: Vec
    var pmType: PmType
    var onground: bool
    var groundent: int
    var groundplane: TracePlane
    var waterjumptime: real
    var waterlevel: nat
    var watertype: int
    var frametime: real
    var touched: seq<int>

    ghost predicate Valid()
      reads this, box, box.planes, box.clipnodes
    {
      GoodWorld(ents) && box.Valid()
    }

    constructor (ents: seq<PhysEnt>, vars: MoveVars, origin: Vec, velocity: Vec, pmType: PmType, onground: bool)
      requires GoodWorld(ents)
      ensures Valid() && fresh(box) && fresh(box.planes)
      ensures this.ents == ents && this.vars == vars && this.origin == origin
    {
      this.ents, this.vars, this.origin, this.velocity := ents, vars, origin, velocity;
      this.pmType, this.onground, groundent, groundplane := pmType, onground, 0, TracePlane(ORIGIN, 0.0);
      waterjumptime, waterlevel, watertype, frametime, touched := 0.0, 0, CONTENTS_EMPTY, 0.0, [];
      box := new BoxStorage();
    }

    /** PM_AddTouchedEnt */
    method AddTouchedEnt(num: int)
      modifies this`touched
      ensures touched == if num in old(touched) || |old(touched)| == MAX_PHYSENTS then old(touched)
                         else old(touched) + [num]
      ensures touched == WithTouched(old(touched), num)
    {
      if |touched| == MAX_PHYSENTS {
        return;
      }
      for i := 0 to |touched|
        invariant num !in touched[..i]
      {
        if touched[i] == num {
          return;
        }
      }
      touched := touched + [num];
    }

    /** PM_PlayerTrace, with what its safety means for the origin. */
    method Trace(start: Vec, end: Vec) returns (t: Trace)
      requires Valid()
      modifies box.planes
      ensures Valid() && t == PlayerTraced(ents, start, end)
      ensures 0.0 <= t.fraction <= 1.0
      ensures !t.startsolid ==> Kept(ents, start, t.endpos) && !t.allsolid
      ensures Free(ents, start) ==> !t.startsolid
      ensures !Free(ents, start) ==> t.fraction == 0.0
      ensures t.fraction == 1.0 ==> t.endpos == end
    {
      hide Lerp, Free, FreeSegment, TraceAgainst, Kept;
      LerpEnds(start, end);
      t := PlayerTrace(ents, box, start, end);
      PlayerTraceIsSafe(ents, start, end);
      TracedIsKept(ents, start, end);
    }

    ghost function Now(blocked: Blocked): Slide
      reads this
    {
      Slide(origin, velocity, blocked, touched)
    }

    /** The end of a bump: how the velocity turns along the planes met. */
    method Turn(primal: Vec, planes: seq<Vec>, ghost blocked: Blocked, ghost time: real, normal: Vec)
      returns (goOn: bool, met: seq<Vec>)
      requires Valid()
      modifies this`velocity
      ensures Valid()
      ensures match Turned(primal, old(Now(blocked)), time, planes, normal)
              case Ends(end, trapped) => !goOn && !trapped && Now(blocked) == end
              case GoesOn(next, rest, all) => goOn && Now(blocked) == next && rest == time && all == met
    {
      hide Dot, Along, LeavesOthers, ClipVelocity, CrossProduct, Scale, SolidWithinBounds;
      goOn, met := false, [];
      if |planes| >= MAX_CLIP_PLANES {
        velocity := ORIGIN;
        return;
      }
      met := planes + [normal];
      var along := AlongPlanes(primal, met);
      if along == None {
        velocity := ORIGIN;
        return;
      }
      velocity := along.value;
      if Dot(velocity, primal) <= 0.0 {
        velocity := ORIGIN;
        return;
      }
      goOn := true;
    }

    /** One bump. */
    method Bump(primal: Vec, time: real, planes: seq<Vec>, before: Blocked)
      returns (goOn: bool, trapped: bool, rest: real, met: seq<Vec>, blocked: Blocked)
      requires Valid()
      modifies this`origin, this`velocity, this`touched, box.planes
      ensures Valid() && Kept(ents, old(origin), origin)
      ensures match OneBump(ents, primal, old(Now(before)), time, planes)
              case Ends(end, stuck) => !goOn && Now(blocked) == end && trapped == stuck
              case GoesOn(next, left, all) => goOn && !trapped && Now(blocked) == next && rest == left && met == all
    {
      hide Lerp, Free, PlayerTraced, Kept, Linked, SolidWithinBounds, Add, Scale, Turned, WithTouched;
      goOn, trapped, rest, met, blocked := false, false, time, planes, before;
      KeptByItself(ents, origin);
      var trace := Trace(origin, Add(origin, Scale(velocity, time)));
      if trace.startsolid || trace.allsolid {
        velocity := ORIGIN;
        trapped, blocked := true, Blocked(true, true, false);
        return;
      }
      if trace.fraction > 0.0 {
        origin := trace.endpos;
        met := [];
      }
      if trace.fraction == 1.0 {
        return;
      }
      AddTouchedEnt(trace.entnum);
      if trace.plane.normal.z >= MIN_STEP_NORMAL {
        blocked := blocked.(floor := true);
      } else if trace.plane.normal.z == 0.0 {
        blocked := blocked.(step := true);
      } else {
        blocked := blocked.(other := true);
      }
      rest := TimeLeft(time, trace.fraction);
      goOn, met := Turn(primal, met, blocked, rest, trace.plane.normal);
    }

    /** PM_SlideMove */
    method SlideMove() returns (blocked: Blocked)
      requires Valid()
      modifies this`origin, this`velocity, this`touched, box.planes
      ensures Valid() && Kept(ents, old(origin), origin)
      ensures Now(blocked)
              == Slid(ents, old(origin), old(velocity), frametime, waterjumptime != 0.0, old(touched))
      ensures blocked == UNBLOCKED <==> Whole(ents, old(origin), old(velocity), frametime)
      ensures blocked == UNBLOCKED ==>
                origin == Add(old(origin), Scale(old(velocity), frametime)) && velocity == old(velocity)
    {
      hide Kept, SolidWithinBounds, Add, Scale, OneBump, Bumps, Whole;
      SlideIsWholeExactlyWhen(ents, origin, velocity, frametime, waterjumptime != 0.0, touched);
      var primalVelocity := velocity;
      blocked := UNBLOCKED;
      var planes: seq<Vec> := [];
      var timeLeft := frametime;
      var goOn, trapped := true, false;
      KeptByItself(ents, origin);
      ghost var whole := Bumps(ents, primalVelocity, Now(blocked), timeLeft, planes, 4);
      for bumpcount := 0 to 4
        invariant Valid() && Kept(ents, old(origin), origin) && goOn && !trapped
        invariant whole == Bumps(ents, primalVelocity, Now(blocked), timeLeft, planes, 4 - bumpcount)
      {
        FirstOf(ents, primalVelocity, Now(blocked), timeLeft, planes, 4 - bumpcount);
        ghost var from := origin;
        goOn, trapped, timeLeft, planes, blocked := Bump(primalVelocity, timeLeft, planes, blocked);
        KeptTwice(ents, old(origin), from, origin);
        if trapped {
          return;
        }
        if !goOn {
          break;
        }
      }
      if goOn {
        NoneLeft(ents, primalVelocity, Now(blocked), timeLeft, planes);
      }
      if waterjumptime != 0.0 {
        velocity := primalVelocity;
      }
    }

    /** The case of PM_StepSlideMove in the air: the step height to try, if a step was met above solid ground. */
    method AirStepSize(blocked: Blocked, original: Vec, originalZ: real) returns (stepsize: Option<real>)
      requires Valid()
      modifies box.planes
      ensures Valid()
      ensures stepsize == StepHeight(ents, true, blocked, if originalZ < 0.0 then origin else original)
      ensures stepsize.Some? ==> blocked.step
      ensures stepsize.Some? && Free(ents, if originalZ < 0.0 then origin else original)
              ==> 0.0 < stepsize.value <= STEPSIZE
    {
      hide Free, PlayerTraced, Kept, Lerp, Add;
      if !blocked.step {
        return None;
      }
      var org := if originalZ < 0.0 then origin else original;
      var trace := Trace(org, Add(org, Vec(0.0, 0.0, -STEPSIZE)));
      PlayerTraceIsSafe(ents, org, Add(org, Vec(0.0, 0.0, -STEPSIZE)));
      if trace.fraction == 1.0 || trace.plane.normal.z < MIN_STEP_NORMAL {
        return None;
      }
      DropRemaining(org, trace.fraction);
      stepsize := Some(STEPSIZE - (org.z - trace.endpos.z));
    }

    /** The second slide of PM_StepSlideMove, from stepsize above the first one's beginning, and the way down from where
        it ends; end is where that leads, unless it is onto a slope. */
    method SlideOver(inAir: bool, stepsize: real) returns (end: Option<Vec>)
      requires Valid()
      modifies this`origin, this`velocity, this`touched, box.planes
      ensures Valid() && Kept(ents, old(origin), origin)
      ensures var over := Over(ents, old(origin), old(velocity), frametime, waterjumptime != 0.0, old(touched), inAir,
                               stepsize);
              && velocity == over.velocity && touched == over.touched
              && end == if Lands(ents, over.origin, stepsize) then Some(Shifted(ents, over.origin, -stepsize)) else None
      ensures end.Some? ==> origin == end.value
    {
      hide Lerp, Free, PlayerTraced, Kept, Linked, SolidWithinBounds, Add, Slid, Whole;
      KeptByItself(ents, origin);
      var trace := Trace(origin, Add(origin, Vec(0.0, 0.0, stepsize)));
      if !trace.startsolid && !trace.allsolid {
        origin := trace.endpos;
      }
      if inAir && velocity.z < 0.0 {
        velocity := Vec(velocity.x, velocity.y, 0.0);
      }
      ghost var raised := origin;
      var _ := SlideMove();
      KeptTwice(ents, old(origin), raised, origin);
      trace := Trace(origin, Add(origin, Vec(0.0, 0.0, -stepsize)));
      if trace.fraction != 1.0 && trace.plane.normal.z < MIN_STEP_NORMAL {
        return None;
      }
      if !trace.startsolid && !trace.allsolid {
        KeptTwice(ents, old(origin), origin, trace.endpos);
        origin := trace.endpos;
      }
      end := Some(origin);
    }

    /** The choice of PM_StepSlideMove between the two slides. */
    method Keep(original: Vec, end: Option<Vec>, down: Vec, downVelocity: Vec, blocked: Blocked, ghost plain: Slide)
      requires end.Some? ==> origin == end.value
      requires plain == Slide(down, downVelocity, blocked, plain.touched)
      modifies this`origin, this`velocity
      ensures Now(blocked)
              == Farther(original, plain, old(velocity), touched, end, !onground && waterlevel < 2)
      ensures origin in {old(origin), down}
    {
      hide Distance2;
      if end == None || origin.z < original.z || Distance2(down, original) >= Distance2(origin, original) {
        origin, velocity := down, downVelocity;
        return;
      }
      velocity := Vec(velocity.x, velocity.y, downVelocity.z);
      if !onground && waterlevel < 2 && blocked.step {
        var scale := 1.0 - 0.01 * (origin.z - original.z);
        velocity := Vec(velocity.x * scale, velocity.y * scale, velocity.z);
      }
    }

    /** PM_StepSlideMove: slides, then tries the same a step higher, and keeps the one that went farther. */
    method StepSlideMove(inAir: bool) returns (blocked: Blocked)
      requires Valid()
      modifies this`origin, this`velocity, this`touched, box.planes
      ensures Valid() && Kept(ents, old(origin), origin)
      ensures Now(blocked)
              == StepSlid(ents, old(origin), old(velocity), frametime, waterjumptime != 0.0, old(touched), inAir,
                          !onground && waterlevel < 2)
      ensures blocked == UNBLOCKED <==> Whole(ents, old(origin), old(velocity), frametime)
      ensures blocked == UNBLOCKED ==>
                origin == Add(old(origin), Scale(old(velocity), frametime)) && velocity == old(velocity)
    {
      hide Kept, SolidWithinBounds, Farther, Add, Scale, Slid, Whole, Over, Lands, Shifted;
      var original, originalVelocity := origin, velocity;
      blocked := SlideMove();
      if blocked == UNBLOCKED {
        return;
      }
      ghost var plain := Now(blocked);
      var stepsize := STEPSIZE;
      if inAir {
        var airStep := AirStepSize(blocked, original, originalVelocity.z);
        if airStep == None {
          return;
        }
        stepsize := airStep.value;
      }
      var down, downVelocity := origin, velocity;
      origin, velocity := original, originalVelocity;
      var end := SlideOver(inAir, stepsize);
      assert end == StepEnd(ents, original, originalVelocity, frametime, waterjumptime != 0.0, inAir, plain);
      Keep(original, end, down, downVelocity, blocked, plain);
    }

    /** PM_PointContents: in the world's point hull. */
    method PointContents(p: Vec) returns (contents: int)
      requires Valid()
      ensures contents == Contents(ents[0].model.value.hull0, ents[0].model.value.hull0.first, p) < 0
    {
      var hull := ents[0].model.value.hull0;
      contents := HullPointContents(hull, hull.first, p);
    }

    /** The part of PM_CategorizePosition that finds how deep in water the player is: feet, middle and eyes. */
    method FindWater(point: Vec)
      requires Valid()
      modifies this`waterlevel, this`watertype
      ensures Valid()
      ensures (waterlevel, watertype) == WaterAt(ents[0].model.value.hull0, point.x, point.y, origin.z)
    {
      waterlevel, watertype := 0, CONTENTS_EMPTY;
      var contents := PointContents(Vec(point.x, point.y, origin.z + PLAYER_MINS.z + 1.0));
      if contents <= CONTENTS_WATER {
        watertype, waterlevel := contents, 1;
        contents := PointContents(Vec(point.x, point.y, origin.z + (PLAYER_MINS.z + PLAYER_MAXS.z) * 0.5));
        if contents <= CONTENTS_WATER {
          waterlevel := 2;
          contents := PointContents(Vec(point.x, point.y, origin.z + 22.0));
          if contents <= CONTENTS_WATER {
            waterlevel := 3;
          }
        }
      }
    }

    /** PM_CategorizePosition: finds the ground and the water, and snaps to the ground. */
    method CategorizePosition()
      requires Valid()
      modifies this`origin, this`onground, this`groundent, this`groundplane, this`waterjumptime, this`touched,
               this`waterlevel, this`watertype, box.planes
      ensures Valid() && Kept(ents, old(origin), origin)
      ensures (waterlevel, watertype) == WaterAt(ents[0].model.value.hull0, old(origin).x, old(origin).y, old(origin).z)
      ensures var ground, tests := Below(ents, old(origin)), velocity.z <= 180.0 && (!vars.pground || old(onground));
              && onground == (tests && StandsOn(ground))
              && (groundplane, groundent) == (if onground then (ground.plane, ground.entnum)
                                              else (old(groundplane), old(groundent)))
              && waterjumptime == (if onground then 0.0 else old(waterjumptime))
              && touched == Contacts(ents, tests, old(origin), old(touched))
      ensures (origin, onground) == Grounded(ents, vars, pmType, velocity.z, old(onground), old(origin))
    {
      hide Lerp, Free, PlayerTraced, Kept, Linked, SolidWithinBounds, WellFormed;
      KeptByItself(ents, origin);
      var trace := InitialTrace(ORIGIN).(fraction := 0.0, entnum := 0);
      var point := Add(origin, Vec(0.0, 0.0, -1.0));
      if velocity.z > 180.0 {
        onground := false;
      } else if !vars.pground || onground {
        trace := Trace(origin, point);
        if trace.fraction == 1.0 || trace.plane.normal.z < MIN_STEP_NORMAL {
          onground := false;
        } else {
          onground := true;
          groundent := trace.entnum;
          groundplane := trace.plane;
          waterjumptime := 0.0;
        }
        if trace.entnum > 0 {
          AddTouchedEnt(trace.entnum);
        }
      }
      FindWater(point);
      if !vars.pground {
        if onground && pmType != Fly && waterlevel < 2 {
          if !trace.startsolid && !trace.allsolid {
            origin := trace.endpos;
          }
        }
      }
    }

    /** PM_NudgePosition: the first free one of the positions an eighth of a unit away on any axes and then of those
        up to 18 units above. (The source first cuts the origin to eighths, but overwrites that.) */
    method NudgePosition()
      requires Valid()
      modifies this`origin, box.planes
      ensures Valid()
      ensures Free(ents, old(origin)) ==> origin == old(origin)
      ensures !Free(ents, origin) ==> origin == old(origin) && NoneFree(ents, old(origin), NUDGES)
      ensures Free(ents, origin) ==> IsFirstFreeNudge(ents, old(origin), origin)
    {
      hide Free;
      var base := origin;
      origin := Vec(CutToEighth(origin.x), CutToEighth(origin.y), CutToEighth(origin.z));
      for z := 0 to 3
        invariant Valid() && NoneFree(ents, base, 9 * z)
      {
        for y := 0 to 3
          invariant Valid() && NoneFree(ents, base, 9 * z + 3 * y)
        {
          for x := 0 to 3
            invariant Valid() && NoneFree(ents, base, 9 * z + 3 * y + x)
          {
            EighthIsNudged(base, x, y, z);
            origin := Eighth(base, x, y, z);
            var free := TestPlayerPosition(ents, box, origin);
            if free {
              EighthIsNudged(base, 0, 0, 0);
              return;
            }
          }
        }
      }
      EighthIsNudged(base, 0, 0, 0);
      for z := 1 to 19
        invariant Valid() && NoneFree(ents, base, 26 + z)
      {
        origin := Raised(base, z);
        assert origin == Nudged(base, 26 + z);
        var free := TestPlayerPosition(ents, box, origin);
        if free {
          return;
        }
      }
      origin := base;
    }

    /** PM_AirMove, after the acceleration and gravity that impulse stands for. */
    method AirMove(impulse: Vec) returns (blocked: Blocked)
      requires Valid()
      modifies this`origin, this`velocity, this`touched, this`onground, box.planes
      ensures Valid() && Kept(ents, old(origin), origin)
      ensures (Now(blocked), onground)
              == AirMoved(ents, vars, old(origin), impulse, frametime, waterjumptime != 0.0, old(touched),
                          old(onground), waterlevel)
    {
      hide Kept, SolidWithinBounds, StepSlid, Slid, Whole, Add, Scale;
      velocity := impulse;
      if onground {
        if velocity.x == 0.0 && velocity.y == 0.0 {
          velocity := ORIGIN;
          KeptByItself(ents, origin);
          return UNBLOCKED;
        }
        blocked := StepSlideMove(false);
      } else {
        if vars.airstep {
          blocked := StepSlideMove(true);
        } else {
          blocked := SlideMove();
        }
        if vars.pground && blocked.floor {
          onground := true;
        }
      }
    }

    /** The part of PM_PlayerMove that moves, in water, flying, or on the ground and in the air. */
    method Drive(jump: Impulse, drive: Vec) returns (blocked: Blocked)
      requires Valid()
      modifies this`origin, this`velocity, this`touched, this`onground, this`waterjumptime, box.planes
      ensures Valid() && Kept(ents, old(origin), origin)
      ensures (Now(blocked), onground)
              == Driven(ents, vars, pmType, waterlevel, old(origin), jump, drive, frametime, old(touched))
    {
      hide Kept, SolidWithinBounds, StepSlid, AirMoved, Whole, Add, Scale;
      velocity, onground, waterjumptime := jump.velocity, jump.onground, jump.waterjumptime;
      if waterlevel >= 2 || pmType == Fly {
        velocity := drive;
        blocked := StepSlideMove(false);
      } else {
        blocked := AirMove(drive);
      }
    }

    /** The beginning of PM_PlayerMove: out of solid, and onto the ground. */
    method Place() returns (ghost nudged: Vec)
      requires Valid() && touched == []
      modifies this`origin, this`touched, this`onground, this`groundent, this`groundplane, this`waterjumptime,
               this`waterlevel, this`watertype, box.planes
      ensures Valid() && Kept(ents, nudged, origin)
      ensures Free(ents, old(origin)) ==> nudged == old(origin)
      ensures if Free(ents, nudged) then IsFirstFreeNudge(ents, old(origin), nudged)
              else nudged == old(origin) && NoneFree(ents, old(origin), NUDGES)
      ensures origin == Grounded(ents, vars, pmType, velocity.z, old(onground), nudged).0
      ensures waterlevel == WaterAt(ents[0].model.value.hull0, nudged.x, nudged.y, nudged.z).0
      ensures touched == Contacts(ents, velocity.z <= 180.0 && (!vars.pground || old(onground)), nudged, [])
    {
      hide Kept, SolidWithinBounds, Free, IsFirstFreeNudge, NoneFree, WaterAt, StandsOn, PlayerTraced,
           Grounded, Contacts;
      NudgePosition();
      nudged := origin;
      CategorizePosition();
    }

    /** PM_PlayerMove for those who can move and are not spectators. */
    method Move(jump: Impulse, drive: Vec)
      returns (blocked: Blocked, ghost nudged: Vec, ghost placed: Vec, ghost slid: Slide, ghost ground: bool)
      requires Valid() && touched == []
      modifies this`origin, this`velocity, this`touched, this`onground, this`groundent, this`groundplane,
               this`waterjumptime, this`waterlevel, this`watertype, box.planes
      ensures Valid() && blocked == slid.blocked && Moved(ents, old(origin), origin)
      ensures Leads(ents, vars, pmType, old(velocity).z, old(onground), old(origin), jump, drive, frametime, nudged,
                    placed, (slid, ground))
      ensures (origin, onground) == Grounded(ents, vars, pmType, slid.velocity.z, ground, slid.origin)
      ensures velocity == Landed(vars, onground, slid.velocity, groundplane)
    {
      hide Kept, SolidWithinBounds, Free, IsNudge, IsFirstFreeNudge, WaterAt, StandsOn, PlayerTraced, ClipVelocity,
           Driven, Grounded, Contacts, Linked, Moved, Dot, Leads;
      nudged := Place();
      placed := origin;
      blocked := Drive(jump, drive);
      slid, ground := Now(blocked), onground;
      NudgedDrivenLeads(ents, vars, pmType, old(velocity).z, old(onground), old(origin), jump, drive, frametime, nudged,
                        placed, (slid, ground));
      KeptTwice(ents, nudged, placed, origin);
      CategorizePosition();
      KeptTwice(ents, nudged, slid.origin, origin);
      KeptIsMoved(ents, old(origin), nudged, origin);
      if !vars.pground && onground && velocity.z < -300.0 {
        if Dot(velocity, groundplane.normal) < -0.1 {
          velocity := ClipVelocity(velocity, groundplane.normal);
        }
      }
    }

    /** PM_PlayerMove. jump is what water jumping, jumping and friction leave, drive the velocity that acceleration
        and gravity make of it, spectate the spectator's new velocity and whether a spectator moves at all. A player who
        moves is first nudged out of solid, then placed on the ground, slides from there, and is placed again. */
    method PlayerMove(msec: nat, jump: Impulse, drive: Vec, spectate: Option<Vec>)
      returns (blocked: Blocked, ghost nudged: Vec, ghost placed: Vec, ghost slid: Slide, ghost ground: bool)
      requires Valid()
      modifies this, box.planes
      ensures Valid() && pmType == old(pmType) && blocked == slid.blocked
      ensures old(pmType) !in {Spectator, OldSpectator} ==> Moved(ents, old(origin), origin)
      ensures old(pmType) in {Immobile, Lock} ==>
                && (origin, onground) == Grounded(ents, vars, pmType, old(velocity).z, old(onground), old(origin))
                && velocity == old(velocity) && blocked == UNBLOCKED
      ensures old(pmType) in {Spectator, OldSpectator} ==>
                && blocked == UNBLOCKED && !onground
                && (spectate.None? ==> origin == old(origin) && velocity == old(velocity))
                && (spectate.Some? ==> velocity == spectate.value
                                       && origin == Add(old(origin), Scale(spectate.value, msec as real * 0.001)))
      ensures old(pmType) in {Normal, Dead, Fly} ==>
                && Leads(ents, vars, pmType, old(velocity).z, old(onground), old(origin), jump, drive,
                         msec as real * 0.001, nudged, placed, (slid, ground))
                && (origin, onground) == Grounded(ents, vars, pmType, slid.velocity.z, ground, slid.origin)
                && velocity == Landed(vars, onground, slid.velocity, groundplane)
    {
      hide Kept, SolidWithinBounds, Free, IsNudge, IsFirstFreeNudge, WaterAt, StandsOn, PlayerTraced, ClipVelocity,
           Driven, Grounded, Contacts, Linked, Add, Scale, Whole;
      ghost var base := origin;
      nudged, placed, slid, ground := origin, origin, Slide(origin, velocity, UNBLOCKED, []), onground;
      frametime := msec as real * 0.001;
      touched := [];
      if pmType == Immobile || pmType == Lock {
        CategorizePosition();
        KeptIsMoved(ents, base, base, origin);
        return UNBLOCKED, nudged, placed, slid, ground;
      }
      if pmType == Spectator || pmType == OldSpectator {
        if spectate.Some? {
          velocity := spectate.value;
          origin := Add(origin, Scale(velocity, frametime));
        }
        onground := false;
        return UNBLOCKED, nudged, placed, slid, ground;
      }
      blocked, nudged, placed, slid, ground := Move(jump, drive);
    }
  }
}
