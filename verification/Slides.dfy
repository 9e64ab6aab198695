/** Sliding along what is met and stepping over it, as functions of where the player is and how fast. */
module Slides {
  import opened Options
  import opened Geometry
  import opened Hulls
  import opened Collision

  const STEPSIZE := 18.0
  const MIN_STEP_NORMAL := 0.7
  const STOP_EPSILON := 0.1
  const MAX_CLIP_PLANES := 5
  const MAX_PHYSENTS := 64

  /** What a slide was blocked by: the BLOCKED_FLOOR, BLOCKED_STEP and BLOCKED_OTHER flags. */
  datatype Blocked = Blocked(floor: bool, step: bool, other: bool)

  const UNBLOCKED := Blocked(false, false, false)

  // ---------- Velocities ----------

  function Still(x: real): real {
    if -STOP_EPSILON < x < STOP_EPSILON then 0.0 else x
  }

  /** PM_ClipVelocity with the overbounce of 1 used throughout. */
  function ClipVelocity(v: Vec, normal: Vec): Vec {
    var backoff := Dot(v, normal);
    Vec(Still(v.x - normal.x * backoff), Still(v.y - normal.y * backoff), Still(v.z - normal.z * backoff))
  }

  function CrossProduct(a: Vec, b: Vec): Vec {
    Vec(a.y * b.z - a.z * b.y, a.z * b.x - a.x * b.z, a.x * b.y - a.y * b.x)
  }

  /** Clipped to the i-th plane, the velocity does not go into another. */
  predicate LeavesOthers(original: Vec, planes: seq<Vec>, i: nat)
    requires i < |planes|
  {
    forall j | 0 <= j < |planes| && j != i :: Dot(ClipVelocity(original, planes[i]), planes[j]) >= 0.0
  }

  /** The first plane from i on along which the velocity leaves all others. */
  function FirstLeaving(original: Vec, planes: seq<Vec>, i: nat): Option<Vec>
    requires i <= |planes|
    decreases |planes| - i
  {
    if i == |planes| then None
    else if LeavesOthers(original, planes, i) then Some(ClipVelocity(original, planes[i]))
    else FirstLeaving(original, planes, i + 1)
  }

  /** The velocity turned along the planes met: along the first that leaves the others, else along the crease of two. */
  function Along(original: Vec, planes: seq<Vec>): Option<Vec>
    requires planes != []
  {
    var first := FirstLeaving(original, planes, 0);
    if first.Some? then first
    else if |planes| != 2 then None
    else
      var dir := CrossProduct(planes[0], planes[1]);
      Some(Scale(dir, Dot(dir, ClipVelocity(original, planes[1]))))
  }

  lemma {:induction false} FirstLeavingIs(original: Vec, planes: seq<Vec>, i: nat, k: nat)
    requires i <= k <= |planes| && forall j | i <= j < k :: !LeavesOthers(original, planes, j)
    ensures FirstLeaving(original, planes, i) == FirstLeaving(original, planes, k)
    decreases k - i
  {
    if i < k {
      FirstLeavingIs(original, planes, i + 1, k);
    }
  }

  /** The part of a velocity that does not go into a plane. */
  function Component(v: Vec, normal: Vec): Vec {
    Sub(v, Scale(normal, Dot(v, normal)))
  }

  predicate Close(x: real, y: real) {
    x == y || (x == 0.0 && -STOP_EPSILON < y < STOP_EPSILON)
  }

  /** Clipped, a velocity keeps what is along the plane and loses what is across it, except that what is
      almost nothing becomes nothing. */
  lemma ClippedIsAlongPlane(v: Vec, normal: Vec)
    requires Dot(normal, normal) == 1.0
    ensures Dot(Component(v, normal), normal) == 0.0
    ensures var c, w := ClipVelocity(v, normal), Component(v, normal);
            Close(c.x, w.x) && Close(c.y, w.y) && Close(c.z, w.z)
  {
    DotOfComponent(v, normal, Dot(v, normal));
  }

  lemma DotOfComponent(v: Vec, n: Vec, d: real)
    ensures Dot(Sub(v, Scale(n, d)), n) == Dot(v, n) - d * Dot(n, n)
  {
    assert n.x * d * n.x == d * (n.x * n.x) && n.y * d * n.y == d * (n.y * n.y) && n.z * d * n.z == d * (n.z * n.z);
  }

  /** The crease of two planes lies in both. */
  lemma CreaseIsAlongBoth(a: Vec, b: Vec)
    ensures Dot(CrossProduct(a, b), a) == 0.0 && Dot(CrossProduct(a, b), b) == 0.0
    ensures Dot(CrossProduct(a, b), CrossProduct(a, b)) == Dot(a, a) * Dot(b, b) - Dot(a, b) * Dot(a, b)
  {
  }

  /** The velocity turned goes into none of the planes but perhaps the one that it is clipped to, or along two. */
  lemma TurnedLeavesPlanes(original: Vec, planes: seq<Vec>)
    requires planes != [] && Along(original, planes).Some?
    ensures var v := Along(original, planes).value;
            || (exists i :: 0 <= i < |planes| && v == ClipVelocity(original, planes[i])
                            && forall j | 0 <= j < |planes| && j != i :: Dot(v, planes[j]) >= 0.0)
            || (|planes| == 2 && Dot(v, planes[0]) == 0.0 && Dot(v, planes[1]) == 0.0)
  {
    hide ClipVelocity, CrossProduct, Dot, Scale;
    if FirstLeaving(original, planes, 0).Some? {
      FirstLeavingLeaves(original, planes, 0);
    } else {
      var dir := CrossProduct(planes[0], planes[1]);
      CreaseIsAlongBoth(planes[0], planes[1]);
      DotOfScaled(dir, planes[0], Dot(dir, ClipVelocity(original, planes[1])));
      DotOfScaled(dir, planes[1], Dot(dir, ClipVelocity(original, planes[1])));
    }
  }

  lemma {:induction false} FirstLeavingLeaves(original: Vec, planes: seq<Vec>, i: nat)
    requires i <= |planes| && FirstLeaving(original, planes, i).Some?
    ensures exists k :: i <= k < |planes| && LeavesOthers(original, planes, k)
                        && FirstLeaving(original, planes, i) == Some(ClipVelocity(original, planes[k]))
    decreases |planes| - i
  {
    hide LeavesOthers, ClipVelocity;
    if !LeavesOthers(original, planes, i) {
      FirstLeavingLeaves(original, planes, i + 1);
    }
  }

  lemma DotOfScaled(v: Vec, n: Vec, k: real)
    ensures Dot(v, n) == 0.0 ==> Dot(Scale(v, k), n) == 0.0
  {
    assert v.x * k * n.x == k * (v.x * n.x) && v.y * k * n.y == k * (v.y * n.y) && v.z * k * n.z == k * (v.z * n.z);
    assert k * (v.x * n.x) + k * (v.y * n.y) + k * (v.z * n.z) == k * Dot(v, n);
  }

  lemma AlongOnePlane(original: Vec, normal: Vec)
    ensures Along(original, [normal]) == Some(ClipVelocity(original, normal))
  {
    hide ClipVelocity;
    assert LeavesOthers(original, [normal], 0);
  }

  /** Whether a trace ended on something level enough to stand on. */
  predicate StandsOn(t: Trace) {
    t.fraction != 1.0 && t.plane.normal.z >= MIN_STEP_NORMAL
  }

  function Distance2(a: Vec, b: Vec): real {
    (a.x - b.x) * (a.x - b.x) + (a.y - b.y) * (a.y - b.y)
  }

  /** Whether a move from a is better taken over a step: it leads farther and not down. */
  predicate Better(a: Vec, stepped: Vec, plain: Vec) {
    stepped.z >= a.z && Distance2(stepped, a) > Distance2(plain, a)
  }

  /** How far down a step is tried in the air, less what was already fallen. */
  lemma DropRemaining(p: Vec, fraction: real)
    ensures STEPSIZE - (p.z - Lerp(p, Add(p, Vec(0.0, 0.0, -STEPSIZE)), fraction).z) == STEPSIZE * (1.0 - fraction)
  {
  }

  // ---------- Sliding ----------

  /** Where a slide ends, how fast, by what it was blocked, and what has been touched. */
  datatype Slide = Slide(origin: Vec, velocity: Vec, blocked: Blocked, touched: seq<int>)

  function WithTouched(touched: seq<int>, num: int): seq<int> {
    if num in touched || |touched| == MAX_PHYSENTS then touched else touched + [num]
  }

  function WithBlock(blocked: Blocked, normal: Vec): Blocked {
    if normal.z >= MIN_STEP_NORMAL then blocked.(floor := true)
    else if normal.z == 0.0 then blocked.(step := true)
    else blocked.(other := true)
  }

  /** The trace along a velocity for some time. */
  function Ahead(ents: seq<PhysEnt>, at: Vec, velocity: Vec, time: real): Trace
    requires ProperWorld(ents)
  {
    PlayerTraced(ents, at, Add(at, Scale(velocity, time)))
  }

  predicate Trapped(t: Trace) {
    t.startsolid || t.allsolid
  }

  /** One bump of PM_SlideMove: the slide ends, perhaps because the player is trapped, or it goes on for the time left,
      with the planes met at the place reached. */
  datatype Bump = Ends(end: Slide, trapped: bool) | GoesOn(next: Slide, time: real, planes: seq<Vec>)

  function OneBump(ents: seq<PhysEnt>, primal: Vec, s: Slide, time: real, planes: seq<Vec>): Bump
    requires ProperWorld(ents)
  {
    var t := Ahead(ents, s.origin, s.velocity, time);
    if Trapped(t) then Ends(s.(velocity := ORIGIN, blocked := Blocked(true, true, false)), true)
    else if t.fraction == 1.0 then Ends(s.(origin := t.endpos), false)
    else
      var rest, met := TimeLeft(time, t.fraction), if t.fraction > 0.0 then [] else planes;
      Turned(primal, Stopped(s, t), rest, met, t.plane.normal)
  }

  function TimeLeft(time: real, fraction: real): real {
    time - time * fraction
  }

  /** Where a trace that was stopped leaves the player. */
  function Stopped(s: Slide, t: Trace): Slide {
    s.(origin := if t.fraction > 0.0 then t.endpos else s.origin,
       blocked := WithBlock(s.blocked, t.plane.normal),
       touched := WithTouched(s.touched, t.entnum))
  }

  /** How the slide goes on after meeting one more plane. */
  function Turned(primal: Vec, s: Slide, time: real, planes: seq<Vec>, normal: Vec): Bump {
    if |planes| >= MAX_CLIP_PLANES then Ends(s.(velocity := ORIGIN), false)
    else
      var turned := Along(primal, planes + [normal]);
      if turned.None? || Dot(turned.value, primal) <= 0.0 then Ends(s.(velocity := ORIGIN), false)
      else GoesOn(s.(velocity := turned.value), time, planes + [normal])
  }

  /** The bumps that are left. */
  function Bumps(ents: seq<PhysEnt>, primal: Vec, s: Slide, time: real, planes: seq<Vec>, left: nat): (Slide, bool)
    requires ProperWorld(ents)
    decreases left
  {
    if left == 0 then (s, false)
    else
      match OneBump(ents, primal, s, time, planes)
      case Ends(end, trapped) => (end, trapped)
      case GoesOn(next, rest, met) => Bumps(ents, primal, next, rest, met, left - 1)
  }

  /** PM_SlideMove */
  function Slid(ents: seq<PhysEnt>, origin: Vec, velocity: Vec, time: real, jumping: bool, touched: seq<int>): Slide
    requires ProperWorld(ents)
  {
    var (s, trapped) := Bumps(ents, velocity, Slide(origin, velocity, UNBLOCKED, touched), time, [], 4);
    if jumping && !trapped then s.(velocity := velocity) else s
  }

  function FlagsOf(b: Bump): Blocked {
    match b
    case Ends(end, _) => end.blocked
    case GoesOn(next, _, _) => next.blocked
  }

  lemma TurnedKeepsFlags(primal: Vec, s: Slide, time: real, planes: seq<Vec>, normal: Vec)
    ensures FlagsOf(Turned(primal, s, time, planes, normal)) == s.blocked
  {
  }

  /** A bump leaves a flag. */
  lemma OneBumpFlags(ents: seq<PhysEnt>, primal: Vec, s: Slide, time: real, planes: seq<Vec>)
    requires ProperWorld(ents)
    ensures FlagsOf(OneBump(ents, primal, s, time, planes)) == UNBLOCKED
            <==> s.blocked == UNBLOCKED && Whole(ents, s.origin, s.velocity, time)
  {
    hide Ahead, Turned, WithTouched, TimeLeft;
    var t := Ahead(ents, s.origin, s.velocity, time);
    if !Trapped(t) && t.fraction != 1.0 {
      var rest, met := TimeLeft(time, t.fraction), if t.fraction > 0.0 then [] else planes;
      assert Stopped(s, t).blocked != UNBLOCKED;
      assert OneBump(ents, primal, s, time, planes) == Turned(primal, Stopped(s, t), rest, met, t.plane.normal);
      TurnedKeepsFlags(primal, Stopped(s, t), rest, met, t.plane.normal);
    }
  }

  lemma {:induction false} BumpsKeepFlags(ents: seq<PhysEnt>, primal: Vec, s: Slide, time: real, planes: seq<Vec>,
                                          left: nat)
    requires ProperWorld(ents) && s.blocked != UNBLOCKED
    ensures Bumps(ents, primal, s, time, planes, left).0.blocked != UNBLOCKED
    decreases left
  {
    hide OneBump;
    if left > 0 {
      OneBumpFlags(ents, primal, s, time, planes);
      match OneBump(ents, primal, s, time, planes)
      case Ends(_, _) =>
      case GoesOn(next, rest, met) => BumpsKeepFlags(ents, primal, next, rest, met, left - 1);
    }
  }

  lemma {:induction false} FirstOf(ents: seq<PhysEnt>, primal: Vec, s: Slide, time: real, planes: seq<Vec>, left: nat)
    requires ProperWorld(ents) && left > 0
    ensures Bumps(ents, primal, s, time, planes, left)
            == match OneBump(ents, primal, s, time, planes)
               case Ends(end, trapped) => (end, trapped)
               case GoesOn(next, rest, met) => Bumps(ents, primal, next, rest, met, left - 1)
  {
    hide OneBump;
  }

  lemma NoneLeft(ents: seq<PhysEnt>, primal: Vec, s: Slide, time: real, planes: seq<Vec>)
    requires ProperWorld(ents)
    ensures Bumps(ents, primal, s, time, planes, 0) == (s, false)
  {
  }

  /** The way is open for the whole time. */
  predicate Whole(ents: seq<PhysEnt>, at: Vec, velocity: Vec, time: real)
    requires ProperWorld(ents)
  {
    var t := Ahead(ents, at, velocity, time);
    !Trapped(t) && t.fraction == 1.0
  }

  /** A slide is not blocked exactly if the way is open, and then it goes all the way as fast as before. */
  lemma {:induction false} BumpsAreWholeExactlyWhen(ents: seq<PhysEnt>, s: Slide, time: real, left: nat)
    requires GoodWorld(ents) && left > 0 && s.blocked == UNBLOCKED
    ensures var (e, trapped) := Bumps(ents, s.velocity, s, time, [], left);
            && (e.blocked == UNBLOCKED <==> Whole(ents, s.origin, s.velocity, time))
            && (e.blocked == UNBLOCKED ==> e == s.(origin := Add(s.origin, Scale(s.velocity, time))))
  {
    hide Add, Scale, PlayerTraced, SolidWithinBounds, Turned;
    WholeEnds(ents, s.origin, Add(s.origin, Scale(s.velocity, time)));
    OneBumpFlags(ents, s.velocity, s, time, []);
    match OneBump(ents, s.velocity, s, time, [])
    case Ends(_, _) =>
    case GoesOn(next, rest, met) => GoingOnIsBlocked(ents, s, time);
  }

  lemma {:induction false} GoingOnIsBlocked(ents: seq<PhysEnt>, s: Slide, time: real)
    requires ProperWorld(ents) && s.blocked == UNBLOCKED && OneBump(ents, s.velocity, s, time, []).GoesOn?
    ensures !Whole(ents, s.origin, s.velocity, time)
    ensures var b := OneBump(ents, s.velocity, s, time, []);
            forall left: nat :: Bumps(ents, s.velocity, b.next, b.time, b.planes, left).0.blocked != UNBLOCKED
  {
    hide Ahead, Turned;
    OneBumpFlags(ents, s.velocity, s, time, []);
    var b := OneBump(ents, s.velocity, s, time, []);
    forall left: nat ensures Bumps(ents, s.velocity, b.next, b.time, b.planes, left).0.blocked != UNBLOCKED {
      BumpsKeepFlags(ents, s.velocity, b.next, b.time, b.planes, left);
    }
  }

  lemma SlideIsWholeExactlyWhen(ents: seq<PhysEnt>, origin: Vec, velocity: Vec, time: real, jumping: bool,
                                touched: seq<int>)
    requires GoodWorld(ents)
    ensures var s := Slid(ents, origin, velocity, time, jumping, touched);
            && (s.blocked == UNBLOCKED <==> Whole(ents, origin, velocity, time))
            && (s.blocked == UNBLOCKED ==>
                  s == Slide(Add(origin, Scale(velocity, time)), velocity, UNBLOCKED, touched))
  {
    hide Bumps, Whole;
    BumpsAreWholeExactlyWhen(ents, Slide(origin, velocity, UNBLOCKED, touched), time, 4);
  }

  lemma WholeEnds(ents: seq<PhysEnt>, start: Vec, end: Vec)
    requires GoodWorld(ents)
    ensures var t := PlayerTraced(ents, start, end);
            t.fraction == 1.0 ==> t.endpos == end && !Trapped(t)
  {
    hide Lerp, Free, TraceAgainst;
    PlayerTraceIsSafe(ents, start, end);
    LerpEnds(start, end);
  }

  /** The player at the end of a trace that was stopped, with the velocity clipped to the plane that was met. */
  function Bumped(s: Slide, t: Trace): Slide {
    Slide(t.endpos, ClipVelocity(s.velocity, t.plane.normal), WithBlock(s.blocked, t.plane.normal),
          WithTouched(s.touched, t.entnum))
  }

  /** What a first bump leads to: the player is where the trace ended, and either stops there or goes on with the
      velocity clipped to the plane that was met, for the time that is left. */
  lemma AfterBump(ents: seq<PhysEnt>, s: Slide, time: real)
    requires GoodWorld(ents)
    requires var t := Ahead(ents, s.origin, s.velocity, time); !Trapped(t) && t.fraction != 1.0
    ensures var t := Ahead(ents, s.origin, s.velocity, time);
            var at := Bumped(s, t);
            OneBump(ents, s.velocity, s, time, [])
            == if Dot(at.velocity, s.velocity) <= 0.0 then Ends(at.(velocity := ORIGIN), false)
               else GoesOn(at, TimeLeft(time, t.fraction), [t.plane.normal])
    ensures var t := Ahead(ents, s.origin, s.velocity, time);
            t.endpos == Add(s.origin, Scale(s.velocity, time - TimeLeft(time, t.fraction)))
  {
    hide Add, Scale, PlayerTraced, SolidWithinBounds, Dot, ClipVelocity, Along, TimeLeft;
    TimeIsSpent(ents, s.origin, s.velocity, time);
    var t := Ahead(ents, s.origin, s.velocity, time);
    AlongOnePlane(s.velocity, t.plane.normal);
    StillStart(ents, s.origin, Add(s.origin, Scale(s.velocity, time)));
    assert [] + [t.plane.normal] == [t.plane.normal];
  }

  /** A trace leads as far as the velocity does in the time that it takes. */
  lemma TimeIsSpent(ents: seq<PhysEnt>, at: Vec, velocity: Vec, time: real)
    requires GoodWorld(ents)
    ensures var t := Ahead(ents, at, velocity, time);
            !Trapped(t) ==> t.endpos == Add(at, Scale(velocity, time - TimeLeft(time, t.fraction)))
  {
    hide PlayerTraced, SolidWithinBounds, Free;
    var t := Ahead(ents, at, velocity, time);
    PlayerTraceIsSafe(ents, at, Add(at, Scale(velocity, time)));
    StillStart(ents, at, Add(at, Scale(velocity, time)));
    PartOfTheWay(at, velocity, time, t.fraction);
    LerpEnds(at, Add(at, Scale(velocity, time)));
  }

  lemma PartOfTheWay(at: Vec, velocity: Vec, time: real, fraction: real)
    ensures Lerp(at, Add(at, Scale(velocity, time)), fraction)
            == Add(at, Scale(velocity, time - TimeLeft(time, fraction)))
  {
    assert velocity.x * time * fraction == velocity.x * (time * fraction);
    assert velocity.y * time * fraction == velocity.y * (time * fraction);
    assert velocity.z * time * fraction == velocity.z * (time * fraction);
  }

  lemma StillStart(ents: seq<PhysEnt>, start: Vec, end: Vec)
    requires GoodWorld(ents)
    ensures var t := PlayerTraced(ents, start, end);
            t.fraction <= 0.0 && !Trapped(t) ==> t.endpos == start
  {
    hide Lerp, Free, TraceAgainst;
    PlayerTraceIsSafe(ents, start, end);
    LerpEnds(start, end);
  }

  predicate Forward(velocity: Vec, primal: Vec) {
    velocity == ORIGIN || velocity == primal || Dot(velocity, primal) > 0.0
  }

  lemma {:induction false} BumpsGoForward(ents: seq<PhysEnt>, primal: Vec, s: Slide, time: real, planes: seq<Vec>,
                                          left: nat)
    requires ProperWorld(ents) && Forward(s.velocity, primal)
    ensures Forward(Bumps(ents, primal, s, time, planes, left).0.velocity, primal)
    decreases left
  {
    hide Ahead, Along, Dot;
    if left > 0 {
      match OneBump(ents, primal, s, time, planes)
      case Ends(_, _) =>
      case GoesOn(next, rest, met) => BumpsGoForward(ents, primal, next, rest, met, left - 1);
    }
  }

  /** A slide never turns against the velocity that it began with. */
  lemma SlideGoesForward(ents: seq<PhysEnt>, origin: Vec, velocity: Vec, time: real, jumping: bool, touched: seq<int>)
    requires ProperWorld(ents)
    ensures Forward(Slid(ents, origin, velocity, time, jumping, touched).velocity, velocity)
  {
    hide Bumps, Dot;
    BumpsGoForward(ents, velocity, Slide(origin, velocity, UNBLOCKED, touched), time, [], 4);
  }

  /** Where a slide that is not whole begins: trapped, it stays; else it moves to the end of its first trace, and goes
      on from there with the clipped velocity, unless that leads back. */
  lemma SlideBegins(ents: seq<PhysEnt>, origin: Vec, velocity: Vec, time: real, jumping: bool, touched: seq<int>)
    requires GoodWorld(ents) && !Whole(ents, origin, velocity, time)
    ensures var s, t := Slid(ents, origin, velocity, time, jumping, touched), Ahead(ents, origin, velocity, time);
            if Trapped(t) then s == Slide(origin, ORIGIN, Blocked(true, true, false), touched)
            else
              var at := Bumped(Slide(origin, velocity, UNBLOCKED, touched), t);
              var rest := if Dot(at.velocity, velocity) <= 0.0 then at.(velocity := ORIGIN)
                          else Bumps(ents, velocity, at, TimeLeft(time, t.fraction), [t.plane.normal], 3).0;
              s.origin == rest.origin && s.blocked == rest.blocked && s.touched == rest.touched
  {
    hide Ahead, Bumped, OneBump, Bumps, TimeLeft, Dot;
    var s, t := Slide(origin, velocity, UNBLOCKED, touched), Ahead(ents, origin, velocity, time);
    FirstOf(ents, velocity, s, time, [], 4);
    if Trapped(t) {
      TrappedStays(ents, s, time);
    } else {
      AfterBump(ents, s, time);
    }
  }

  lemma TrappedStays(ents: seq<PhysEnt>, s: Slide, time: real)
    requires ProperWorld(ents) && Trapped(Ahead(ents, s.origin, s.velocity, time))
    ensures OneBump(ents, s.velocity, s, time, [])
            == Ends(s.(velocity := ORIGIN, blocked := Blocked(true, true, false)), true)
  {
  }

  // ---------- Stepping ----------

  /** How high a step is tried: in the air only if a step was met above ground that can be stood on, and then less what
      there is between the player and the ground. */
  function StepHeight(ents: seq<PhysEnt>, inAir: bool, blocked: Blocked, from: Vec): Option<real>
    requires ProperWorld(ents)
  {
    if !inAir then Some(STEPSIZE)
    else if !blocked.step then None
    else
      var t := PlayerTraced(ents, from, Add(from, Vec(0.0, 0.0, -STEPSIZE)));
      if !StandsOn(t) then None else Some(STEPSIZE - (from.z - t.endpos.z))
  }

  /** Where the player gets in a straight line up or down. */
  function Shifted(ents: seq<PhysEnt>, at: Vec, height: real): Vec
    requires ProperWorld(ents)
  {
    var t := PlayerTraced(ents, at, Add(at, Vec(0.0, 0.0, height)));
    if Trapped(t) then at else t.endpos
  }

  /** The way down from where the second slide ended is not onto a slope. */
  predicate Lands(ents: seq<PhysEnt>, at: Vec, height: real)
    requires ProperWorld(ents)
  {
    var t := PlayerTraced(ents, at, Add(at, Vec(0.0, 0.0, -height)));
    t.fraction == 1.0 || t.plane.normal.z >= MIN_STEP_NORMAL
  }

  /** A falling player does not fall while going over a step. */
  function Levelled(velocity: Vec, inAir: bool): Vec {
    if inAir && velocity.z < 0.0 then Vec(velocity.x, velocity.y, 0.0) else velocity
  }

  /** The slide that begins a step higher. */
  function Over(ents: seq<PhysEnt>, origin: Vec, velocity: Vec, time: real, jumping: bool, touched: seq<int>,
                inAir: bool, height: real): Slide
    requires ProperWorld(ents)
  {
    Slid(ents, Shifted(ents, origin, height), Levelled(velocity, inAir), time, jumping, touched)
  }

  /** The position reached over a step, if the step is tried and does not end over a slope. */
  function StepEnd(ents: seq<PhysEnt>, origin: Vec, velocity: Vec, time: real, jumping: bool, inAir: bool, plain: Slide)
    : Option<Vec>
    requires ProperWorld(ents)
  {
    if plain.blocked == UNBLOCKED then None
    else
      var height := StepHeight(ents, inAir, plain.blocked, if velocity.z < 0.0 then plain.origin else origin);
      if height.None? then None
      else
        var over := Over(ents, origin, velocity, time, jumping, plain.touched, inAir, height.value);
        if Lands(ents, over.origin, height.value) then Some(Shifted(ents, over.origin, -height.value)) else None
  }

  /** The velocity after a step: the slide over it, with the height of the plain one; walking up a step in the air costs
      a hundredth of the speed for each unit. */
  function StepVelocity(over: Vec, plain: Vec, rise: real, slow: bool): Vec {
    var scale := if slow then 1.0 - 0.01 * rise else 1.0;
    Vec(over.x * scale, over.y * scale, plain.z)
  }

  /** The slide over a step if it ended well and leads farther, and else the plain one. */
  function Farther(origin: Vec, plain: Slide, velocity: Vec, touched: seq<int>, end: Option<Vec>, slow: bool): Slide {
    if end.Some? && Better(origin, end.value, plain.origin) then
      Slide(end.value, StepVelocity(velocity, plain.velocity, end.value.z - origin.z, slow && plain.blocked.step),
            plain.blocked, touched)
    else plain.(touched := touched)
  }

  /** PM_StepSlideMove; slow says that the player is neither on the ground nor in water. */
  function StepSlid(ents: seq<PhysEnt>, origin: Vec, velocity: Vec, time: real, jumping: bool, touched: seq<int>,
                    inAir: bool, slow: bool): Slide
    requires ProperWorld(ents)
  {
    var plain := Slid(ents, origin, velocity, time, jumping, touched);
    var height := if plain.blocked == UNBLOCKED then None
                  else StepHeight(ents, inAir, plain.blocked, if velocity.z < 0.0 then plain.origin else origin);
    if height.None? then plain
    else
      var over := Over(ents, origin, velocity, time, jumping, plain.touched, inAir, height.value);
      var end := StepEnd(ents, origin, velocity, time, jumping, inAir, plain);
      Farther(origin, plain, over.velocity, over.touched, end, slow)
  }

  /** With steps too, the way is gone whole exactly if it is open; and trying a step never leads less far, nor down. */
  lemma StepLeadsAsFar(ents: seq<PhysEnt>, origin: Vec, velocity: Vec, time: real, jumping: bool, touched: seq<int>,
                       inAir: bool, slow: bool)
    requires GoodWorld(ents)
    ensures var s := StepSlid(ents, origin, velocity, time, jumping, touched, inAir, slow);
            var plain := Slid(ents, origin, velocity, time, jumping, touched);
            && (s.blocked == UNBLOCKED <==> Whole(ents, origin, velocity, time))
            && (s.blocked == UNBLOCKED ==>
                  s == Slide(Add(origin, Scale(velocity, time)), velocity, UNBLOCKED, touched))
            && Distance2(s.origin, origin) >= Distance2(plain.origin, origin)
            && (s.origin == plain.origin || s.origin.z >= origin.z)
  {
    hide Slid, Whole, StepHeight, Over, StepEnd, Distance2, Add, Scale;
    SlideIsWholeExactlyWhen(ents, origin, velocity, time, jumping, touched);
  }

  /** The step in the air is measured from the ground: the player is never raised more than STEPSIZE above where it
      would stand. */
  lemma AirStepIsFromTheGround(ents: seq<PhysEnt>, blocked: Blocked, from: Vec)
    requires GoodWorld(ents) && Free(ents, from) && StepHeight(ents, true, blocked, from).Some?
    ensures var ground := Shifted(ents, from, -STEPSIZE);
            var raised := Shifted(ents, from, StepHeight(ents, true, blocked, from).value);
            blocked.step && ground.z <= from.z && from.z <= raised.z <= ground.z + STEPSIZE
  {
    hide PlayerTraced, Free, SolidWithinBounds;
    var h := StepHeight(ents, true, blocked, from).value;
    PlayerTraceIsSafe(ents, from, Add(from, Vec(0.0, 0.0, -STEPSIZE)));
    PlayerTraceIsSafe(ents, from, Add(from, Vec(0.0, 0.0, h)));
    DropRemaining(from, PlayerTraced(ents, from, Add(from, Vec(0.0, 0.0, -STEPSIZE))).fraction);
    RiseOf(from, h, PlayerTraced(ents, from, Add(from, Vec(0.0, 0.0, h))).fraction);
  }

  lemma RiseOf(p: Vec, h: real, fraction: real)
    requires 0.0 <= fraction <= 1.0 && h >= 0.0
    ensures p.z <= Lerp(p, Add(p, Vec(0.0, 0.0, h)), fraction).z <= p.z + h
  {
    ProductSign(h, fraction);
    ProductSign(h, 1.0 - fraction);
  }

  /** A player who is blocked goes over the step exactly if that, raised by the height of the step, slid and put down
      again, does not end over a slope or lower than it began, and leads farther than the plain slide. */
  lemma StepIsTakenExactlyWhen(ents: seq<PhysEnt>, origin: Vec, velocity: Vec, time: real, jumping: bool,
                               touched: seq<int>, inAir: bool, slow: bool)
    requires ProperWorld(ents)
    requires Slid(ents, origin, velocity, time, jumping, touched).blocked != UNBLOCKED
    ensures var plain := Slid(ents, origin, velocity, time, jumping, touched);
            var s := StepSlid(ents, origin, velocity, time, jumping, touched, inAir, slow);
            var height := if inAir
                          then StepHeight(ents, true, plain.blocked, if velocity.z < 0.0 then plain.origin else origin)
                          else Some(18.0);
            && s.blocked == plain.blocked
            && (height == None ==> s == plain)
            && (height.Some? ==>
                  var level := if inAir && velocity.z < 0.0 then Vec(velocity.x, velocity.y, 0.0) else velocity;
                  var over := Slid(ents, Shifted(ents, origin, height.value), level, time, jumping, plain.touched);
                  var end := Shifted(ents, over.origin, -height.value);
                  var down := PlayerTraced(ents, over.origin, Add(over.origin, Vec(0.0, 0.0, -height.value)));
                  var taken := && !(down.fraction != 1.0 && down.plane.normal.z < 0.7) && end.z >= origin.z
                               && Distance2(end, origin) > Distance2(plain.origin, origin);
                  && s.origin == (if taken then end else plain.origin)
                  && (!taken ==> s.velocity == plain.velocity)
                  && (taken ==> s.velocity.z == plain.velocity.z)
                  && (taken && !slow ==> s.velocity.x == over.velocity.x && s.velocity.y == over.velocity.y))
  {
    hide Slid, PlayerTraced, Shifted, Distance2;
  }
}
