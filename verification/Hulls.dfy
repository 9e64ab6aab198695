/** Clipping hulls: a tree of planes that says which points are solid, and the line trace through it. */
module Hulls {
  import opened Geometry

  const CONTENTS_EMPTY := -1
  const CONTENTS_SOLID := -2
  const CONTENTS_WATER := -3

  datatype ClipNode = ClipNode(planenum: nat, front: int, back: int)

  /** hull_t. rank, not part of the C structure, witnesses that the nodes form no cycle. */
  datatype Hull = Hull(nodes: seq<ClipNode>, planes: seq<Plane>, first: nat, last: nat, rank: seq<nat>)

  predicate IsChild(h: Hull, num: int) {
    num < 0 || h.first <= num <= h.last
  }

  predicate WellFormed(h: Hull) {
    && h.first <= h.last < |h.nodes| == |h.rank|
    && forall i | h.first <= i <= h.last ::
         var node := h.nodes[i];
         && node.planenum < |h.planes| && ProperPlane(h.planes[node.planenum])
         && IsChild(h, node.front) && IsChild(h, node.back)
         && (node.front >= 0 ==> h.rank[node.front] < h.rank[i])
         && (node.back >= 0 ==> h.rank[node.back] < h.rank[i])
  }

  function Height(h: Hull, num: int): nat
    requires WellFormed(h) && IsChild(h, num)
  {
    if num < 0 then 0 else h.rank[num] + 1
  }

  function PlaneOf(h: Hull, num: int): Plane
    requires WellFormed(h) && h.first <= num <= h.last
  {
    h.planes[h.nodes[num].planenum]
  }

  /** The contents of the leaf that holds a point. */
  function Contents(h: Hull, num: int, p: Vec): int
    requires WellFormed(h) && IsChild(h, num)
    decreases Height(h, num)
  {
    if num < 0 then num
    else if PlaneDiff(p, PlaneOf(h, num)) < 0.0 then Contents(h, h.nodes[num].back, p)
    else Contents(h, h.nodes[num].front, p)
  }

  predicate Solid(h: Hull, num: int, p: Vec)
    requires WellFormed(h) && IsChild(h, num)
  {
    Contents(h, num, p) == CONTENTS_SOLID
  }

  /** Whether a point is in, or on the boundary of, a solid leaf. */
  predicate TouchesSolid(h: Hull, num: int, p: Vec)
    requires WellFormed(h) && IsChild(h, num)
    decreases Height(h, num)
  {
    if num < 0 then num == CONTENTS_SOLID
    else
      var d := PlaneDiff(p, PlaneOf(h, num));
      (d >= 0.0 && TouchesSolid(h, h.nodes[num].front, p)) ||
      (d <= 0.0 && TouchesSolid(h, h.nodes[num].back, p))
  }

  lemma {:induction false} SolidTouches(h: Hull, num: int, p: Vec)
    requires WellFormed(h) && IsChild(h, num) && Solid(h, num, p)
    ensures TouchesSolid(h, num, p)
    decreases Height(h, num)
  {
    if num >= 0 {
      SolidTouches(h, if PlaneDiff(p, PlaneOf(h, num)) < 0.0 then h.nodes[num].back else h.nodes[num].front, p);
    }
  }

  /** CM_HullPointContents */
  method HullPointContents(h: Hull, start: int, p: Vec) returns (contents: int)
    requires WellFormed(h) && IsChild(h, start)
    ensures contents == Contents(h, start, p) < 0
  {
    var num := start;
    while num >= 0
      invariant IsChild(h, num) && Contents(h, num, p) == Contents(h, start, p)
      decreases Height(h, num)
    {
      var node := h.nodes[num];
      var d := PlaneDiff(p, h.planes[node.planenum]);
      num := if d < 0.0 then node.back else node.front;
    }
    contents := num;
  }

  // ---------- The trace ----------

  const DIST_EPSILON := 0.03125

  /** bound(0, x, 1) */
  function Bound01(x: real): real {
    if x < 0.0 then 0.0 else if x > 1.0 then 1.0 else x
  }

  datatype TracePlane = TracePlane(normal: Vec, dist: real)

  /** trace_t; entnum is filled in by the callers. */
  datatype Trace = Trace(
    allsolid: bool, startsolid: bool, inopen: bool, inwater: bool,
    fraction: real, endpos: Vec, plane: TracePlane, entnum: int)

  function InitialTrace(end: Vec): Trace {
    Trace(false, false, false, false, 1.0, end, TracePlane(ORIGIN, 0.0), 0)
  }

  datatype Check = TrEmpty | TrSolid | TrBlocked

  /** hulltrace_local_t */
  datatype Progress = Progress(trace: Trace, leafcount: nat)

  function VisitLeaf(num: int, pr: Progress): (Check, Progress) {
    var n := pr.leafcount + 1;
    if num == CONTENTS_SOLID then
      (TrSolid, Progress(if n == 1 then pr.trace.(startsolid := true) else pr.trace, n))
    else if num == CONTENTS_EMPTY then (TrEmpty, Progress(pr.trace.(inopen := true), n))
    else (TrEmpty, Progress(pr.trace.(inwater := true), n))
  }

  /** Where a segment whose ends are at distances t1 and t2 meets the plane. */
  function Crossing(t1: real, t2: real): real
    requires t1 != t2
  {
    Bound01(t1 / (t1 - t2))
  }

  /** The same, pulled back to DIST_EPSILON from the plane. */
  function PulledBack(t1: real, t2: real): real
    requires t1 != t2
  {
    Bound01((if t1 < t2 then t1 + DIST_EPSILON else t1 - DIST_EPSILON) / (t1 - t2))
  }

  function Impact(plane: Plane, t1: real, t2: real, p1f: real, p2f: real, p1: Vec, p2: Vec, trace: Trace): Trace
    requires t1 != t2
  {
    var frac := PulledBack(t1, t2);
    trace.(plane := if t1 < t2 then TracePlane(Scale(plane.normal, -1.0), -plane.dist)
                    else TracePlane(plane.normal, plane.dist),
           fraction := Between(p1f, p2f, frac),
           endpos := Lerp(p1, p2, frac))
  }

  /** What RecursiveHullTrace computes, as a function. */
  function Walk(h: Hull, num: int, p1f: real, p2f: real, p1: Vec, p2: Vec, pr: Progress): (Check, Progress)
    requires WellFormed(h) && IsChild(h, num)
    decreases Height(h, num)
  {
    if num < 0 then VisitLeaf(num, pr)
    else
      var node, plane := h.nodes[num], PlaneOf(h, num);
      var t1, t2 := PlaneDiff(p1, plane), PlaneDiff(p2, plane);
      if t1 >= 0.0 && t2 >= 0.0 then Walk(h, node.front, p1f, p2f, p1, p2, pr)
      else if t1 < 0.0 && t2 < 0.0 then Walk(h, node.back, p1f, p2f, p1, p2, pr)
      else
        var frac := Crossing(t1, t2);
        var midf, mid := Between(p1f, p2f, frac), Lerp(p1, p2, frac);
        var near, far := if t1 < t2 then node.back else node.front, if t1 < t2 then node.front else node.back;
        var (check1, pr1) := Walk(h, near, p1f, midf, p1, mid, pr);
        if check1 == TrBlocked || (check1 == TrSolid && Opened(pr1)) then (check1, pr1)
        else
          var (check2, pr2) := Walk(h, far, midf, p2f, mid, p2, pr1);
          if check2 != TrSolid || check1 != TrEmpty then (check2, pr2)
          else (TrBlocked, pr2.(trace := Impact(plane, t1, t2, p1f, p2f, p1, p2, pr2.trace)))
  }

  predicate Opened(pr: Progress) {
    pr.trace.inopen || pr.trace.inwater
  }

  // ---------- What the result means on the segment from start to end ----------

  ghost predicate FreeBetween(h: Hull, num: int, start: Vec, end: Vec, a: real, b: real)
    requires WellFormed(h) && IsChild(h, num)
  {
    forall s | a <= s <= b :: !Solid(h, num, Lerp(start, end, s))
  }

  ghost predicate SolidBetween(h: Hull, num: int, start: Vec, end: Vec, a: real, b: real)
    requires WellFormed(h) && IsChild(h, num)
  {
    forall s | a <= s <= b :: Solid(h, num, Lerp(start, end, s))
  }

  ghost predicate TouchesBetween(h: Hull, num: int, start: Vec, end: Vec, a: real, b: real)
    requires WellFormed(h) && IsChild(h, num)
  {
    exists s :: a <= s <= b && TouchesSolid(h, num, Lerp(start, end, s))
  }

  predicate SameGeometry(t: Trace, u: Trace) {
    t.fraction == u.fraction && t.endpos == u.endpos && t.plane == u.plane && t.allsolid == u.allsolid &&
    t.entnum == u.entnum
  }

  /** Within [a, b], the piece that begins at p comes to the plane of a node at m. */
  ghost predicate Crosses(
    h: Hull, num: int, start: Vec, end: Vec, a: real, b: real, pl: Plane, p: real, m: real)
    requires WellFormed(h) && IsChild(h, num)
    decreases Height(h, num)
  {
    num >= 0 &&
    var node := h.nodes[num];
    var t1, t2 := DistanceAt(PlaneOf(h, num), start, end, a), DistanceAt(PlaneOf(h, num), start, end, b);
    if t1 >= 0.0 && t2 >= 0.0 then Crosses(h, node.front, start, end, a, b, pl, p, m)
    else if t1 < 0.0 && t2 < 0.0 then Crosses(h, node.back, start, end, a, b, pl, p, m)
    else
      var mid := Between(a, b, Crossing(t1, t2));
      || (pl == PlaneOf(h, num) && p == a && m == mid)
      || Crosses(h, if t1 < t2 then node.back else node.front, start, end, a, mid, pl, p, m)
      || Crosses(h, if t1 < t2 then node.front else node.back, start, end, mid, b, pl, p, m)
  }

  /** How far a point is in front of a returned plane. */
  function InFront(p: Vec, plane: TracePlane): real {
    Dot(p, plane.normal) - plane.dist
  }

  /** The returned plane is pl, turned to face the mover, and passes through the point at m. The mover, who set out
      from the point at p, is left DIST_EPSILON in front of it, or where the piece began if that is nearer. */
  ghost predicate AtPlane(start: Vec, end: Vec, t: Trace, pl: Plane, p: real, m: real) {
    && t.plane in {TracePlane(pl.normal, pl.dist), TracePlane(Scale(pl.normal, -1.0), -pl.dist)}
    && Dot(t.plane.normal, Sub(end, start)) < 0.0
    && InFront(Lerp(start, end, m), t.plane) == 0.0
    && InFront(Lerp(start, end, p), t.plane) >= 0.0
    && InFront(t.endpos, t.plane) == (if InFront(Lerp(start, end, p), t.plane) < DIST_EPSILON
                                      then InFront(Lerp(start, end, p), t.plane) else DIST_EPSILON)
  }

  /** A stopped trace has come to solid at m: all before that point is free, the point itself is in or on solid, and the
      trace ends just before it. */
  ghost predicate StopsAt(
    h: Hull, num: int, start: Vec, end: Vec, a: real, b: real, t: Trace, pl: Plane, p: real, m: real)
    requires WellFormed(h) && IsChild(h, num)
  {
    && a <= p <= t.fraction <= m <= b
    && Crosses(h, num, start, end, a, b, pl, p, m) && AtPlane(start, end, t, pl, p, m)
    && (forall s | a <= s < m :: !Solid(h, num, Lerp(start, end, s)))
    && TouchesSolid(h, num, Lerp(start, end, m))
  }

  ghost predicate StopsBefore(h: Hull, num: int, start: Vec, end: Vec, a: real, b: real, t: Trace)
    requires WellFormed(h) && IsChild(h, num)
  {
    exists pl, p, m :: StopsAt(h, num, start, end, a, b, t, pl, p, m)
  }

  /** The meaning of a walk over [a, b] that begins in the open. */
  ghost predicate OpenResult(
    h: Hull, num: int, start: Vec, end: Vec, a: real, b: real, t: Trace, check: Check, u: Trace)
    requires WellFormed(h) && IsChild(h, num)
  {
    match check
    case TrEmpty => SameGeometry(t, u) && FreeBetween(h, num, start, end, a, b)
    case TrSolid => SameGeometry(t, u) && Solid(h, num, Lerp(start, end, a))
    case TrBlocked =>
      && a <= u.fraction < b && u.endpos == Lerp(start, end, u.fraction)
      && u.allsolid == t.allsolid && u.entnum == t.entnum
      && FreeBetween(h, num, start, end, a, u.fraction)
      && StopsBefore(h, num, start, end, a, b, u)
  }

  /** Whether the walk begins outside solid. */
  predicate BeginsOpen(h: Hull, num: int, p: Vec, pr: Progress)
    requires WellFormed(h) && IsChild(h, num)
  {
    Opened(pr) || (pr.leafcount == 0 && !Solid(h, num, p))
  }

  predicate Consistent(pr: Progress) {
    Opened(pr) ==> pr.leafcount > 0
  }

  ghost predicate WalkResult(
    h: Hull, num: int, start: Vec, end: Vec, a: real, b: real, pr: Progress, check: Check, pr': Progress)
    requires WellFormed(h) && IsChild(h, num)
  {
    && pr'.leafcount > pr.leafcount
    && (pr.trace.startsolid ==> pr'.trace.startsolid)
    && (BeginsOpen(h, num, Lerp(start, end, a), pr) ==>
          && Opened(pr') && pr'.trace.startsolid == pr.trace.startsolid
          && OpenResult(h, num, start, end, a, b, pr.trace, check, pr'.trace))
    && (!BeginsOpen(h, num, Lerp(start, end, a), pr) ==>
          && (pr.leafcount == 0 ==> pr'.trace.startsolid)
          && pr'.trace.allsolid == pr.trace.allsolid
          && (check == TrSolid ==>
                !Opened(pr') && SameGeometry(pr.trace, pr'.trace) && SolidBetween(h, num, start, end, a, b)))
  }

  // ---------- Distances along the segment ----------

  function DistanceAt(pl: Plane, start: Vec, end: Vec, s: real): real {
    PlaneDiff(Lerp(start, end, s), pl)
  }

  lemma DistanceIsLinear(pl: Plane, start: Vec, end: Vec, s: real)
    ensures DistanceAt(pl, start, end, s) == PlaneDiff(start, pl) + s * (PlaneDiff(end, pl) - PlaneDiff(start, pl))
  {
    PlaneDiffAlong(start, end, pl, s);
  }

  lemma LinearIsAffine(c: real, m: real, a: real, b: real, k: real)
    ensures c + Between(a, b, k) * m == (c + a * m) + k * ((c + b * m) - (c + a * m))
  {
    assert k * (b * m - a * m) == (b - a) * k * m;
  }

  lemma ProductSign(x: real, m: real)
    requires x >= 0.0
    ensures m >= 0.0 ==> x * m >= 0.0
    ensures m <= 0.0 ==> x * m <= 0.0
    ensures x > 0.0 && m > 0.0 ==> x * m > 0.0
  {
  }

  lemma LinearSameSide(c: real, m: real, a: real, b: real, s: real)
    requires a <= s <= b
    ensures var da, db, ds := c + a * m, c + b * m, c + s * m;
            && (da >= 0.0 && db >= 0.0 ==> ds >= 0.0)
            && (da <= 0.0 && db <= 0.0 ==> ds <= 0.0)
            && (da < 0.0 && db < 0.0 ==> ds < 0.0)
            && (da < 0.0 && db <= 0.0 && s < b ==> ds < 0.0)
            && (da <= 0.0 && db < 0.0 && s > a ==> ds < 0.0)
  {
    ProductSign(s - a, m);
    ProductSign(b - s, m);
    ProductSign(s - a, -m);
  }

  lemma DistanceIsAffine(pl: Plane, start: Vec, end: Vec, a: real, b: real, k: real)
    ensures DistanceAt(pl, start, end, Between(a, b, k))
            == DistanceAt(pl, start, end, a) + k * (DistanceAt(pl, start, end, b) - DistanceAt(pl, start, end, a))
  {
    hide Lerp, PlaneDiff, Between;
    var c, m := PlaneDiff(start, pl), PlaneDiff(end, pl) - PlaneDiff(start, pl);
    DistanceIsLinear(pl, start, end, a);
    DistanceIsLinear(pl, start, end, b);
    DistanceIsLinear(pl, start, end, Between(a, b, k));
    LinearIsAffine(c, m, a, b, k);
  }

  /** Between two points on one side of the plane, every point is on that side. */
  lemma SameSideBetween(pl: Plane, start: Vec, end: Vec, a: real, b: real, s: real)
    requires a <= s <= b
    ensures var da, db := DistanceAt(pl, start, end, a), DistanceAt(pl, start, end, b);
            var ds := DistanceAt(pl, start, end, s);
            && (da >= 0.0 && db >= 0.0 ==> ds >= 0.0)
            && (da <= 0.0 && db <= 0.0 ==> ds <= 0.0)
            && (da < 0.0 && db < 0.0 ==> ds < 0.0)
            && (da < 0.0 && db <= 0.0 && s < b ==> ds < 0.0)
            && (da <= 0.0 && db < 0.0 && s > a ==> ds < 0.0)
  {
    hide Lerp, PlaneDiff;
    var c, m := PlaneDiff(start, pl), PlaneDiff(end, pl) - PlaneDiff(start, pl);
    DistanceIsLinear(pl, start, end, a);
    DistanceIsLinear(pl, start, end, b);
    DistanceIsLinear(pl, start, end, s);
    LinearSameSide(c, m, a, b, s);
  }

  /** Where the segment crosses the plane: the near part keeps the side it begins on. */
  lemma CrossingSplits(pl: Plane, start: Vec, end: Vec, a: real, b: real)
    requires a <= b
    requires var t1, t2 := DistanceAt(pl, start, end, a), DistanceAt(pl, start, end, b);
             (t1 >= 0.0 && t2 < 0.0) || (t1 < 0.0 && t2 >= 0.0)
    ensures var t1, t2 := DistanceAt(pl, start, end, a), DistanceAt(pl, start, end, b);
            var m, q := Between(a, b, Crossing(t1, t2)), Between(a, b, PulledBack(t1, t2));
            && a <= q <= m <= b && DistanceAt(pl, start, end, m) == 0.0
            && (t1 < t2 ==> a < m && q < m)
            && (t1 > t2 ==> m < b)
            && Lerp(Lerp(start, end, a), Lerp(start, end, b), Crossing(t1, t2)) == Lerp(start, end, m)
            && Lerp(Lerp(start, end, a), Lerp(start, end, b), PulledBack(t1, t2)) == Lerp(start, end, q)
  {
    hide Lerp, PlaneDiff, Between, Crossing, PulledBack;
    var t1, t2 := DistanceAt(pl, start, end, a), DistanceAt(pl, start, end, b);
    var k, j := Crossing(t1, t2), PulledBack(t1, t2);
    assert a < b;
    CrossingFraction(t1, t2);
    PulledBackFraction(t1, t2);
    DistanceIsAffine(pl, start, end, a, b, k);
    assert DistanceAt(pl, start, end, Between(a, b, k)) == 0.0;
    LerpOfLerps(start, end, a, b, k);
    LerpOfLerps(start, end, a, b, j);
    BetweenBounds(a, b, k);
    BetweenBounds(a, b, j);
    BetweenOrder(a, b, j, k);
  }

  lemma CrossingFraction(t1: real, t2: real)
    requires (t1 >= 0.0 && t2 < 0.0) || (t1 < 0.0 && t2 >= 0.0)
    ensures Crossing(t1, t2) == t1 / (t1 - t2)
    ensures 0.0 <= Crossing(t1, t2) <= 1.0
    ensures t1 + Crossing(t1, t2) * (t2 - t1) == 0.0
    ensures if t1 < t2 then Crossing(t1, t2) > 0.0 else Crossing(t1, t2) < 1.0
  {
    var d := t1 - t2;
    Quotient(t1, d);
    Quotient(-t2, d);
    var k, u := t1 / d, -t2 / d;
    PartsOfOne(k, u, d, t1, -t2);
  }

  /** Pulled back, the fraction is no later, and the point there is on the side of the segment's beginning,
      DIST_EPSILON from the plane, or at the beginning if that is nearer. */
  lemma PulledBackFraction(t1: real, t2: real)
    requires (t1 >= 0.0 && t2 < 0.0) || (t1 < 0.0 && t2 >= 0.0)
    ensures 0.0 <= PulledBack(t1, t2) <= Crossing(t1, t2)
    ensures t1 < t2 ==> PulledBack(t1, t2) < Crossing(t1, t2)
    ensures var d := t1 + PulledBack(t1, t2) * (t2 - t1);
            && (t1 >= 0.0 ==> d == if t1 < DIST_EPSILON then t1 else DIST_EPSILON)
            && (t1 < 0.0 ==> d == if t1 > -DIST_EPSILON then t1 else -DIST_EPSILON)
  {
    CrossingFraction(t1, t2);
    var d := t1 - t2;
    var e := if t1 < t2 then DIST_EPSILON else -DIST_EPSILON;
    Quotient(t1 + e, d);
    Quotient(e, d);
    Quotient(t1, d);
    var x := (t1 + e) / d;
    assert x * d == t1 + e && e / d < 0.0;
    assert (t1 / d + e / d) * d == t1 + e;
    SameFactor(x, t1 / d + e / d, d);
    assert x < Crossing(t1, t2) && PulledBack(t1, t2) == if x < 0.0 then 0.0 else x;
    assert x * (t2 - t1) == -(x * d);
  }

  lemma Quotient(x: real, d: real)
    requires d != 0.0
    ensures x / d * d == x
    ensures d > 0.0 ==> (x >= 0.0 <==> x / d >= 0.0) && (x > 0.0 <==> x / d > 0.0)
    ensures d < 0.0 ==> (x >= 0.0 <==> x / d <= 0.0) && (x > 0.0 <==> x / d < 0.0)
  {
    var q := x / d;
    assert q * d == x;
  }

  lemma PartsOfOne(k: real, u: real, d: real, x: real, y: real)
    requires d != 0.0 && k * d == x && u * d == y && x + y == d
    ensures k + u == 1.0
  {
    assert (k + u) * d == k * d + u * d;
    assert 1.0 * d == d;
    SameFactor(k + u, 1.0, d);
  }

  lemma SameFactor(x: real, y: real, d: real)
    requires x * d == y * d && d != 0.0
    ensures x == y
  {
    assert (x - y) * d == 0.0;
  }

  lemma BetweenBounds(a: real, b: real, k: real)
    requires a <= b && 0.0 <= k <= 1.0
    ensures a <= Between(a, b, k) <= b
    ensures a < b && k < 1.0 ==> Between(a, b, k) < b
  {
    ProductSign(b - a, k);
    ProductSign(b - a, 1.0 - k);
  }

  lemma BetweenOrder(a: real, b: real, j: real, k: real)
    requires a < b && 0.0 <= j <= k
    ensures Between(a, b, j) <= Between(a, b, k)
    ensures j < k ==> Between(a, b, j) < Between(a, b, k)
  {
    ProductSign(b - a, k - j);
  }

  // ---------- The walk is sound ----------

  /** On [a, b] a node's contents are those of a child, which is on the boundary of solid only where the node is. */
  ghost predicate Inherits(h: Hull, num: int, child: int, start: Vec, end: Vec, a: real, b: real)
    requires WellFormed(h) && IsChild(h, num) && IsChild(h, child)
  {
    forall s | a <= s <= b ::
      && Contents(h, num, Lerp(start, end, s)) == Contents(h, child, Lerp(start, end, s))
      && (TouchesSolid(h, child, Lerp(start, end, s)) ==> TouchesSolid(h, num, Lerp(start, end, s)))
  }

  ghost predicate SameCrossings(h: Hull, num: int, child: int, start: Vec, end: Vec, a: real, b: real, c: real, d: real)
    requires WellFormed(h) && IsChild(h, num) && IsChild(h, child)
  {
    forall pl, p, m ::
      Crosses(h, child, start, end, c, d, pl, p, m) ==> Crosses(h, num, start, end, a, b, pl, p, m)
  }

  lemma OneSideInherits(h: Hull, num: int, start: Vec, end: Vec, a: real, b: real)
    requires WellFormed(h) && h.first <= num <= h.last && a <= b
    ensures var d1, d2 := DistanceAt(PlaneOf(h, num), start, end, a), DistanceAt(PlaneOf(h, num), start, end, b);
            && (d1 >= 0.0 && d2 >= 0.0 ==>
                  && Inherits(h, num, h.nodes[num].front, start, end, a, b)
                  && SameCrossings(h, num, h.nodes[num].front, start, end, a, b, a, b))
            && (d1 < 0.0 && d2 < 0.0 ==>
                  && Inherits(h, num, h.nodes[num].back, start, end, a, b)
                  && SameCrossings(h, num, h.nodes[num].back, start, end, a, b, a, b))
  {
    hide Lerp, PlaneDiff, Between, Crossing;
    var pl := PlaneOf(h, num);
    forall s | a <= s <= b
      ensures DistanceAt(pl, start, end, a) >= 0.0 && DistanceAt(pl, start, end, b) >= 0.0 ==>
                PlaneDiff(Lerp(start, end, s), pl) >= 0.0
      ensures DistanceAt(pl, start, end, a) < 0.0 && DistanceAt(pl, start, end, b) < 0.0 ==>
                PlaneDiff(Lerp(start, end, s), pl) < 0.0
    {
      SameSideBetween(pl, start, end, a, b, s);
    }
  }

  lemma InheritedResult(
    h: Hull, num: int, child: int, start: Vec, end: Vec, a: real, b: real, pr: Progress, check: Check, pr': Progress)
    requires WellFormed(h) && IsChild(h, num) && IsChild(h, child) && a <= b
    requires Inherits(h, num, child, start, end, a, b) && SameCrossings(h, num, child, start, end, a, b, a, b)
    requires WalkResult(h, child, start, end, a, b, pr, check, pr')
    ensures WalkResult(h, num, start, end, a, b, pr, check, pr')
  {
    hide Lerp, Contents, TouchesSolid, AtPlane, Crosses;
    if check == TrBlocked && BeginsOpen(h, num, Lerp(start, end, a), pr) {
      var pl, p, m :| StopsAt(h, child, start, end, a, b, pr'.trace, pl, p, m);
      assert StopsAt(h, num, start, end, a, b, pr'.trace, pl, p, m);
    }
  }

  lemma LeafResult(h: Hull, num: int, start: Vec, end: Vec, a: real, b: real, pr: Progress)
    requires WellFormed(h) && num < 0 && Consistent(pr)
    ensures var (check, pr') := VisitLeaf(num, pr);
            WalkResult(h, num, start, end, a, b, pr, check, pr')
  {
    hide Lerp, Dot;
  }

  /** The crossing point m parts [a, b]: before it the near child decides, after it the far one,
      and at it the front one. */
  ghost predicate Parts(h: Hull, num: int, near: int, far: int, start: Vec, end: Vec, a: real, m: real, b: real,
                        frontNear: bool)
    requires WellFormed(h) && IsChild(h, num) && IsChild(h, near) && IsChild(h, far)
  {
    && (forall s | a <= s <= m ::
          TouchesSolid(h, near, Lerp(start, end, s)) ==> TouchesSolid(h, num, Lerp(start, end, s)))
    && (forall s | m <= s <= b ::
          TouchesSolid(h, far, Lerp(start, end, s)) ==> TouchesSolid(h, num, Lerp(start, end, s)))
    && (forall s | a <= s && (s < m || (frontNear && s == m)) ::
          Contents(h, num, Lerp(start, end, s)) == Contents(h, near, Lerp(start, end, s)))
    && (forall s | s <= b && (m < s || (!frontNear && s == m)) ::
          Contents(h, num, Lerp(start, end, s)) == Contents(h, far, Lerp(start, end, s)))
  }

  lemma PartsCross(h: Hull, num: int, start: Vec, end: Vec, a: real, b: real)
    requires WellFormed(h) && h.first <= num <= h.last
    requires var t1, t2 := DistanceAt(PlaneOf(h, num), start, end, a), DistanceAt(PlaneOf(h, num), start, end, b);
             (t1 >= 0.0 && t2 < 0.0) || (t1 < 0.0 && t2 >= 0.0)
    ensures var t1, t2 := DistanceAt(PlaneOf(h, num), start, end, a), DistanceAt(PlaneOf(h, num), start, end, b);
            var m, node := Between(a, b, Crossing(t1, t2)), h.nodes[num];
            && Crosses(h, num, start, end, a, b, PlaneOf(h, num), a, m)
            && SameCrossings(h, num, if t1 < t2 then node.back else node.front, start, end, a, b, a, m)
            && SameCrossings(h, num, if t1 < t2 then node.front else node.back, start, end, a, b, m, b)
  {
    hide Lerp, PlaneDiff, Between, Crossing;
  }

  lemma CrossingParts(h: Hull, num: int, start: Vec, end: Vec, a: real, m: real, b: real)
    requires WellFormed(h) && h.first <= num <= h.last && a <= m <= b
    requires DistanceAt(PlaneOf(h, num), start, end, m) == 0.0
    ensures var d1, d2 := DistanceAt(PlaneOf(h, num), start, end, a), DistanceAt(PlaneOf(h, num), start, end, b);
            var node := h.nodes[num];
            && (d1 >= 0.0 && d2 < 0.0 ==> Parts(h, num, node.front, node.back, start, end, a, m, b, true))
            && (d1 < 0.0 && d2 >= 0.0 ==> Parts(h, num, node.back, node.front, start, end, a, m, b, false))
  {
    hide Lerp, PlaneDiff;
    var pl := PlaneOf(h, num);
    var d1, d2 := DistanceAt(pl, start, end, a), DistanceAt(pl, start, end, b);
    forall s | a <= s <= m
      ensures d1 >= 0.0 ==> PlaneDiff(Lerp(start, end, s), pl) >= 0.0
      ensures d1 < 0.0 ==> PlaneDiff(Lerp(start, end, s), pl) <= 0.0
      ensures d1 < 0.0 && s < m ==> PlaneDiff(Lerp(start, end, s), pl) < 0.0
    {
      SameSideBetween(pl, start, end, a, m, s);
    }
    forall s | m <= s <= b
      ensures d2 >= 0.0 ==> PlaneDiff(Lerp(start, end, s), pl) >= 0.0
      ensures d2 < 0.0 ==> PlaneDiff(Lerp(start, end, s), pl) <= 0.0
      ensures d2 < 0.0 && m < s ==> PlaneDiff(Lerp(start, end, s), pl) < 0.0
    {
      SameSideBetween(pl, start, end, m, b, s);
    }
  }

  /** The walk stops in the near part. */
  lemma StoppedResult(
    h: Hull, num: int, near: int, far: int, start: Vec, end: Vec, a: real, m: real, b: real, frontNear: bool,
    pr: Progress, check: Check, pr': Progress)
    requires WellFormed(h) && IsChild(h, num) && IsChild(h, near) && IsChild(h, far)
    requires a <= m <= b && (frontNear || a < m)
    requires Parts(h, num, near, far, start, end, a, m, b, frontNear)
    requires SameCrossings(h, num, near, start, end, a, b, a, m)
    requires WalkResult(h, near, start, end, a, m, pr, check, pr')
    requires check == TrBlocked || (check == TrSolid && Opened(pr'))
    ensures WalkResult(h, num, start, end, a, b, pr, check, pr')
  {
    hide Lerp, Contents, TouchesSolid, AtPlane, Crosses;
    if check == TrBlocked && BeginsOpen(h, num, Lerp(start, end, a), pr) {
      var pl, p, k :| StopsAt(h, near, start, end, a, m, pr'.trace, pl, p, k);
      assert StopsAt(h, num, start, end, a, b, pr'.trace, pl, p, k);
    }
  }

  /** The walk goes on past the plane and has the far part's outcome. */
  lemma ContinuedResult(
    h: Hull, num: int, near: int, far: int, start: Vec, end: Vec, a: real, m: real, b: real, frontNear: bool,
    pr: Progress, check1: Check, pr1: Progress, check2: Check, pr2: Progress)
    requires WellFormed(h) && IsChild(h, num) && IsChild(h, near) && IsChild(h, far)
    requires a <= m <= b && (frontNear || a < m)
    requires Parts(h, num, near, far, start, end, a, m, b, frontNear)
    requires WalkResult(h, near, start, end, a, m, pr, check1, pr1)
    requires WalkResult(h, far, start, end, m, b, pr1, check2, pr2)
    requires SameCrossings(h, num, far, start, end, a, b, m, b)
    requires check1 != TrBlocked && !(check1 == TrSolid && Opened(pr1))
    requires check2 != TrSolid || check1 != TrEmpty
    ensures WalkResult(h, num, start, end, a, b, pr, check2, pr2)
  {
    hide Lerp, Contents, TouchesSolid, AtPlane, Crosses;
    if BeginsOpen(h, num, Lerp(start, end, a), pr) {
      assert check1 == TrEmpty && BeginsOpen(h, far, Lerp(start, end, m), pr1);
      forall s | a <= s <= (if check2 == TrBlocked then pr2.trace.fraction else b)
        ensures !Solid(h, num, Lerp(start, end, s))
      {
        assert s <= m ==> !Solid(h, near, Lerp(start, end, s));
        assert s >= m ==> !Solid(h, far, Lerp(start, end, s));
      }
      if check2 == TrBlocked {
        var pl, p, k :| StopsAt(h, far, start, end, m, b, pr2.trace, pl, p, k);
        assert StopsAt(h, num, start, end, a, b, pr2.trace, pl, p, k) by {
          forall s | a <= s < k ensures !Solid(h, num, Lerp(start, end, s)) {
            assert s <= m ==> !Solid(h, near, Lerp(start, end, s));
            assert s >= m ==> !Solid(h, far, Lerp(start, end, s));
          }
        }
      }
    } else if check2 == TrSolid {
      forall s | a <= s <= b ensures Solid(h, num, Lerp(start, end, s)) {
        assert s <= m ==> Solid(h, near, Lerp(start, end, s));
        assert s >= m ==> Solid(h, far, Lerp(start, end, s));
      }
    }
  }

  lemma FacesTheMover(pl: Plane, start: Vec, end: Vec, a: real, b: real)
    requires ProperPlane(pl) && a < b
    ensures DistanceAt(pl, start, end, a) > DistanceAt(pl, start, end, b) ==> Dot(pl.normal, Sub(end, start)) < 0.0
    ensures DistanceAt(pl, start, end, a) < DistanceAt(pl, start, end, b) ==>
              Dot(Scale(pl.normal, -1.0), Sub(end, start)) < 0.0
  {
    hide Dot, PlaneDiff, Lerp, Scale, Sub;
    var m := PlaneDiff(end, pl) - PlaneDiff(start, pl);
    DotOfDifference(pl, start, end);
    DistanceIsLinear(pl, start, end, a);
    DistanceIsLinear(pl, start, end, b);
    ProductSign(b - a, m);
    ProductSign(b - a, -m);
  }

  lemma DotOfDifference(pl: Plane, start: Vec, end: Vec)
    requires ProperPlane(pl)
    ensures Dot(pl.normal, Sub(end, start)) == PlaneDiff(end, pl) - PlaneDiff(start, pl)
    ensures Dot(Scale(pl.normal, -1.0), Sub(end, start)) == PlaneDiff(start, pl) - PlaneDiff(end, pl)
  {
    PlaneDiffIsDot(start, pl);
    PlaneDiffIsDot(end, pl);
  }

  lemma ImpactIsClose(pl: Plane, start: Vec, end: Vec, a: real, b: real, t: Trace)
    requires ProperPlane(pl) && a <= b
    requires var t1, t2 := DistanceAt(pl, start, end, a), DistanceAt(pl, start, end, b);
             (t1 >= 0.0 && t2 < 0.0) || (t1 < 0.0 && t2 >= 0.0)
    ensures var t1, t2 := DistanceAt(pl, start, end, a), DistanceAt(pl, start, end, b);
            AtPlane(start, end, Impact(pl, t1, t2, a, b, Lerp(start, end, a), Lerp(start, end, b), t), pl, a,
                    Between(a, b, Crossing(t1, t2)))
  {
    hide Lerp, PlaneDiff, Between, Crossing, PulledBack, Dot, Scale, Sub;
    var t1, t2 := DistanceAt(pl, start, end, a), DistanceAt(pl, start, end, b);
    var m, q := Between(a, b, Crossing(t1, t2)), Between(a, b, PulledBack(t1, t2));
    assert a < b;
    CrossingSplits(pl, start, end, a, b);
    PulledBackFraction(t1, t2);
    DistanceIsAffine(pl, start, end, a, b, PulledBack(t1, t2));
    FacesTheMover(pl, start, end, a, b);
    PlaneDiffIsDot(Lerp(start, end, a), pl);
    PlaneDiffIsDot(Lerp(start, end, m), pl);
    PlaneDiffIsDot(Lerp(start, end, q), pl);
    DotOfOpposite(Lerp(start, end, a), pl.normal);
    DotOfOpposite(Lerp(start, end, m), pl.normal);
    DotOfOpposite(Lerp(start, end, q), pl.normal);
  }

  lemma DotOfOpposite(p: Vec, n: Vec)
    ensures Dot(p, Scale(n, -1.0)) == -Dot(p, n)
  {
  }

  /** Open before the plane and solid after it: the point of impact. */
  lemma ImpactResult(
    h: Hull, num: int, near: int, far: int, start: Vec, end: Vec, a: real, q: real, m: real, b: real, frontNear: bool,
    pl: Plane, pr: Progress, pr1: Progress, pr2: Progress, pr': Progress)
    requires WellFormed(h) && IsChild(h, num) && IsChild(h, near) && IsChild(h, far)
    requires a <= q <= m <= b && (if frontNear then m < b else q < m)
    requires Parts(h, num, near, far, start, end, a, m, b, frontNear)
    requires WalkResult(h, near, start, end, a, m, pr, TrEmpty, pr1)
    requires WalkResult(h, far, start, end, m, b, pr1, TrSolid, pr2)
    requires pr'.leafcount == pr2.leafcount
    requires pr'.trace == pr2.trace.(fraction := q, endpos := Lerp(start, end, q), plane := pr'.trace.plane)
    requires Crosses(h, num, start, end, a, b, pl, a, m) && AtPlane(start, end, pr'.trace, pl, a, m)
    ensures WalkResult(h, num, start, end, a, b, pr, TrBlocked, pr')
  {
    hide Lerp, Contents, TouchesSolid, AtPlane, Crosses;
    if BeginsOpen(h, num, Lerp(start, end, a), pr) {
      SolidTouches(h, far, Lerp(start, end, m));
      assert TouchesSolid(h, num, Lerp(start, end, m));
      forall s | a <= s <= m && (s <= q || s < m) ensures !Solid(h, num, Lerp(start, end, s)) {
        assert !Solid(h, near, Lerp(start, end, s));
      }
      assert StopsAt(h, num, start, end, a, b, pr'.trace, pl, a, m);
    }
  }

  lemma {:induction false} WalkSound(h: Hull, num: int, start: Vec, end: Vec, a: real, b: real, pr: Progress)
    requires WellFormed(h) && IsChild(h, num) && a <= b && Consistent(pr)
    ensures var (check, pr') := Walk(h, num, a, b, Lerp(start, end, a), Lerp(start, end, b), pr);
            WalkResult(h, num, start, end, a, b, pr, check, pr')
    decreases Height(h, num)
  {
    hide Lerp, PlaneDiff, Contents, TouchesSolid, Crossing, PulledBack, Between, AtPlane, Crosses, Scale;
    if num < 0 {
      LeafResult(h, num, start, end, a, b, pr);
      return;
    }
    var node, pl := h.nodes[num], PlaneOf(h, num);
    var p1, p2 := Lerp(start, end, a), Lerp(start, end, b);
    var t1, t2 := DistanceAt(pl, start, end, a), DistanceAt(pl, start, end, b);
    var (check, pr') := Walk(h, num, a, b, p1, p2, pr);
    OneSideInherits(h, num, start, end, a, b);
    if t1 >= 0.0 && t2 >= 0.0 {
      WalkSound(h, node.front, start, end, a, b, pr);
      InheritedResult(h, num, node.front, start, end, a, b, pr, check, pr');
    } else if t1 < 0.0 && t2 < 0.0 {
      WalkSound(h, node.back, start, end, a, b, pr);
      InheritedResult(h, num, node.back, start, end, a, b, pr, check, pr');
    } else {
      CrossingSplits(pl, start, end, a, b);
      var m, q := Between(a, b, Crossing(t1, t2)), Between(a, b, PulledBack(t1, t2));
      var mid := Lerp(start, end, m);
      CrossingParts(h, num, start, end, a, m, b);
      PartsCross(h, num, start, end, a, b);
      var near, far := if t1 < t2 then node.back else node.front, if t1 < t2 then node.front else node.back;
      var (check1, pr1) := Walk(h, near, a, m, p1, mid, pr);
      WalkSound(h, near, start, end, a, m, pr);
      if check1 == TrBlocked || (check1 == TrSolid && Opened(pr1)) {
        assert (check, pr') == (check1, pr1);
        StoppedResult(h, num, near, far, start, end, a, m, b, t1 > t2, pr, check1, pr1);
      } else {
        var (check2, pr2) := Walk(h, far, m, b, mid, p2, pr1);
        WalkSound(h, far, start, end, m, b, pr1);
        if check2 != TrSolid || check1 != TrEmpty {
          ContinuedResult(h, num, near, far, start, end, a, m, b, t1 > t2, pr, check1, pr1, check2, pr2);
        } else {
          ImpactIsClose(pl, start, end, a, b, pr2.trace);
          ImpactResult(h, num, near, far, start, end, a, q, m, b, t1 > t2, pl, pr, pr1, pr2, pr');
        }
      }
    }
  }

  // ---------- CM_HullTrace ----------

  function Traced(h: Hull, start: Vec, end: Vec): Trace
    requires WellFormed(h)
  {
    var (check, pr) := Walk(h, h.first, 0.0, 1.0, start, end, Progress(InitialTrace(end), 0));
    if check == TrSolid then pr.trace.(startsolid := true, allsolid := true, endpos := start) else pr.trace
  }

  lemma LerpEnds(start: Vec, end: Vec)
    ensures Lerp(start, end, 0.0) == start && Lerp(start, end, 1.0) == end
  {
  }

  /** startsolid says exactly whether the start is solid. From an open start, the trace stops at the returned
      fraction of the way, no point up to and including the one where it stops is solid, and if it stops short, it does
      so DIST_EPSILON in front of the returned plane, on which the segment comes to solid, or nearer if the piece of the
      segment in which it stops begins nearer. */
  ghost predicate SoundTrace(h: Hull, start: Vec, end: Vec, t: Trace)
    requires WellFormed(h)
  {
    && (t.startsolid <==> Solid(h, h.first, start))
    && (!t.startsolid ==>
          && !t.allsolid
          && 0.0 <= t.fraction <= 1.0 && t.endpos == Lerp(start, end, t.fraction)
          && FreeBetween(h, h.first, start, end, 0.0, t.fraction)
          && (t.fraction < 1.0 ==> StopsBefore(h, h.first, start, end, 0.0, 1.0, t)))
    && (t.allsolid ==> SolidBetween(h, h.first, start, end, 0.0, 1.0) && t.endpos == start && t.fraction == 1.0)
  }

  lemma TraceIsSound(h: Hull, start: Vec, end: Vec)
    requires WellFormed(h)
    ensures SoundTrace(h, start, end, Traced(h, start, end))
  {
    hide Lerp, Contents, TouchesSolid, Dot, Sub;
    LerpEnds(start, end);
    WalkSound(h, h.first, start, end, 0.0, 1.0, Progress(InitialTrace(end), 0));
  }

  /** Whether one of the pieces into which the planes cut the segment falls into a solid leaf. A piece may be a single
      point, on a plane that the segment only reaches there, and then it counts for both sides of that plane. */
  predicate MeetsSolid(h: Hull, num: int, start: Vec, end: Vec, a: real, b: real)
    requires WellFormed(h) && IsChild(h, num)
    decreases Height(h, num)
  {
    if num < 0 then num == CONTENTS_SOLID
    else
      var node := h.nodes[num];
      var t1, t2 := DistanceAt(PlaneOf(h, num), start, end, a), DistanceAt(PlaneOf(h, num), start, end, b);
      if t1 >= 0.0 && t2 >= 0.0 then MeetsSolid(h, node.front, start, end, a, b)
      else if t1 < 0.0 && t2 < 0.0 then MeetsSolid(h, node.back, start, end, a, b)
      else
        var m := Between(a, b, Crossing(t1, t2));
        || MeetsSolid(h, if t1 < t2 then node.back else node.front, start, end, a, m)
        || MeetsSolid(h, if t1 < t2 then node.front else node.back, start, end, m, b)
  }

  /** A walk that begins in the open comes through exactly if it meets no solid piece. */
  lemma {:induction false} WalkComesThrough(h: Hull, num: int, start: Vec, end: Vec, a: real, b: real, pr: Progress)
    requires WellFormed(h) && IsChild(h, num) && a <= b && Consistent(pr)
    requires BeginsOpen(h, num, Lerp(start, end, a), pr)
    ensures Walk(h, num, a, b, Lerp(start, end, a), Lerp(start, end, b), pr).0 == TrEmpty
            <==> !MeetsSolid(h, num, start, end, a, b)
    decreases Height(h, num)
  {
    hide Lerp, PlaneDiff, Contents, TouchesSolid, Crossing, PulledBack, Between, Dot, Sub, Scale, OpenResult;
    if num >= 0 {
      var node, pl := h.nodes[num], PlaneOf(h, num);
      var p1, p2 := Lerp(start, end, a), Lerp(start, end, b);
      var t1, t2 := DistanceAt(pl, start, end, a), DistanceAt(pl, start, end, b);
      OneSideInherits(h, num, start, end, a, b);
      if t1 >= 0.0 && t2 >= 0.0 {
        WalkComesThrough(h, node.front, start, end, a, b, pr);
      } else if t1 < 0.0 && t2 < 0.0 {
        WalkComesThrough(h, node.back, start, end, a, b, pr);
      } else {
        CrossingSplits(pl, start, end, a, b);
        var m := Between(a, b, Crossing(t1, t2));
        CrossingParts(h, num, start, end, a, m, b);
        var near, far := if t1 < t2 then node.back else node.front, if t1 < t2 then node.front else node.back;
        WalkComesThrough(h, near, start, end, a, m, pr);
        WalkSound(h, near, start, end, a, m, pr);
        var (check1, pr1) := Walk(h, near, a, m, p1, Lerp(start, end, m), pr);
        if check1 == TrEmpty {
          WalkComesThrough(h, far, start, end, m, b, pr1);
        }
      }
    }
  }

  /** Points that are solid by the oracle are on such pieces, and such pieces hold points on the boundary of solid. */
  lemma {:induction false} MeetsSolidIsBetween(h: Hull, num: int, start: Vec, end: Vec, a: real, b: real)
    requires WellFormed(h) && IsChild(h, num) && a <= b
    ensures !FreeBetween(h, num, start, end, a, b) ==> MeetsSolid(h, num, start, end, a, b)
    ensures MeetsSolid(h, num, start, end, a, b) ==> TouchesBetween(h, num, start, end, a, b)
    decreases Height(h, num)
  {
    hide Lerp, PlaneDiff, Contents, TouchesSolid, Crossing, Between;
    if num < 0 {
      LeafMeets(h, num, start, end, a, b);
    } else {
      var node, pl := h.nodes[num], PlaneOf(h, num);
      var t1, t2 := DistanceAt(pl, start, end, a), DistanceAt(pl, start, end, b);
      OneSideInherits(h, num, start, end, a, b);
      if t1 >= 0.0 && t2 >= 0.0 {
        MeetsSolidIsBetween(h, node.front, start, end, a, b);
      } else if t1 < 0.0 && t2 < 0.0 {
        MeetsSolidIsBetween(h, node.back, start, end, a, b);
      } else {
        CrossingSplits(pl, start, end, a, b);
        var m := Between(a, b, Crossing(t1, t2));
        CrossingParts(h, num, start, end, a, m, b);
        MeetsSolidIsBetween(h, if t1 < t2 then node.back else node.front, start, end, a, m);
        MeetsSolidIsBetween(h, if t1 < t2 then node.front else node.back, start, end, m, b);
      }
    }
  }

  lemma LeafMeets(h: Hull, num: int, start: Vec, end: Vec, a: real, b: real)
    requires WellFormed(h) && num < 0 && a <= b
    ensures !FreeBetween(h, num, start, end, a, b) ==> num == CONTENTS_SOLID
    ensures num == CONTENTS_SOLID ==> TouchesBetween(h, num, start, end, a, b)
  {
    hide Lerp;
    if num == CONTENTS_SOLID {
      assert TouchesSolid(h, num, Lerp(start, end, a));
    }
  }

  /** From a start that is not solid, the trace crosses the whole segment exactly if it meets no solid piece. */
  lemma CrossedWholeExactlyWhen(h: Hull, start: Vec, end: Vec)
    requires WellFormed(h) && !Solid(h, h.first, start)
    ensures Traced(h, start, end).fraction == 1.0 <==> !MeetsSolid(h, h.first, start, end, 0.0, 1.0)
  {
    hide Lerp, Contents, TouchesSolid, Dot, Sub, MeetsSolid, FreeBetween, TouchesBetween;
    LerpEnds(start, end);
    var pr := Progress(InitialTrace(end), 0);
    WalkComesThrough(h, h.first, start, end, 0.0, 1.0, pr);
    WalkSound(h, h.first, start, end, 0.0, 1.0, pr);
  }

  /** A segment with no point on or in solid is crossed whole. */
  lemma ClearOfSolid(h: Hull, start: Vec, end: Vec)
    requires WellFormed(h) && !TouchesBetween(h, h.first, start, end, 0.0, 1.0)
    ensures var t := Traced(h, start, end);
            t.fraction == 1.0 && t.endpos == end && !t.startsolid && !t.allsolid
  {
    hide Lerp, Contents, TouchesSolid, Dot, Sub;
    LerpEnds(start, end);
    TraceIsSound(h, start, end);
    if Solid(h, h.first, start) {
      SolidTouches(h, h.first, start);
    }
  }

  /** A segment with a solid point on it is not crossed whole: the trace says it started in solid or stops short. */
  lemma SolidStops(h: Hull, start: Vec, end: Vec, s: real)
    requires WellFormed(h) && 0.0 <= s <= 1.0 && Solid(h, h.first, Lerp(start, end, s))
    ensures var t := Traced(h, start, end);
            t.startsolid || t.fraction < s
  {
    hide Lerp, Contents, TouchesSolid, Dot, Sub;
    TraceIsSound(h, start, end);
  }

  // ---------- What the trace has passed through ----------

  /** Open space and liquid each leave their flag. */
  predicate Marked(contents: int, t: Trace) {
    && (contents == CONTENTS_EMPTY ==> t.inopen)
    && (contents != CONTENTS_EMPTY && contents != CONTENTS_SOLID ==> t.inwater)
  }

  ghost predicate MarkedBetween(h: Hull, num: int, start: Vec, end: Vec, a: real, b: real, t: Trace)
    requires WellFormed(h) && IsChild(h, num)
  {
    forall s | a <= s <= b :: Marked(Contents(h, num, Lerp(start, end, s)), t)
  }

  /** A walk that begins in the open marks everything it comes through. */
  lemma {:induction false} WalkMarks(h: Hull, num: int, start: Vec, end: Vec, a: real, b: real, pr: Progress)
    requires WellFormed(h) && IsChild(h, num) && a <= b && Consistent(pr)
    requires BeginsOpen(h, num, Lerp(start, end, a), pr)
    ensures var (check, pr') := Walk(h, num, a, b, Lerp(start, end, a), Lerp(start, end, b), pr);
            && (pr.trace.inopen ==> pr'.trace.inopen) && (pr.trace.inwater ==> pr'.trace.inwater)
            && (check == TrEmpty ==> MarkedBetween(h, num, start, end, a, b, pr'.trace))
            && (check == TrBlocked ==> MarkedBetween(h, num, start, end, a, pr'.trace.fraction, pr'.trace))
    decreases Height(h, num)
  {
    hide Lerp, PlaneDiff, Contents, TouchesSolid, Crossing, PulledBack, Between, StopsBefore, Scale;
    if num < 0 {
      LeafMarks(h, num, start, end, a, b, pr);
      return;
    }
    var node, pl := h.nodes[num], PlaneOf(h, num);
    var p1, p2 := Lerp(start, end, a), Lerp(start, end, b);
    var t1, t2 := DistanceAt(pl, start, end, a), DistanceAt(pl, start, end, b);
    WalkSound(h, num, start, end, a, b, pr);
    OneSideInherits(h, num, start, end, a, b);
    if t1 >= 0.0 && t2 >= 0.0 {
      WalkMarks(h, node.front, start, end, a, b, pr);
    } else if t1 < 0.0 && t2 < 0.0 {
      WalkMarks(h, node.back, start, end, a, b, pr);
    } else {
      CrossingSplits(pl, start, end, a, b);
      var m := Between(a, b, Crossing(t1, t2));
      CrossingParts(h, num, start, end, a, m, b);
      var near, far := if t1 < t2 then node.back else node.front, if t1 < t2 then node.front else node.back;
      var (check1, pr1) := Walk(h, near, a, m, p1, Lerp(start, end, m), pr);
      WalkMarks(h, near, start, end, a, m, pr);
      WalkSound(h, near, start, end, a, m, pr);
      if check1 == TrEmpty {
        WalkMarks(h, far, start, end, m, b, pr1);
        WalkSound(h, far, start, end, m, b, pr1);
      }
    }
  }

  lemma LeafMarks(h: Hull, num: int, start: Vec, end: Vec, a: real, b: real, pr: Progress)
    requires WellFormed(h) && num < 0
    ensures var (check, pr') := VisitLeaf(num, pr);
            check == TrEmpty ==> MarkedBetween(h, num, start, end, a, b, pr'.trace)
  {
    hide Lerp;
  }

  /** Whether a point is in, or on the boundary of, an open leaf, or of one with a liquid. */
  predicate Borders(h: Hull, num: int, open: bool, p: Vec)
    requires WellFormed(h) && IsChild(h, num)
    decreases Height(h, num)
  {
    if num < 0 then if open then num == CONTENTS_EMPTY else num != CONTENTS_EMPTY && num != CONTENTS_SOLID
    else
      var d := PlaneDiff(p, PlaneOf(h, num));
      (d >= 0.0 && Borders(h, h.nodes[num].front, open, p)) || (d <= 0.0 && Borders(h, h.nodes[num].back, open, p))
  }

  ghost predicate BordersBetween(h: Hull, num: int, open: bool, start: Vec, end: Vec, a: real, b: real)
    requires WellFormed(h) && IsChild(h, num)
  {
    exists s :: a <= s <= b && Borders(h, num, open, Lerp(start, end, s))
  }

  lemma PartBorders(h: Hull, num: int, child: int, open: bool, start: Vec, end: Vec, c: real, d: real)
    requires WellFormed(h) && h.first <= num <= h.last && c <= d
    requires var d1, d2 := DistanceAt(PlaneOf(h, num), start, end, c), DistanceAt(PlaneOf(h, num), start, end, d);
             || (child == h.nodes[num].front && d1 >= 0.0 && d2 >= 0.0)
             || (child == h.nodes[num].back && d1 <= 0.0 && d2 <= 0.0)
    ensures IsChild(h, child) &&
            (BordersBetween(h, child, open, start, end, c, d) ==> BordersBetween(h, num, open, start, end, c, d))
  {
    hide Lerp, PlaneDiff;
    if BordersBetween(h, child, open, start, end, c, d) {
      var s :| c <= s <= d && Borders(h, child, open, Lerp(start, end, s));
      SameSideBetween(PlaneOf(h, num), start, end, c, d, s);
      assert Borders(h, num, open, Lerp(start, end, s));
    }
  }

  /** A flag that is new is for something that the segment comes to. */
  lemma {:induction false} WalkFlagsMean(h: Hull, num: int, start: Vec, end: Vec, a: real, b: real, pr: Progress)
    requires WellFormed(h) && IsChild(h, num) && a <= b
    ensures var pr' := Walk(h, num, a, b, Lerp(start, end, a), Lerp(start, end, b), pr).1;
            && (pr'.trace.inopen ==> pr.trace.inopen || BordersBetween(h, num, true, start, end, a, b))
            && (pr'.trace.inwater ==> pr.trace.inwater || BordersBetween(h, num, false, start, end, a, b))
    decreases Height(h, num)
  {
    hide Lerp, PlaneDiff, Crossing, PulledBack, Between, Scale, Borders;
    if num < 0 {
      LeafFlagMeans(h, num, start, end, a, b, pr);
      return;
    }
    var node, pl := h.nodes[num], PlaneOf(h, num);
    var p1, p2 := Lerp(start, end, a), Lerp(start, end, b);
    var t1, t2 := DistanceAt(pl, start, end, a), DistanceAt(pl, start, end, b);
    if (t1 >= 0.0 && t2 >= 0.0) || (t1 < 0.0 && t2 < 0.0) {
      var child := if t1 >= 0.0 then node.front else node.back;
      WalkFlagsMean(h, child, start, end, a, b, pr);
      PartBorders(h, num, child, true, start, end, a, b);
      PartBorders(h, num, child, false, start, end, a, b);
    } else {
      CrossingSplits(pl, start, end, a, b);
      var m := Between(a, b, Crossing(t1, t2));
      var near, far := if t1 < t2 then node.back else node.front, if t1 < t2 then node.front else node.back;
      var pr1 := Walk(h, near, a, m, p1, Lerp(start, end, m), pr).1;
      WalkFlagsMean(h, near, start, end, a, m, pr);
      WalkFlagsMean(h, far, start, end, m, b, pr1);
      forall open: bool
        ensures BordersBetween(h, near, open, start, end, a, m) || BordersBetween(h, far, open, start, end, m, b)
                ==> BordersBetween(h, num, open, start, end, a, b)
      {
        PartBorders(h, num, near, open, start, end, a, m);
        PartBorders(h, num, far, open, start, end, m, b);
      }
    }
  }

  /** The trace ends on the segment, in front of a plane that it crosses. */
  ghost predicate EndsAtPlane(h: Hull, num: int, start: Vec, end: Vec, a: real, b: real, t: Trace)
    requires WellFormed(h) && IsChild(h, num)
  {
    && a <= t.fraction <= b && t.endpos == Lerp(start, end, t.fraction)
    && exists pl, p, m :: Crosses(h, num, start, end, a, b, pl, p, m) && AtPlane(start, end, t, pl, p, m)
  }

  ghost predicate EndsWell(h: Hull, num: int, start: Vec, end: Vec, a: real, b: real, t: Trace, u: Trace)
    requires WellFormed(h) && IsChild(h, num)
  {
    SameGeometry(t, u) || EndsAtPlane(h, num, start, end, a, b, u)
  }

  lemma EndsInPart(
    h: Hull, num: int, child: int, start: Vec, end: Vec, a: real, b: real, c: real, d: real, t: Trace, u: Trace)
    requires WellFormed(h) && IsChild(h, num) && IsChild(h, child) && a <= c && d <= b
    requires SameCrossings(h, num, child, start, end, a, b, c, d) && EndsWell(h, child, start, end, c, d, t, u)
    ensures EndsWell(h, num, start, end, a, b, t, u)
  {
    hide Crosses, AtPlane, Lerp;
    if !SameGeometry(t, u) {
      var pl, p, m :| Crosses(h, child, start, end, c, d, pl, p, m) && AtPlane(start, end, u, pl, p, m);
      assert Crosses(h, num, start, end, a, b, pl, p, m);
    }
  }

  lemma EndsInTurn(h: Hull, num: int, start: Vec, end: Vec, a: real, b: real, t: Trace, u: Trace, v: Trace)
    requires WellFormed(h) && IsChild(h, num)
    requires EndsWell(h, num, start, end, a, b, t, u) && EndsWell(h, num, start, end, a, b, u, v)
    ensures EndsWell(h, num, start, end, a, b, t, v)
  {
    hide Crosses, Lerp, Dot, Sub, Scale;
    if SameGeometry(u, v) && !SameGeometry(t, u) {
      var pl, p, m :| Crosses(h, num, start, end, a, b, pl, p, m) && AtPlane(start, end, u, pl, p, m);
      assert AtPlane(start, end, v, pl, p, m);
    }
  }

  /** Wherever a walk begins: it finds more than solid if it does not say so, and if it stops it does so on the segment,
      in front of a plane that it crosses. */
  lemma {:induction false} WalkEnds(h: Hull, num: int, start: Vec, end: Vec, a: real, b: real, pr: Progress)
    requires WellFormed(h) && IsChild(h, num) && a <= b
    ensures var (check, pr') := Walk(h, num, a, b, Lerp(start, end, a), Lerp(start, end, b), pr);
            && (check != TrSolid || Opened(pr) ==> Opened(pr'))
            && EndsWell(h, num, start, end, a, b, pr.trace, pr'.trace)
    decreases Height(h, num)
  {
    hide Lerp, PlaneDiff, Crossing, PulledBack, Between, Scale, AtPlane, Crosses, Inherits, SameCrossings, EndsWell;
    if num < 0 {
      LeafEnds(h, num, start, end, a, b, pr);
      return;
    }
    var node, pl := h.nodes[num], PlaneOf(h, num);
    var p1, p2 := Lerp(start, end, a), Lerp(start, end, b);
    var t1, t2 := DistanceAt(pl, start, end, a), DistanceAt(pl, start, end, b);
    var pr' := Walk(h, num, a, b, p1, p2, pr).1;
    OneSideInherits(h, num, start, end, a, b);
    if (t1 >= 0.0 && t2 >= 0.0) || (t1 < 0.0 && t2 < 0.0) {
      var child := if t1 >= 0.0 then node.front else node.back;
      WalkEnds(h, child, start, end, a, b, pr);
      EndsInPart(h, num, child, start, end, a, b, a, b, pr.trace, pr'.trace);
    } else {
      CrossingSplits(pl, start, end, a, b);
      PartsCross(h, num, start, end, a, b);
      var m := Between(a, b, Crossing(t1, t2));
      var near, far := if t1 < t2 then node.back else node.front, if t1 < t2 then node.front else node.back;
      var pr1 := Walk(h, near, a, m, p1, Lerp(start, end, m), pr).1;
      var pr2 := Walk(h, far, m, b, Lerp(start, end, m), p2, pr1).1;
      WalkEnds(h, near, start, end, a, m, pr);
      EndsInPart(h, num, near, start, end, a, b, a, m, pr.trace, pr1.trace);
      WalkEnds(h, far, start, end, m, b, pr1);
      EndsInPart(h, num, far, start, end, a, b, m, b, pr1.trace, pr2.trace);
      EndsInTurn(h, num, start, end, a, b, pr.trace, pr1.trace, pr2.trace);
      ImpactEnds(h, num, start, end, a, b, pr.trace, pr2.trace);
    }
  }

  lemma LeafEnds(h: Hull, num: int, start: Vec, end: Vec, a: real, b: real, pr: Progress)
    requires WellFormed(h) && num < 0
    ensures var (check, pr') := VisitLeaf(num, pr);
            && (check != TrSolid || Opened(pr) ==> Opened(pr'))
            && EndsWell(h, num, start, end, a, b, pr.trace, pr'.trace)
  {
  }

  lemma ImpactEnds(h: Hull, num: int, start: Vec, end: Vec, a: real, b: real, t: Trace, u: Trace)
    requires WellFormed(h) && h.first <= num <= h.last && a <= b
    requires var t1, t2 := DistanceAt(PlaneOf(h, num), start, end, a), DistanceAt(PlaneOf(h, num), start, end, b);
             (t1 >= 0.0 && t2 < 0.0) || (t1 < 0.0 && t2 >= 0.0)
    ensures var t1, t2 := DistanceAt(PlaneOf(h, num), start, end, a), DistanceAt(PlaneOf(h, num), start, end, b);
            EndsWell(h, num, start, end, a, b, t,
                     Impact(PlaneOf(h, num), t1, t2, a, b, Lerp(start, end, a), Lerp(start, end, b), u))
  {
    hide Lerp, PlaneDiff, Crossing, PulledBack, Between, Scale, AtPlane, Crosses;
    var pl := PlaneOf(h, num);
    var t1, t2 := DistanceAt(pl, start, end, a), DistanceAt(pl, start, end, b);
    CrossingSplits(pl, start, end, a, b);
    PartsCross(h, num, start, end, a, b);
    ImpactIsClose(pl, start, end, a, b, u);
    var v := Impact(pl, t1, t2, a, b, Lerp(start, end, a), Lerp(start, end, b), u);
    assert Crosses(h, num, start, end, a, b, pl, a, Between(a, b, Crossing(t1, t2)));
    assert EndsAtPlane(h, num, start, end, a, b, v);
  }

  lemma LeafFlagMeans(h: Hull, num: int, start: Vec, end: Vec, a: real, b: real, pr: Progress)
    requires WellFormed(h) && num < 0 && a <= b
    ensures var pr' := VisitLeaf(num, pr).1;
            && (pr'.trace.inopen ==> pr.trace.inopen || BordersBetween(h, num, true, start, end, a, b))
            && (pr'.trace.inwater ==> pr.trace.inwater || BordersBetween(h, num, false, start, end, a, b))
  {
    hide Lerp;
    assert forall open: bool | Borders(h, num, open, Lerp(start, end, a)) ::
      BordersBetween(h, num, open, start, end, a, b);
  }

  /** The flags of a trace: it was in the open, and in a liquid, if a point on its way was, and only if the segment
      comes to such a place. */
  lemma TraceFlags(h: Hull, start: Vec, end: Vec)
    requires WellFormed(h)
    ensures var t := Traced(h, start, end);
            && (!t.startsolid ==> MarkedBetween(h, h.first, start, end, 0.0, t.fraction, t))
            && (t.inopen ==> BordersBetween(h, h.first, true, start, end, 0.0, 1.0))
            && (t.inwater ==> BordersBetween(h, h.first, false, start, end, 0.0, 1.0))
            && (t.allsolid <==> !t.inopen && !t.inwater)
            && (t.fraction < 1.0 ==> EndsAtPlane(h, h.first, start, end, 0.0, 1.0, t))
  {
    hide Lerp, Contents, TouchesSolid, StopsBefore, Borders, BordersBetween, MarkedBetween, EndsAtPlane;
    WalkEnds(h, h.first, start, end, 0.0, 1.0, Progress(InitialTrace(end), 0));
    LerpEnds(start, end);
    var pr := Progress(InitialTrace(end), 0);
    WalkSound(h, h.first, start, end, 0.0, 1.0, pr);
    WalkFlagsMean(h, h.first, start, end, 0.0, 1.0, pr);
    if !Solid(h, h.first, start) {
      WalkMarks(h, h.first, start, end, 0.0, 1.0, pr);
    }
  }

  class HullTraceLocal {
    const hull: Hull
    var trace: Trace
    var leafcount: nat

    constructor (hull: Hull, trace: Trace)
      ensures this.hull == hull && this.trace == trace && leafcount == 0
    {
      this.hull, this.trace, leafcount := hull, trace, 0;
    }

    ghost function State(): Progress
      reads this
    {
      Progress(trace, leafcount)
    }

    /** RecursiveHullTrace: descends in a loop while the segment is on one side of the node's plane. */
    method RecursiveHullTrace(start: int, p1f: real, p2f: real, p1: Vec, p2: Vec) returns (check: Check)
      requires WellFormed(hull) && IsChild(hull, start)
      modifies this
      ensures (check, State()) == Walk(hull, start, p1f, p2f, p1, p2, old(State()))
      decreases Height(hull, start)
    {
      hide Lerp, PlaneDiff, Crossing, PulledBack, Between, Scale;
      var num := start;
      while num >= 0
        invariant IsChild(hull, num) && Height(hull, num) <= Height(hull, start)
        invariant State() == old(State())
        invariant Walk(hull, num, p1f, p2f, p1, p2, State()) == Walk(hull, start, p1f, p2f, p1, p2, State())
        decreases Height(hull, num)
      {
        var node := hull.nodes[num];
        var plane := hull.planes[node.planenum];
        var t1, t2 := PlaneDiff(p1, plane), PlaneDiff(p2, plane);
        if t1 >= 0.0 && t2 >= 0.0 {
          num := node.front;
          continue;
        }
        if t1 < 0.0 && t2 < 0.0 {
          num := node.back;
          continue;
        }
        var frac := Crossing(t1, t2);
        var midf, mid := Between(p1f, p2f, frac), Lerp(p1, p2, frac);
        var near, far := if t1 < t2 then node.back else node.front, if t1 < t2 then node.front else node.back;
        check := RecursiveHullTrace(near, p1f, midf, p1, mid);
        if check == TrBlocked {
          return;
        }
        if check == TrSolid && (trace.inopen || trace.inwater) {
          return;
        }
        var oldcheck := check;
        check := RecursiveHullTrace(far, midf, p2f, mid, p2);
        if check == TrEmpty || check == TrBlocked {
          return;
        }
        if oldcheck != TrEmpty {
          return;
        }
        var back := PulledBack(t1, t2);
        trace := trace.(plane := if t1 < t2 then TracePlane(Scale(plane.normal, -1.0), -plane.dist)
                                 else TracePlane(plane.normal, plane.dist),
                        fraction := Between(p1f, p2f, back),
                        endpos := Lerp(p1, p2, back));
        check := TrBlocked;
        return;
      }
      leafcount := leafcount + 1;
      if num == CONTENTS_SOLID {
        if leafcount == 1 {
          trace := trace.(startsolid := true);
        }
        check := TrSolid;
      } else {
        if num == CONTENTS_EMPTY {
          trace := trace.(inopen := true);
        } else {
          trace := trace.(inwater := true);
        }
        check := TrEmpty;
      }
    }
  }

  /** CM_HullTrace */
  method HullTrace(h: Hull, start: Vec, end: Vec) returns (trace: Trace)
    requires WellFormed(h)
    ensures trace == Traced(h, start, end) && SoundTrace(h, start, end, trace)
  {
    var htl := new HullTraceLocal(h, InitialTrace(end));
    var check := htl.RecursiveHullTrace(h.first, 0.0, 1.0, start, end);
    trace := htl.trace;
    if check == TrSolid {
      trace := trace.(startsolid := true, allsolid := true, endpos := start);
    }
    TraceIsSound(h, start, end);
  }

  // ---------- A segment that grazes the edge of solid ----------

  /** Solid is the quarter space behind plane x = 0 and in front of plane y = 0. */
  function CornerHull(): Hull {
    Hull([ClipNode(0, CONTENTS_EMPTY, 1), ClipNode(1, CONTENTS_SOLID, CONTENTS_EMPTY)],
         [Plane(Unit(0), 0.0, 0, 0), Plane(Unit(1), 0.0, 1, 0)], 0, 1, [1, 0])
  }

  const GRAZE_START := Vec(1.0, 1.0, 0.0)
  const GRAZE_END := Vec(-1.0, -1.0, 0.0)

  lemma CornerIsWellFormed()
    ensures WellFormed(CornerHull())
  {
  }

  lemma GrazeIsOpen(s: real)
    requires WellFormed(CornerHull())
    ensures !Solid(CornerHull(), 0, Lerp(GRAZE_START, GRAZE_END, s))
  {
    var h, p := CornerHull(), Lerp(GRAZE_START, GRAZE_END, s);
    assert p.x == p.y;
    assert PlaneDiff(p, PlaneOf(h, 0)) == p.x && PlaneDiff(p, PlaneOf(h, 1)) == p.y;
    assert p.x < 0.0 ==> Contents(h, 1, p) == CONTENTS_EMPTY;
  }

  lemma GrazeMeetsSolidLeaf(pr: Progress)
    requires WellFormed(CornerHull())
    ensures Opened(pr) ==> Walk(CornerHull(), 1, 0.5, 1.0, ORIGIN, GRAZE_END, pr).0 == TrSolid
  {
    hide Lerp, Between, Crossing, PulledBack;
    var h := CornerHull();
    assert PlaneDiff(ORIGIN, PlaneOf(h, 1)) == 0.0 && PlaneDiff(GRAZE_END, PlaneOf(h, 1)) == -1.0;
    var k := Crossing(0.0, -1.0);
    assert Walk(h, CONTENTS_SOLID, 0.5, Between(0.5, 1.0, k), ORIGIN, Lerp(ORIGIN, GRAZE_END, k), pr).0 == TrSolid;
  }

  /** The trace may stop although no point of the segment is solid: through the edge of the corner it passes
      from open to open, and the solid leaf it meets there is one it only touches. */
  lemma GrazingStopsShort()
    ensures WellFormed(CornerHull())
    ensures FreeBetween(CornerHull(), CornerHull().first, GRAZE_START, GRAZE_END, 0.0, 1.0)
    ensures var t := Traced(CornerHull(), GRAZE_START, GRAZE_END);
            !t.startsolid && t.fraction < 1.0
  {
    CornerIsWellFormed();
    var h, start, end := CornerHull(), GRAZE_START, GRAZE_END;
    forall s | 0.0 <= s <= 1.0 ensures !Solid(h, 0, Lerp(start, end, s)) {
      GrazeIsOpen(s);
    }
    TraceIsSound(h, start, end);
    LerpEnds(start, end);
    var pr := Progress(InitialTrace(end), 0);
    assert PlaneDiff(start, PlaneOf(h, 0)) == 1.0 && PlaneDiff(end, PlaneOf(h, 0)) == -1.0;
    assert Crossing(1.0, -1.0) == 0.5 && Between(0.0, 1.0, 0.5) == 0.5 && PulledBack(1.0, -1.0) < 1.0;
    assert Lerp(start, end, 0.5) == ORIGIN;
    hide Lerp, Crossing, PulledBack, PlaneDiff, FreeBetween, SoundTrace, Contents;
    var (check1, pr1) := Walk(h, CONTENTS_EMPTY, 0.0, 0.5, start, ORIGIN, pr);
    assert check1 == TrEmpty && Opened(pr1);
    GrazeMeetsSolidLeaf(pr1);
    var (check, pr') := Walk(h, 0, 0.0, 1.0, start, end, pr);
    assert check == TrBlocked;
    assert pr'.trace.fraction == Between(0.0, 1.0, PulledBack(1.0, -1.0));
  }
}
