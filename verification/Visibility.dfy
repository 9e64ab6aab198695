/** The map's leafs: which leaf holds a point, which leafs a box touches, and what is visible from near a point. */
module Visibility {
  import opened Geometry
  import opened Hulls
  import opened Options

  /** cnode_t and cleaf_t. The bit for leaf n > 0 in a visibility row is n - 1; leaf 0 is the shared solid leaf. */
  datatype Tree =
    | Leaf(contents: int, leafnum: nat)
    | Node(plane: Plane, front: Tree, back: Tree)

  function SignBits(n: Vec): nat {
    (if n.x < 0.0 then 1 else 0) + (if n.y < 0.0 then 2 else 0) + (if n.z < 0.0 then 4 else 0)
  }

  /** What the loader makes of a plane. */
  predicate LoadedPlane(pl: Plane) {
    ProperPlane(pl) && Dot(pl.normal, pl.normal) == 1.0 && pl.signbits == SignBits(pl.normal)
  }

  lemma LoadedSigns(pl: Plane)
    requires LoadedPlane(pl)
    ensures pl.signbits < 8
  {
  }

  predicate LoadedTree(t: Tree) {
    match t
    case Leaf(_, _) => true
    case Node(plane, front, back) => LoadedPlane(plane) && LoadedTree(front) && LoadedTree(back)
  }

  function LeafAt(t: Tree, p: Vec): (leaf: Tree)
    ensures leaf.Leaf?
  {
    match t
    case Leaf(_, _) => t
    case Node(plane, front, back) =>
      if Dot(p, plane.normal) - plane.dist > 0.0 then LeafAt(front, p) else LeafAt(back, p)
  }

  /** CM_PointInLeaf */
  method PointInLeaf(root: Tree, p: Vec) returns (leaf: Tree)
    ensures leaf == LeafAt(root, p)
  {
    var node := root;
    while node.Node?
      invariant LeafAt(node, p) == LeafAt(root, p)
      decreases node
    {
      var d := Dot(p, node.plane.normal) - node.plane.dist;
      node := if d > 0.0 then node.front else node.back;
    }
    leaf := node;
  }

  // ---------- Boxes and planes ----------

  /** The dist1 and dist2 of BoxOnPlaneSide, chosen by the plane's sign bits. */
  function BoxExtremes(mins: Vec, maxs: Vec, n: Vec, signbits: nat): (real, real)
    requires signbits < 8
  {
    match signbits
    case 0 => (Dot(maxs, n), Dot(mins, n))
    case 1 => (Dot(Vec(mins.x, maxs.y, maxs.z), n), Dot(Vec(maxs.x, mins.y, mins.z), n))
    case 2 => (Dot(Vec(maxs.x, mins.y, maxs.z), n), Dot(Vec(mins.x, maxs.y, mins.z), n))
    case 3 => (Dot(Vec(mins.x, mins.y, maxs.z), n), Dot(Vec(maxs.x, maxs.y, mins.z), n))
    case 4 => (Dot(Vec(maxs.x, maxs.y, mins.z), n), Dot(Vec(mins.x, mins.y, maxs.z), n))
    case 5 => (Dot(Vec(mins.x, maxs.y, mins.z), n), Dot(Vec(maxs.x, mins.y, maxs.z), n))
    case 6 => (Dot(Vec(maxs.x, mins.y, mins.z), n), Dot(Vec(mins.x, maxs.y, maxs.z), n))
    case _ => (Dot(mins, n), Dot(maxs, n))
  }

  /** 1 for the front, 2 for the back, 3 for both. */
  function BoxOnPlaneSide(mins: Vec, maxs: Vec, pl: Plane): nat
    requires pl.signbits < 8
  {
    var (dist1, dist2) := BoxExtremes(mins, maxs, pl.normal, pl.signbits);
    (if dist1 >= pl.dist then 1 else 0) + (if dist2 < pl.dist then 2 else 0)
  }

  /** The BOX_ON_PLANE_SIDE macro, with its shortcut for planes across an axis. */
  function BoxSides(mins: Vec, maxs: Vec, pl: Plane): nat
    requires pl.signbits < 8
  {
    if pl.kind < 3 then
      if pl.dist <= At(mins, pl.kind) then 1 else if pl.dist >= At(maxs, pl.kind) then 2 else 3
    else BoxOnPlaneSide(mins, maxs, pl)
  }

  function Higher(n: real, lo: real, hi: real): real {
    if n < 0.0 then lo else hi
  }

  function Lower(n: real, lo: real, hi: real): real {
    if n < 0.0 then hi else lo
  }

  /** The corner farthest along a direction, and the one farthest against it. */
  function FarCorner(mins: Vec, maxs: Vec, n: Vec): Vec {
    Vec(Higher(n.x, mins.x, maxs.x), Higher(n.y, mins.y, maxs.y), Higher(n.z, mins.z, maxs.z))
  }

  function NearCorner(mins: Vec, maxs: Vec, n: Vec): Vec {
    Vec(Lower(n.x, mins.x, maxs.x), Lower(n.y, mins.y, maxs.y), Lower(n.z, mins.z, maxs.z))
  }

  lemma ExtremesAreCorners(mins: Vec, maxs: Vec, n: Vec)
    ensures BoxExtremes(mins, maxs, n, SignBits(n))
            == (Dot(FarCorner(mins, maxs, n), n), Dot(NearCorner(mins, maxs, n), n))
  {
    hide Dot;
  }

  function Times(x: real, y: real): real {
    x * y
  }

  lemma DotIsSum(v: Vec, n: Vec)
    ensures Dot(v, n) == Times(v.x, n.x) + Times(v.y, n.y) + Times(v.z, n.z)
  {
  }

  lemma ProductOrder(n: real, lo: real, v: real, hi: real, lower: real, higher: real)
    requires lo <= v <= hi && lower == Lower(n, lo, hi) && higher == Higher(n, lo, hi)
    ensures Times(lower, n) <= Times(v, n) <= Times(higher, n)
    ensures n != 0.0 && lo < v < hi ==> Times(lower, n) < Times(v, n) < Times(higher, n)
  {
    ProductSign(v - lo, n);
    ProductSign(hi - v, n);
    ProductSign(v - lo, -n);
    ProductSign(hi - v, -n);
  }

  lemma NonZero(n: Vec)
    requires n != ORIGIN
    ensures n.x != 0.0 || n.y != 0.0 || n.z != 0.0
  {
  }

  /** dist1 and dist2 bound the plane form over the box, strictly inside it unless the normal is zero. */
  lemma ExtremesBound(mins: Vec, maxs: Vec, n: Vec, p: Vec)
    requires InsideClosed(mins, maxs, p)
    ensures Dot(NearCorner(mins, maxs, n), n) <= Dot(p, n) <= Dot(FarCorner(mins, maxs, n), n)
    ensures InsideOpen(mins, maxs, p) && n != ORIGIN ==>
              Dot(NearCorner(mins, maxs, n), n) < Dot(p, n) < Dot(FarCorner(mins, maxs, n), n)
  {
    var near, far := NearCorner(mins, maxs, n), FarCorner(mins, maxs, n);
    hide Dot, Times;
    DotIsSum(near, n);
    DotIsSum(p, n);
    DotIsSum(far, n);
    ProductOrder(n.x, mins.x, p.x, maxs.x, near.x, far.x);
    ProductOrder(n.y, mins.y, p.y, maxs.y, near.y, far.y);
    ProductOrder(n.z, mins.z, p.z, maxs.z, near.z, far.z);
    if n != ORIGIN {
      NonZero(n);
    }
  }

  /** The eight sign cases are exact: a box is on the front or the back of a plane just when one of its points is. */
  lemma BoxOnPlaneSideIsExact(mins: Vec, maxs: Vec, pl: Plane)
    requires mins.x <= maxs.x && mins.y <= maxs.y && mins.z <= maxs.z && pl.signbits == SignBits(pl.normal)
    ensures BoxOnPlaneSide(mins, maxs, pl) in {1, 3} <==>
              exists p :: InsideClosed(mins, maxs, p) && Dot(p, pl.normal) - pl.dist >= 0.0
    ensures BoxOnPlaneSide(mins, maxs, pl) in {2, 3} <==>
              exists p :: InsideClosed(mins, maxs, p) && Dot(p, pl.normal) - pl.dist < 0.0
  {
    var far, near := FarCorner(mins, maxs, pl.normal), NearCorner(mins, maxs, pl.normal);
    ExtremesAreCorners(mins, maxs, pl.normal);
    assert InsideClosed(mins, maxs, far) && InsideClosed(mins, maxs, near);
    hide Dot, BoxExtremes;
    forall p | InsideClosed(mins, maxs, p)
      ensures Dot(near, pl.normal) <= Dot(p, pl.normal) <= Dot(far, pl.normal)
    {
      ExtremesBound(mins, maxs, pl.normal, p);
    }
  }

  // ---------- Touched leafs ----------

  /** The leafs FindTouchedLeafs_r visits, in order. */
  function Touched(t: Tree, mins: Vec, maxs: Vec): seq<nat>
    requires LoadedTree(t)
  {
    match t
    case Leaf(contents, leafnum) => if contents == CONTENTS_SOLID then [] else [leafnum]
    case Node(plane, front, back) =>
      var sides := BoxSides(mins, maxs, plane);
      if sides == 1 then Touched(front, mins, maxs)
      else if sides == 2 then Touched(back, mins, maxs)
      else Touched(front, mins, maxs) + Touched(back, mins, maxs)
  }

  lemma UnitIsNotZero(n: Vec)
    requires Dot(n, n) == 1.0
    ensures n != ORIGIN
  {
  }

  lemma StrictlyInsideAxial(mins: Vec, maxs: Vec, pl: Plane, p: Vec)
    requires pl.kind < 3 && ProperPlane(pl) && InsideOpen(mins, maxs, p)
    ensures var d := Dot(p, pl.normal) - pl.dist;
            (pl.dist <= At(mins, pl.kind) ==> d > 0.0) && (pl.dist >= At(maxs, pl.kind) ==> d < 0.0)
  {
    PlaneDiffIsDot(p, pl);
    hide Dot;
  }

  lemma StrictlyInsideOblique(mins: Vec, maxs: Vec, pl: Plane, p: Vec)
    requires LoadedPlane(pl) && InsideOpen(mins, maxs, p)
    ensures var d := Dot(p, pl.normal) - pl.dist;
            (BoxOnPlaneSide(mins, maxs, pl) == 1 ==> d > 0.0) && (BoxOnPlaneSide(mins, maxs, pl) == 2 ==> d < 0.0)
  {
    UnitIsNotZero(pl.normal);
    hide Dot, BoxExtremes, FarCorner, NearCorner;
    ExtremesAreCorners(mins, maxs, pl.normal);
    ExtremesBound(mins, maxs, pl.normal, p);
  }

  lemma StrictlyInsideSide(mins: Vec, maxs: Vec, pl: Plane, p: Vec)
    requires LoadedPlane(pl) && InsideOpen(mins, maxs, p)
    ensures var d := Dot(p, pl.normal) - pl.dist;
            (BoxSides(mins, maxs, pl) == 1 ==> d > 0.0) && (BoxSides(mins, maxs, pl) == 2 ==> d < 0.0)
  {
    hide Dot, BoxOnPlaneSide;
    if pl.kind < 3 {
      StrictlyInsideAxial(mins, maxs, pl, p);
    } else {
      StrictlyInsideOblique(mins, maxs, pl, p);
    }
  }

  /** Every leaf that is not solid and holds a point strictly inside the box is touched. */
  lemma {:induction false} TouchedIsComplete(t: Tree, mins: Vec, maxs: Vec, p: Vec)
    requires LoadedTree(t) && InsideOpen(mins, maxs, p) && LeafAt(t, p).contents != CONTENTS_SOLID
    ensures LeafAt(t, p).leafnum in Touched(t, mins, maxs)
  {
    hide Dot, BoxSides, LoadedPlane;
    match t
    case Leaf(_, _) =>
    case Node(plane, front, back) =>
      StrictlyInsideSide(mins, maxs, plane, p);
      TouchedIsComplete(if Dot(p, plane.normal) - plane.dist > 0.0 then front else back, mins, maxs, p);
  }

  predicate IsBox(mins: Vec, maxs: Vec) {
    mins.x <= maxs.x && mins.y <= maxs.y && mins.z <= maxs.z
  }

  /** Some point of the box is in front of the plane, or on it if that counts. */
  ghost predicate InFrontOf(mins: Vec, maxs: Vec, pl: Plane, orOn: bool) {
    exists p :: InsideClosed(mins, maxs, p) &&
                (Dot(p, pl.normal) - pl.dist > 0.0 || (orOn && Dot(p, pl.normal) - pl.dist == 0.0))
  }

  ghost predicate Behind(mins: Vec, maxs: Vec, pl: Plane) {
    exists p :: InsideClosed(mins, maxs, p) && Dot(p, pl.normal) - pl.dist < 0.0
  }

  /** The macro finds exactly the boxes that reach behind a plane, and those that reach in front of it; of boxes that
      only touch it from behind, it puts some in front and some not. */
  lemma BoxSidesMeans(mins: Vec, maxs: Vec, pl: Plane)
    requires IsBox(mins, maxs) && LoadedPlane(pl)
    ensures BoxSides(mins, maxs, pl) in {1, 2, 3}
    ensures BoxSides(mins, maxs, pl) in {2, 3} <==> Behind(mins, maxs, pl)
    ensures BoxSides(mins, maxs, pl) in {1, 3} ==> InFrontOf(mins, maxs, pl, true)
    ensures InFrontOf(mins, maxs, pl, false) ==> BoxSides(mins, maxs, pl) in {1, 3}
  {
    hide Dot, BoxOnPlaneSide, InsideClosed, SignBits;
    if pl.kind < 3 {
      AxialSidesMean(mins, maxs, pl);
    } else {
      BoxOnPlaneSideIsExact(mins, maxs, pl);
      SomeSide(mins, maxs, pl);
    }
  }

  lemma SomeSide(mins: Vec, maxs: Vec, pl: Plane)
    requires IsBox(mins, maxs) && pl.signbits == SignBits(pl.normal)
    ensures BoxOnPlaneSide(mins, maxs, pl) in {1, 2, 3}
  {
    hide Dot;
    ExtremesAreCorners(mins, maxs, pl.normal);
    ExtremesBound(mins, maxs, pl.normal, mins);
  }

  lemma AxialSidesMean(mins: Vec, maxs: Vec, pl: Plane)
    requires IsBox(mins, maxs) && ProperPlane(pl) && pl.kind < 3
    ensures pl.dist <= At(mins, pl.kind) ==> !Behind(mins, maxs, pl) && InFrontOf(mins, maxs, pl, true)
    ensures pl.dist > At(mins, pl.kind) ==> Behind(mins, maxs, pl)
    ensures pl.dist >= At(maxs, pl.kind) ==> !InFrontOf(mins, maxs, pl, false)
    ensures pl.dist < At(maxs, pl.kind) ==> InFrontOf(mins, maxs, pl, true)
  {
    PlaneDiffIsDot(mins, pl);
    PlaneDiffIsDot(maxs, pl);
    hide Dot;
    assert InsideClosed(mins, maxs, mins) && InsideClosed(mins, maxs, maxs);
    forall p | InsideClosed(mins, maxs, p)
      ensures At(mins, pl.kind) <= Dot(p, pl.normal) <= At(maxs, pl.kind)
    {
      PlaneDiffIsDot(p, pl);
    }
  }

  /** Leaf n is not solid, and on the way down to it the box reaches to its side of every plane. */
  ghost predicate ReachesLeaf(t: Tree, mins: Vec, maxs: Vec, n: nat, orOn: bool) {
    match t
    case Leaf(contents, leafnum) => contents != CONTENTS_SOLID && leafnum == n
    case Node(plane, front, back) =>
      || (InFrontOf(mins, maxs, plane, orOn) && ReachesLeaf(front, mins, maxs, n, orOn))
      || (Behind(mins, maxs, plane) && ReachesLeaf(back, mins, maxs, n, orOn))
  }

  /** Only such leafs are touched, and all of them, up to boxes that only touch a plane. */
  lemma {:induction false} TouchedExactly(t: Tree, mins: Vec, maxs: Vec, n: nat)
    requires LoadedTree(t) && IsBox(mins, maxs)
    ensures n in Touched(t, mins, maxs) ==> ReachesLeaf(t, mins, maxs, n, true)
    ensures ReachesLeaf(t, mins, maxs, n, false) ==> n in Touched(t, mins, maxs)
  {
    hide BoxSides, LoadedPlane, InFrontOf, Behind;
    match t
    case Leaf(_, _) =>
    case Node(plane, front, back) =>
      LoadedSigns(plane);
      BoxSidesMeans(mins, maxs, plane);
      TouchedExactly(front, mins, maxs, n);
      TouchedExactly(back, mins, maxs, n);
  }

  /** The first node on the way down whose plane the box meets. */
  function TopNode(t: Tree, mins: Vec, maxs: Vec): Option<Tree>
    requires LoadedTree(t)
  {
    match t
    case Leaf(_, _) => None
    case Node(plane, front, back) =>
      LoadedSigns(plane);
      var sides := BoxSides(mins, maxs, plane);
      if sides == 1 then TopNode(front, mins, maxs)
      else if sides == 2 then TopNode(back, mins, maxs)
      else Some(t)
  }

  /** All that is touched is below the top node; without one, the box touches one leaf at most. */
  lemma {:induction false} TopNodeHoldsAll(t: Tree, mins: Vec, maxs: Vec)
    requires LoadedTree(t)
    ensures match TopNode(t, mins, maxs)
            case None => |Touched(t, mins, maxs)| <= 1
            case Some(top) => LoadedTree(top) && Touched(t, mins, maxs) == Touched(top, mins, maxs)
  {
    hide BoxSides, LoadedPlane;
    match t
    case Leaf(_, _) =>
    case Node(plane, front, back) =>
      LoadedSigns(plane);
      TopNodeHoldsAll(front, mins, maxs);
      TopNodeHoldsAll(back, mins, maxs);
  }

  /** What a list with room for max holds of s. */
  function Capped(s: seq<nat>, max: nat): (r: seq<nat>)
    ensures |r| <= max
  {
    if |s| <= max then s else s[..max]
  }

  lemma CappedKeepsShort(s: seq<nat>, max: nat)
    requires |s| <= max
    ensures Capped(s, max) == s
  {
  }

  lemma CappedAppend(s: seq<nat>, x: nat, max: nat)
    ensures |Capped(s, max)| == max ==> Capped(s + [x], max) == Capped(s, max) && |s| + 1 > max
    ensures |Capped(s, max)| != max ==> Capped(s + [x], max) == Capped(s, max) + [x] && |s| + 1 <= max
  {
  }

  lemma CappedTwice(s: seq<nat>, t: seq<nat>, max: nat)
    ensures Capped(Capped(s, max) + t, max) == Capped(s + t, max)
    ensures |s| > max || |Capped(s, max) + t| > max <==> |s + t| > max
  {
  }

  class LeafList {
    const mins: Vec
    const maxs: Vec
    const maxcount: nat
    var list: seq<nat>
    var overflow: bool
    var topnode: Option<Tree>

    constructor (mins: Vec, maxs: Vec, maxcount: nat)
      ensures this.mins == mins && this.maxs == maxs && this.maxcount == maxcount && list == [] && !overflow
      ensures topnode == None
    {
      this.mins, this.maxs, this.maxcount, list, overflow, topnode := mins, maxs, maxcount, [], false, None;
    }

    /** FindTouchedLeafs_r */
    method FindTouchedLeafs_r(start: Tree)
      requires LoadedTree(start) && |list| <= maxcount
      modifies this
      ensures var all := old(list) + Touched(start, mins, maxs);
              list == Capped(all, maxcount) && overflow == (old(overflow) || |all| > maxcount)
      ensures topnode == if old(topnode).Some? then old(topnode) else TopNode(start, mins, maxs)
      decreases start
    {
      hide BoxSides, LoadedPlane, Capped;
      ghost var done := list;
      CappedKeepsShort(list, maxcount);
      var node := start;
      while node.Node?
        invariant LoadedTree(node)
        invariant done + Touched(node, mins, maxs) == old(list) + Touched(start, mins, maxs)
        invariant list == Capped(done, maxcount) && overflow == (old(overflow) || |done| > maxcount)
        invariant old(topnode).Some? ==> topnode == old(topnode)
        invariant old(topnode).None? ==>
                    if topnode.None? then TopNode(node, mins, maxs) == TopNode(start, mins, maxs)
                    else topnode == TopNode(start, mins, maxs)
        decreases node
      {
        LoadedSigns(node.plane);
        var sides := BoxSides(mins, maxs, node.plane);
        if sides == 1 {
          node := node.front;
        } else if sides == 2 {
          node := node.back;
        } else {
          if topnode.None? {
            topnode := Some(node);
          }
          FindTouchedLeafs_r(node.front);
          ghost var f := Touched(node.front, mins, maxs);
          CappedTwice(done, f, maxcount);
          assert (done + f) + Touched(node.back, mins, maxs) == done + (f + Touched(node.back, mins, maxs));
          done := done + f;
          node := node.back;
        }
      }
      if node.contents == CONTENTS_SOLID {
        assert done + [] == done;
        return;
      }
      CappedAppend(done, node.leafnum, maxcount);
      if |list| == maxcount {
        overflow := true;
        return;
      }
      list := list + [node.leafnum];
    }
  }

  /** CM_FindTouchedLeafs: -1 when there are too many. */
  method FindTouchedLeafs(root: Tree, mins: Vec, maxs: Vec, maxleafs: nat)
    returns (count: int, leafs: seq<nat>, topnode: Option<Tree>)
    requires LoadedTree(root)
    ensures count == -1 <==> |Touched(root, mins, maxs)| > maxleafs
    ensures topnode == TopNode(root, mins, maxs)
    ensures count != -1 ==> leafs == Touched(root, mins, maxs) && count == |leafs|
    ensures count != -1 ==>
              forall p | InsideOpen(mins, maxs, p) && LeafAt(root, p).contents != CONTENTS_SOLID ::
                  LeafAt(root, p).leafnum in leafs
  {
    hide BoxSides, LoadedPlane;
    var found := new LeafList(mins, maxs, maxleafs);
    found.FindTouchedLeafs_r(root);
    leafs, topnode := found.list, found.topnode;
    count := if found.overflow then -1 else |leafs|;
    forall p | InsideOpen(mins, maxs, p) && LeafAt(root, p).contents != CONTENTS_SOLID
      ensures LeafAt(root, p).leafnum in Touched(root, mins, maxs)
    {
      TouchedIsComplete(root, mins, maxs, p);
    }
  }
}
