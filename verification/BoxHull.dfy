/** Bounding boxes as clipping hulls. */
module BoxHull {
  import opened Geometry
  import opened Hulls

  type boxnode = i: int | 0 <= i < 6

  function BoxNode(i: boxnode): ClipNode {
    var next := if i != 5 then i + 1 else CONTENTS_SOLID;
    if i % 2 == 0 then ClipNode(i, CONTENTS_EMPTY, next) else ClipNode(i, next, CONTENTS_EMPTY)
  }

  function BoxDist(i: boxnode, mins: Vec, maxs: Vec): real {
    At(if i % 2 == 0 then maxs else mins, i / 2)
  }

  /** The hull of a box, with the nodes in a chain. */
  function HullOfBox(mins: Vec, maxs: Vec): Hull {
    Hull(seq(6, i requires 0 <= i < 6 => BoxNode(i)),
         seq(6, i requires 0 <= i < 6 => Plane(Unit(i / 2), BoxDist(i, mins, maxs), i / 2, 0)),
         0, 5, [5, 4, 3, 2, 1, 0])
  }

  lemma BoxIsWellFormed(mins: Vec, maxs: Vec)
    ensures WellFormed(HullOfBox(mins, maxs))
  {
  }

  /** The static box_hull and its arrays. */
  class BoxStorage {
    const clipnodes: array<ClipNode>
    const planes: array<Plane>

    ghost predicate Valid()
      reads clipnodes, planes
    {
      clipnodes.Length == planes.Length == 6 &&
      forall i | 0 <= i < 6 ::
        && clipnodes[i] == BoxNode(i)
        && planes[i].normal == Unit(i / 2) && planes[i].kind == i / 2 && planes[i].signbits == 0
    }

    /** CM_InitBoxHull */
    constructor ()
      ensures Valid() && fresh(clipnodes) && fresh(planes)
    {
      clipnodes := new ClipNode[6](_ => ClipNode(0, 0, 0));
      planes := new Plane[6](_ => Plane(ORIGIN, 0.0, 0, 0));
      new;
      for i := 0 to 6
        invariant forall j | 0 <= j < i ::
          && clipnodes[j] == BoxNode(j)
          && planes[j].normal == Unit(j / 2) && planes[j].kind == j / 2 && planes[j].signbits == 0
      {
        var side := i % 2;
        var next := if i != 5 then i + 1 else CONTENTS_SOLID;
        clipnodes[i] := if side == 0 then ClipNode(i, CONTENTS_EMPTY, next) else ClipNode(i, next, CONTENTS_EMPTY);
        planes[i] := Plane(Unit(i / 2), 0.0, i / 2, 0);
      }
    }

    /** CM_HullForBox: stores the six distances; the hull returned is that of the box. */
    method HullForBox(mins: Vec, maxs: Vec) returns (h: Hull)
      requires Valid()
      modifies planes
      ensures Valid() && h == HullOfBox(mins, maxs)
    {
      planes[0] := planes[0].(dist := maxs.x);
      planes[1] := planes[1].(dist := mins.x);
      planes[2] := planes[2].(dist := maxs.y);
      planes[3] := planes[3].(dist := mins.y);
      planes[4] := planes[4].(dist := maxs.z);
      planes[5] := planes[5].(dist := mins.z);
      h := Hull(clipnodes[..], planes[..], 0, 5, [5, 4, 3, 2, 1, 0]);
      assert forall i | 0 <= i < 6 :: h.planes[i] == HullOfBox(mins, maxs).planes[i];
    }
  }

  /** Whether a point is on the inner side at node i. */
  predicate Inner(i: boxnode, mins: Vec, maxs: Vec, p: Vec) {
    if i % 2 == 0 then At(p, i / 2) < BoxDist(i, mins, maxs) else BoxDist(i, mins, maxs) <= At(p, i / 2)
  }

  predicate InnerClosed(i: boxnode, mins: Vec, maxs: Vec, p: Vec) {
    if i % 2 == 0 then At(p, i / 2) <= BoxDist(i, mins, maxs) else BoxDist(i, mins, maxs) <= At(p, i / 2)
  }

  lemma ContentsStep(i: boxnode, mins: Vec, maxs: Vec, p: Vec)
    requires WellFormed(HullOfBox(mins, maxs))
    ensures var h := HullOfBox(mins, maxs);
            var next := if i != 5 then i + 1 else CONTENTS_SOLID;
            && Contents(h, i, p) == (if Inner(i, mins, maxs, p) then Contents(h, next, p) else CONTENTS_EMPTY)
            && (TouchesSolid(h, i, p) <==> InnerClosed(i, mins, maxs, p) && TouchesSolid(h, next, p))
  {
    var h := HullOfBox(mins, maxs);
    assert h.nodes[i] == BoxNode(i);
    assert PlaneDiff(p, PlaneOf(h, i)) == At(p, i / 2) - BoxDist(i, mins, maxs);
  }

  /** The box with its lower faces and without its upper ones. */
  predicate InBox(mins: Vec, maxs: Vec, p: Vec) {
    mins.x <= p.x < maxs.x && mins.y <= p.y < maxs.y && mins.z <= p.z < maxs.z
  }

  /** The hull of a box is solid exactly in the half-open box, and touched exactly in the closed one. */
  lemma BoxIsSolidInside(mins: Vec, maxs: Vec, p: Vec)
    ensures WellFormed(HullOfBox(mins, maxs))
    ensures Solid(HullOfBox(mins, maxs), 0, p) <==> InBox(mins, maxs, p)
    ensures TouchesSolid(HullOfBox(mins, maxs), 0, p) <==> InsideClosed(mins, maxs, p)
  {
    BoxIsWellFormed(mins, maxs);
    hide WellFormed, HullOfBox, Contents, TouchesSolid;
    ContentsStep(0, mins, maxs, p);
    ContentsStep(1, mins, maxs, p);
    ContentsStep(2, mins, maxs, p);
    ContentsStep(3, mins, maxs, p);
    ContentsStep(4, mins, maxs, p);
    ContentsStep(5, mins, maxs, p);
    LeafContents(mins, maxs, p);
  }

  lemma LeafContents(mins: Vec, maxs: Vec, p: Vec)
    requires WellFormed(HullOfBox(mins, maxs))
    ensures Contents(HullOfBox(mins, maxs), CONTENTS_SOLID, p) == CONTENTS_SOLID
    ensures TouchesSolid(HullOfBox(mins, maxs), CONTENTS_SOLID, p)
  {
  }
}
