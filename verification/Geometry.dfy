/** vec3_t and planes, over the reals. */
module Geometry {
  datatype Vec = Vec(x: real, y: real, z: real)

  const ORIGIN := Vec(0.0, 0.0, 0.0)

  type axis = i: int | 0 <= i < 3

  function At(v: Vec, i: axis): real {
    if i == 0 then v.x else if i == 1 then v.y else v.z
  }

  function Unit(i: axis): Vec {
    Vec(if i == 0 then 1.0 else 0.0, if i == 1 then 1.0 else 0.0, if i == 2 then 1.0 else 0.0)
  }

  function Add(a: Vec, b: Vec): Vec {
    Vec(a.x + b.x, a.y + b.y, a.z + b.z)
  }

  function Sub(a: Vec, b: Vec): Vec {
    Vec(a.x - b.x, a.y - b.y, a.z - b.z)
  }

  function Scale(v: Vec, k: real): Vec {
    Vec(v.x * k, v.y * k, v.z * k)
  }

  function Dot(a: Vec, b: Vec): real {
    a.x * b.x + a.y * b.y + a.z * b.z
  }

  function Between(a: real, b: real, k: real): real {
    a + (b - a) * k
  }

  function Lerp(a: Vec, b: Vec, k: real): Vec {
    Vec(Between(a.x, b.x, k), Between(a.y, b.y, k), Between(a.z, b.z, k))
  }

  predicate InsideClosed(mins: Vec, maxs: Vec, p: Vec) {
    mins.x <= p.x <= maxs.x && mins.y <= p.y <= maxs.y && mins.z <= p.z <= maxs.z
  }

  predicate InsideOpen(mins: Vec, maxs: Vec, p: Vec) {
    mins.x < p.x < maxs.x && mins.y < p.y < maxs.y && mins.z < p.z < maxs.z
  }

  /** mplane_t; kind below 3 marks the planes across one axis. */
  datatype Plane = Plane(normal: Vec, dist: real, kind: nat, signbits: nat)

  predicate ProperPlane(pl: Plane) {
    pl.kind < 3 ==> pl.normal == Unit(pl.kind)
  }

  /** The PlaneDiff macro: how far a point is in front of a plane. */
  function PlaneDiff(p: Vec, pl: Plane): real {
    if pl.kind < 3 then At(p, pl.kind) - pl.dist else Dot(p, pl.normal) - pl.dist
  }

  lemma PlaneDiffIsDot(p: Vec, pl: Plane)
    requires ProperPlane(pl)
    ensures PlaneDiff(p, pl) == Dot(p, pl.normal) - pl.dist
  {
  }

  lemma PlaneDiffAlong(a: Vec, b: Vec, pl: Plane, s: real)
    ensures PlaneDiff(Lerp(a, b, s), pl) == PlaneDiff(a, pl) + s * (PlaneDiff(b, pl) - PlaneDiff(a, pl))
  {
    if pl.kind >= 3 {
      var n := pl.normal;
      assert (b.x - a.x) * s * n.x == s * (b.x * n.x - a.x * n.x);
      assert (b.y - a.y) * s * n.y == s * (b.y * n.y - a.y * n.y);
      assert (b.z - a.z) * s * n.z == s * (b.z * n.z - a.z * n.z);
    }
  }

  lemma BetweenBetweens(u: real, v: real, s: real, t: real, k: real)
    ensures Between(Between(u, v, s), Between(u, v, t), k) == Between(u, v, Between(s, t, k))
  {
    var d := v - u;
    assert (d * t - d * s) * k == d * ((t - s) * k);
  }

  /** A point part of the way between two points of a segment is on the segment. */
  lemma LerpOfLerps(a: Vec, b: Vec, s: real, t: real, k: real)
    ensures Lerp(Lerp(a, b, s), Lerp(a, b, t), k) == Lerp(a, b, Between(s, t, k))
  {
    hide Between;
    BetweenBetweens(a.x, b.x, s, t, k);
    BetweenBetweens(a.y, b.y, s, t, k);
    BetweenBetweens(a.z, b.z, s, t, k);
  }
}
