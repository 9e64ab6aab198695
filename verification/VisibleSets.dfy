/** Potentially visible and hearable sets: rows of bits, one row and one bit for each leaf but leaf 0. */
module VisibleSets {
  import opened Options
  import opened Geometry
  import opened Hulls
  import opened Visibility

  type bitindex = k: int | 0 <= k < 8

  function Mask(k: bitindex): bv8 {
    match k
    case 0 => 1
    case 1 => 2
    case 2 => 4
    case 3 => 8
    case 4 => 16
    case 5 => 32
    case 6 => 64
    case _ => 128
  }

  /** The least significant bit of a byte comes first. */
  lemma MaskIsShift(k: bitindex)
    ensures Mask(k) == 1 << k
  {
  }

  predicate BitOf(b: bv8, k: bitindex) {
    b & Mask(k) != 0
  }

  lemma BitOfOr(a: bv8, b: bv8, k: bitindex)
    ensures BitOf(a | b, k) <==> BitOf(a, k) || BitOf(b, k)
  {
  }

  lemma BitOfZero(k: bitindex)
    ensures !BitOf(0, k)
  {
  }

  // ---------- Distances to planes ----------

  lemma SquareNonNegative(x: real)
    ensures x * x >= 0.0
  {
  }

  lemma CrossTerm(a: real, b: real, p: real, q: real)
    ensures (a * a) * (q * q) - 2.0 * ((a * p) * (b * q)) + (b * b) * (p * p) >= 0.0
  {
    var x, y := a * q, b * p;
    SquareNonNegative(x - y);
    assert (x - y) * (x - y) == x * x - 2.0 * (x * y) + y * y;
    assert x * x == (a * a) * (q * q) && y * y == (b * b) * (p * p) && x * y == (a * p) * (b * q);
  }

  lemma SquareOfProduct(a: real, b: real)
    ensures (a * b) * (a * b) == (a * a) * (b * b)
  {
  }

  lemma SumOfSquares(a: real, b: real, c: real, p: real, q: real, r: real, x: real, y: real, z: real)
    requires x * x == a * p && y * y == b * q && z * z == c * r
    requires a * q - 2.0 * (x * y) + b * p >= 0.0
    requires b * r - 2.0 * (y * z) + c * q >= 0.0
    requires a * r - 2.0 * (x * z) + c * p >= 0.0
    ensures (x + y + z) * (x + y + z) <= (a + b + c) * (p + q + r)
  {
    assert (x + y + z) * (x + y + z) == x * x + y * y + z * z + 2.0 * (x * y) + 2.0 * (y * z) + 2.0 * (x * z);
    assert (a + b + c) * (p + q + r) == a * p + a * q + a * r + b * p + b * q + b * r + c * p + c * q + c * r;
  }

  lemma Lagrange(a: real, b: real, c: real, p: real, q: real, r: real)
    ensures (a * p + b * q + c * r) * (a * p + b * q + c * r) <= (a * a + b * b + c * c) * (p * p + q * q + r * r)
  {
    CrossTerm(a, b, p, q);
    CrossTerm(b, c, q, r);
    CrossTerm(a, c, p, r);
    SquareOfProduct(a, p);
    SquareOfProduct(b, q);
    SquareOfProduct(c, r);
    SumOfSquares(a * a, b * b, c * c, p * p, q * q, r * r, a * p, b * q, c * r);
  }

  /** Cauchy-Schwarz for a unit normal. */
  lemma CauchySchwarz(v: Vec, n: Vec)
    requires Dot(n, n) == 1.0
    ensures Dot(v, n) * Dot(v, n) <= Dot(v, v)
  {
    Lagrange(v.x, v.y, v.z, n.x, n.y, n.z);
    TimesOne(Dot(v, v), Dot(n, n));
  }

  lemma TimesOne(x: real, y: real)
    requires y == 1.0
    ensures x * y == x
  {
  }

  lemma SquareAbove(d: real)
    requires d > 8.0
    ensures d * d > 64.0
  {
    ProductSign(d - 8.0, d + 8.0);
  }

  lemma SquareBound(d: real)
    requires d * d <= 64.0
    ensures -8.0 <= d <= 8.0
  {
    if d > 8.0 {
      SquareAbove(d);
    } else if d < -8.0 {
      SquareAbove(-d);
    }
  }

  lemma DotOfSub(p: Vec, q: Vec, n: Vec)
    ensures Dot(Sub(p, q), n) == Dot(p, n) - Dot(q, n)
  {
  }

  /** Two points within 8 units differ by at most 8 in their distance to a plane. */
  lemma NearbyDistances(pl: Plane, p: Vec, q: Vec)
    requires LoadedPlane(pl) && Dot(Sub(q, p), Sub(q, p)) <= 64.0
    ensures -8.0 <= Dot(q, pl.normal) - Dot(p, pl.normal) <= 8.0
  {
    hide Dot, Sub;
    CauchySchwarz(Sub(q, p), pl.normal);
    DotOfSub(q, p, pl.normal);
    SquareBound(Dot(Sub(q, p), pl.normal));
  }

  // ---------- Rows ----------

  /** map_vis_rowbytes: a whole number of longs. */
  function RowBytes(visleafs: nat): nat {
    (visleafs + 31) / 32 * 4
  }

  /** The fatbytes of CM_FatPVS. */
  function FatBytes(visleafs: nat): nat {
    (visleafs + 31) / 8
  }

  /** CM_FatPVS works on all bytes of a row, and for some numbers of leafs on more. */
  lemma FatBytesExceedExactlyWhen(visleafs: nat)
    ensures FatBytes(visleafs) >= RowBytes(visleafs)
    ensures FatBytes(visleafs) > RowBytes(visleafs) <==> visleafs % 32 == 0 || visleafs % 32 >= 9
  {
    var q, r := visleafs / 32, visleafs % 32;
    assert visleafs + 31 == 32 * q + (r + 31) && (32 * q + (r + 31)) / 8 == 4 * q + (r + 31) / 8;
  }

  predicate LeafsInRange(t: Tree, visleafs: nat) {
    match t
    case Leaf(contents, leafnum) => contents != CONTENTS_SOLID ==> leafnum <= visleafs
    case Node(_, front, back) => LeafsInRange(front, visleafs) && LeafsInRange(back, visleafs)
  }

  /** Some point within 8 units is in front of the plane or on it. */
  ghost predicate NearFront(pl: Plane, org: Vec) {
    exists p :: Dot(Sub(p, org), Sub(p, org)) <= 64.0 && Dot(p, pl.normal) - pl.dist >= 0.0
  }

  ghost predicate NearBack(pl: Plane, org: Vec) {
    exists p :: Dot(Sub(p, org), Sub(p, org)) <= 64.0 && Dot(p, pl.normal) - pl.dist <= 0.0
  }

  ghost predicate NearLeaf(t: Tree, org: Vec, n: nat) {
    match t
    case Leaf(contents, leafnum) => contents != CONTENTS_SOLID && leafnum == n
    case Node(plane, front, back) =>
      (NearFront(plane, org) && NearLeaf(front, org, n)) || (NearBack(plane, org) && NearLeaf(back, org, n))
  }

  /** A plane with a unit normal is within 8 units of a side exactly if its distance to that side is no more. */
  lemma NearSides(pl: Plane, org: Vec)
    requires LoadedPlane(pl)
    ensures NearFront(pl, org) <==> Dot(org, pl.normal) - pl.dist >= -8.0
    ensures NearBack(pl, org) <==> Dot(org, pl.normal) - pl.dist <= 8.0
  {
    hide Dot, Sub, Add, Scale;
    forall p | Dot(Sub(p, org), Sub(p, org)) <= 64.0
      ensures -8.0 <= Dot(p, pl.normal) - Dot(org, pl.normal) <= 8.0
    {
      NearbyDistances(pl, org, p);
    }
    StepAlong(org, pl.normal, 8.0);
    StepAlong(org, pl.normal, -8.0);
  }

  lemma StepAlong(org: Vec, n: Vec, k: real)
    requires Dot(n, n) == 1.0
    ensures var p := Add(org, Scale(n, k));
            Dot(Sub(p, org), Sub(p, org)) == k * k && Dot(p, n) == Dot(org, n) + k
  {
    var p := Add(org, Scale(n, k));
    assert Sub(p, org) == Scale(n, k);
    ScaledDot(n, n, k);
    ScaledSquare(n, k);
    assert Dot(p, n) == Dot(org, n) + Dot(Scale(n, k), n);
  }

  lemma ScaledDot(v: Vec, n: Vec, k: real)
    ensures Dot(Scale(v, k), n) == k * Dot(v, n)
  {
    assert v.x * k * n.x == k * (v.x * n.x) && v.y * k * n.y == k * (v.y * n.y) && v.z * k * n.z == k * (v.z * n.z);
  }

  lemma ScaledSquare(v: Vec, k: real)
    ensures Dot(Scale(v, k), Scale(v, k)) == k * k * Dot(v, v)
  {
    assert v.x * k * (v.x * k) == k * k * (v.x * v.x);
    assert v.y * k * (v.y * k) == k * k * (v.y * v.y);
    assert v.z * k * (v.z * k) == k * k * (v.z * v.z);
  }

  class VisMap {
    const visleafs: nat
    const rowbytes: nat
    const root: Tree
    /** map_pvs; row 0 is leaf 1. */
    const pvs: array2<bv8>

    ghost predicate Valid() {
      pvs.Length0 == visleafs && pvs.Length1 == rowbytes && visleafs <= 8 * rowbytes && LoadedTree(root) &&
      LeafsInRange(root, visleafs)
    }

    constructor (visleafs: nat, root: Tree, pvs: array2<bv8>)
      requires pvs.Length0 == visleafs && pvs.Length1 == RowBytes(visleafs)
      requires LoadedTree(root) && LeafsInRange(root, visleafs)
      ensures Valid() && this.pvs == pvs && this.visleafs == visleafs && this.root == root
    {
      this.visleafs, this.root, this.pvs := visleafs, root, pvs;
      rowbytes := RowBytes(visleafs);
    }

    /** Bit l of row i. */
    predicate Sees(i: nat, l: nat)
      requires Valid() && i < visleafs && l < 8 * rowbytes
      reads pvs
    {
      BitOf(pvs[i, l / 8], l % 8)
    }

    /** CM_LeafPVS: leaf 0 has the row of all ones, map_novis. */
    function LeafPvsByte(leafnum: nat, i: nat): bv8
      requires Valid() && leafnum <= visleafs && i < rowbytes
      reads pvs
    {
      if leafnum == 0 then 0xFF else pvs[leafnum - 1, i]
    }

    predicate LeafSees(leafnum: nat, l: nat)
      requires Valid() && leafnum <= visleafs && l < 8 * rowbytes
      reads pvs
    {
      BitOf(LeafPvsByte(leafnum, l / 8), l % 8)
    }

    /** Everything is visible from leaf 0, and from leaf n what row n - 1 says. */
    lemma RowOfLeaf(leafnum: nat, l: nat)
      requires Valid() && leafnum <= visleafs && l < 8 * rowbytes
      ensures LeafSees(leafnum, l) <==> leafnum == 0 || Sees(leafnum - 1, l)
    {
      var k: bitindex := l % 8;
      assert BitOf(0xFF, k);
    }

    // ---------- CM_FatPVS ----------

    /** Bit l is in the row of a leaf that the walk from t reaches. */
    predicate Gathers(t: Tree, org: Vec, l: nat)
      requires Valid() && LeafsInRange(t, visleafs) && l < 8 * rowbytes
      reads pvs
    {
      match t
      case Leaf(contents, leafnum) => contents != CONTENTS_SOLID && LeafSees(leafnum, l)
      case Node(plane, front, back) =>
        var d := Dot(org, plane.normal) - plane.dist;
        (d >= -8.0 && Gathers(front, org, l)) || (d <= 8.0 && Gathers(back, org, l))
    }

    /** AddToFatPVS_r */
    method AddToFatPVS_r(start: Tree, org: Vec, fatpvs: array<bv8>)
      requires Valid() && LeafsInRange(start, visleafs) && fatpvs.Length == rowbytes
      modifies fatpvs
      ensures forall l: nat | l < 8 * rowbytes ::
                BitOf(fatpvs[l / 8], l % 8) <==> old(BitOf(fatpvs[l / 8], l % 8)) || Gathers(start, org, l)
      decreases start
    {
      hide BitOf, Dot, LeafSees;
      var node := start;
      while true
        invariant LeafsInRange(node, visleafs)
        invariant forall l: nat | l < 8 * rowbytes ::
          BitOf(fatpvs[l / 8], l % 8) || Gathers(node, org, l) <==>
            old(BitOf(fatpvs[l / 8], l % 8)) || Gathers(start, org, l)
        decreases node
      {
        if node.Leaf? {
          if node.contents != CONTENTS_SOLID {
            OrLeafRow(node.leafnum, fatpvs);
          }
          return;
        }
        var d := Dot(org, node.plane.normal) - node.plane.dist;
        if d > 8.0 {
          node := node.front;
        } else if d < -8.0 {
          node := node.back;
        } else {
          AddToFatPVS_r(node.front, org, fatpvs);
          node := node.back;
        }
      }
    }

    method OrLeafRow(leafnum: nat, fatpvs: array<bv8>)
      requires Valid() && leafnum <= visleafs && fatpvs.Length == rowbytes
      modifies fatpvs
      ensures forall l: nat | l < 8 * rowbytes ::
                BitOf(fatpvs[l / 8], l % 8) <==> old(BitOf(fatpvs[l / 8], l % 8)) || LeafSees(leafnum, l)
    {
      hide BitOf, LeafPvsByte;
      for i := 0 to rowbytes
        invariant forall j | 0 <= j < i :: fatpvs[j] == old(fatpvs[j]) | LeafPvsByte(leafnum, j)
        invariant forall j | i <= j < rowbytes :: fatpvs[j] == old(fatpvs[j])
      {
        fatpvs[i] := fatpvs[i] | LeafPvsByte(leafnum, i);
      }
      forall l: nat | l < 8 * rowbytes
        ensures BitOf(fatpvs[l / 8], l % 8) <==> old(BitOf(fatpvs[l / 8], l % 8)) || LeafSees(leafnum, l)
      {
        BitOfOr(old(fatpvs[l / 8]), LeafPvsByte(leafnum, l / 8), l % 8);
      }
    }

    /** CM_FatPVS, over the bytes of a row. */
    method FatPVS(org: Vec) returns (fatpvs: array<bv8>)
      requires Valid()
      ensures fresh(fatpvs) && fatpvs.Length == rowbytes
      ensures forall l: nat | l < 8 * rowbytes :: BitOf(fatpvs[l / 8], l % 8) <==> Gathers(root, org, l)
    {
      fatpvs := new bv8[rowbytes](_ => 0);
      forall k: bitindex ensures !BitOf(0, k) {
        BitOfZero(k);
      }
      AddToFatPVS_r(root, org, fatpvs);
    }

    /** The fat PVS includes the row of every leaf that is not solid and holds a point within 8 units. */
    lemma {:induction false} GathersNeighbours(t: Tree, org: Vec, p: Vec, l: nat)
      requires Valid() && LoadedTree(t) && LeafsInRange(t, visleafs) && l < 8 * rowbytes
      requires Dot(Sub(p, org), Sub(p, org)) <= 64.0
      requires LeafAt(t, p).contents != CONTENTS_SOLID
      ensures LeafAt(t, p).leafnum <= visleafs
      ensures LeafSees(LeafAt(t, p).leafnum, l) ==> Gathers(t, org, l)
    {
      hide LeafSees, Dot, Sub;
      match t
      case Leaf(_, _) =>
      case Node(plane, front, back) =>
        NearbyDistances(plane, org, p);
        if Dot(p, plane.normal) - plane.dist > 0.0 {
          GathersNeighbours(front, org, p, l);
        } else {
          GathersNeighbours(back, org, p, l);
        }
    }

    /** And it includes nothing but the rows of leafs that are not solid and on the way to which, for every plane, some
        point within 8 units is on their side. */
    lemma {:induction false} GathersExactly(t: Tree, org: Vec, l: nat)
      requires Valid() && LoadedTree(t) && LeafsInRange(t, visleafs) && l < 8 * rowbytes
      ensures Gathers(t, org, l) <==>
                exists leafnum: nat :: leafnum <= visleafs && NearLeaf(t, org, leafnum) && LeafSees(leafnum, l)
    {
      hide LeafSees, NearFront, NearBack;
      match t
      case Leaf(_, _) =>
      case Node(plane, front, back) =>
        NearSides(plane, org);
        GathersExactly(front, org, l);
        GathersExactly(back, org, l);
    }

    // ---------- CM_BuildPHS ----------

    /** Some leaf whose bit is below n is seen from row i and sees l. */
    ghost predicate HearsThrough(i: nat, l: nat, n: nat)
      requires Valid() && i < visleafs && l < 8 * rowbytes
      reads pvs
    {
      exists j: nat :: j < n && j < visleafs && Sees(i, j) && Sees(j, l)
    }

    ghost predicate RowDone(phs: array2<bv8>, i: nat, n: nat)
      requires Valid() && phs.Length0 == visleafs && phs.Length1 == rowbytes && i < visleafs
      reads pvs, phs
    {
      forall l: nat | l < 8 * rowbytes :: BitOf(phs[i, l / 8], l % 8) <==> Sees(i, l) || HearsThrough(i, l, n)
    }

    method OrBytes(phs: array2<bv8>, i: nat, j: nat)
      requires Valid() && phs != pvs && phs.Length0 == visleafs && phs.Length1 == rowbytes && i < visleafs
               && j < visleafs
      modifies phs
      ensures forall d | 0 <= d < rowbytes :: phs[i, d] == old(phs[i, d]) | pvs[j, d]
      ensures forall r, c | 0 <= r < visleafs && r != i && 0 <= c < rowbytes :: phs[r, c] == old(phs[r, c])
    {
      for c := 0 to rowbytes
        invariant forall d | 0 <= d < c :: phs[i, d] == old(phs[i, d]) | pvs[j, d]
        invariant forall d | c <= d < rowbytes :: phs[i, d] == old(phs[i, d])
        invariant forall r, d | 0 <= r < visleafs && r != i && 0 <= d < rowbytes :: phs[r, d] == old(phs[r, d])
      {
        phs[i, c] := phs[i, c] | pvs[j, c];
      }
    }

    /** The innermost loop of CM_BuildPHS: one row of the PVS into a row of the PHS. */
    method OrRow(phs: array2<bv8>, i: nat, j: nat)
      requires Valid() && phs != pvs && phs.Length0 == visleafs && phs.Length1 == rowbytes && i < visleafs
               && j < visleafs
      modifies phs
      ensures forall l: nat | l < 8 * rowbytes ::
                BitOf(phs[i, l / 8], l % 8) <==> old(BitOf(phs[i, l / 8], l % 8)) || Sees(j, l)
      ensures forall r, c | 0 <= r < visleafs && r != i && 0 <= c < rowbytes :: phs[r, c] == old(phs[r, c])
    {
      hide BitOf;
      OrBytes(phs, i, j);
      forall l: nat | l < 8 * rowbytes
        ensures BitOf(phs[i, l / 8], l % 8) <==> old(BitOf(phs[i, l / 8], l % 8)) || Sees(j, l)
      {
        BitOfOr(old(phs[i, l / 8]), pvs[j, l / 8], l % 8);
      }
    }

    lemma HearsMore(i: nat, n: nat)
      requires Valid() && i < visleafs && n < 8 * rowbytes
      ensures forall l: nat | l < 8 * rowbytes ::
                HearsThrough(i, l, n + 1) <==> HearsThrough(i, l, n) || (n < visleafs && Sees(i, n) && Sees(n, l))
    {
    }

    /** The loop over the bits of one byte of row i. */
    method OrByte(phs: array2<bv8>, i: nat, j: nat)
      requires Valid() && phs != pvs && phs.Length0 == visleafs && phs.Length1 == rowbytes && i < visleafs
               && j < rowbytes
      requires RowDone(phs, i, 8 * j)
      modifies phs
      ensures RowDone(phs, i, 8 * (j + 1))
      ensures forall r, c | 0 <= r < visleafs && r != i && 0 <= c < rowbytes :: phs[r, c] == old(phs[r, c])
    {
      hide BitOf, Sees, HearsThrough;
      var bitbyte := pvs[i, j];
      if bitbyte == 0 {
        SkippedByte(phs, i, j);
        return;
      }
      for k := 0 to 8
        invariant RowDone(phs, i, 8 * j + k)
        invariant forall r, c | 0 <= r < visleafs && r != i && 0 <= c < rowbytes :: phs[r, c] == old(phs[r, c])
      {
        var index1 := 8 * j + k;
        HearsMore(i, index1);
        ByteBit(i, j, k);
        if !BitOf(bitbyte, k) {
          continue;
        }
        if index1 >= visleafs {
          continue;
        }
        OrRow(phs, i, index1);
      }
    }

    method BuildRow(phs: array2<bv8>, i: nat)
      requires Valid() && phs != pvs && phs.Length0 == visleafs && phs.Length1 == rowbytes && i < visleafs
      modifies phs
      ensures RowDone(phs, i, 8 * rowbytes)
      ensures forall r, c | 0 <= r < visleafs && r != i && 0 <= c < rowbytes :: phs[r, c] == old(phs[r, c])
    {
      hide BitOf, Sees, HearsThrough, RowDone;
      forall c | 0 <= c < rowbytes {
        phs[i, c] := pvs[i, c];
      }
      CopiedRow(phs, i);
      for j := 0 to rowbytes
        invariant RowDone(phs, i, 8 * j)
        invariant forall r, c | 0 <= r < visleafs && r != i && 0 <= c < rowbytes :: phs[r, c] == old(phs[r, c])
      {
        OrByte(phs, i, j);
      }
    }

    lemma ByteBit(i: nat, j: nat, k: bitindex)
      requires Valid() && i < visleafs && j < rowbytes
      ensures Sees(i, 8 * j + k) <==> BitOf(pvs[i, j], k)
    {
      assert (8 * j + k) / 8 == j && (8 * j + k) % 8 == k;
    }

    lemma CopiedRow(phs: array2<bv8>, i: nat)
      requires Valid() && phs.Length0 == visleafs && phs.Length1 == rowbytes && i < visleafs
      requires forall c | 0 <= c < rowbytes :: phs[i, c] == pvs[i, c]
      ensures RowDone(phs, i, 0)
    {
    }

    lemma SkippedByte(phs: array2<bv8>, i: nat, j: nat)
      requires Valid() && phs.Length0 == visleafs && phs.Length1 == rowbytes && i < visleafs && j < rowbytes
      requires pvs[i, j] == 0 && RowDone(phs, i, 8 * j)
      ensures RowDone(phs, i, 8 * (j + 1))
    {
      forall q: nat | 8 * j <= q < 8 * (j + 1) ensures !Sees(i, q) {
        BitOfZero(q % 8);
        assert q / 8 == j;
      }
    }

    /** CM_BuildPHS: None when the rows would take more than a megabyte. Below visleafs, row i of the result is
        one-step reachability, whatever the padding bits of the PVS rows are. */
    method BuildPHS() returns (phs: Option<array2<bv8>>)
      requires Valid()
      ensures phs.None? <==> rowbytes * visleafs > 0x100000
      ensures phs.Some? ==> fresh(phs.value) && phs.value.Length0 == visleafs && phs.value.Length1 == rowbytes
      ensures phs.Some? ==>
                forall i: nat, l: nat | i < visleafs && l < visleafs ::
                  BitOf(phs.value[i, l / 8], l % 8) <==>
                    Sees(i, l) || exists j: nat :: j < visleafs && Sees(i, j) && Sees(j, l)
    {
      hide BitOf, Sees;
      if rowbytes * visleafs > 0x100000 {
        return None;
      }
      var rows := new bv8[visleafs, rowbytes];
      for i := 0 to visleafs
        invariant forall r: nat | r < i :: RowDone(rows, r, 8 * rowbytes)
      {
        label before:
        BuildRow(rows, i);
        forall r: nat | r < i ensures RowDone(rows, r, 8 * rowbytes) {
          assert old@before(RowDone(rows, r, 8 * rowbytes));
        }
      }
      forall i: nat, l: nat | i < visleafs && l < visleafs
        ensures BitOf(rows[i, l / 8], l % 8) <==>
                  Sees(i, l) || exists j: nat :: j < visleafs && Sees(i, j) && Sees(j, l)
      {
        assert RowDone(rows, i, 8 * rowbytes);
        assert HearsThrough(i, l, 8 * rowbytes) <==> exists j: nat :: j < visleafs && Sees(i, j) && Sees(j, l);
      }
      phs := Some(rows);
    }
  }
}
