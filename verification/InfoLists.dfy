/** ctxinfo_t: every info is a node of one list and of the chain of its name's bucket. */
module InfoLists {
  import opened InfoStore
  import opened InfoStrings
  import opened Options

  /** info_t */
  class Info {
    const name: text
    var value: text
    var next: Info?
    var hashNext: Info?

    constructor (name: text, next: Info?, hashNext: Info?)
      ensures this.name == name && this.value == [] && this.next == next && this.hashNext == hashNext
    {
      this.name, this.value, this.next, this.hashNext := name, [], next, hashNext;
    }
  }

  function Nth(nodes: seq<Info>, i: nat): Info? {
    if i < |nodes| then nodes[i] else null
  }

  /** The first position from i on whose node is in bucket k. */
  function FirstAt(nodes: seq<Info>, i: nat, k: nat): (r: nat)
    requires i <= |nodes|
    ensures i <= r <= |nodes|
    ensures r < |nodes| ==> Bucket(nodes[r].name) == k
    ensures forall m :: i <= m < r ==> Bucket(nodes[m].name) != k
    decreases |nodes| - i
  {
    if i == |nodes| || Bucket(nodes[i].name) == k then i else FirstAt(nodes, i + 1, k)
  }

  function FirstIn(nodes: seq<Info>, i: nat, k: nat): Info?
    requires i <= |nodes|
  {
    Nth(nodes, FirstAt(nodes, i, k))
  }

  predicate NoRepeats(nodes: seq<Info>) {
    forall i, j :: 0 <= i < j < |nodes| ==> nodes[i] != nodes[j]
  }

  function Nexts(nodes: seq<Info>): (r: seq<Info?>)
    reads nodes
    ensures |r| == |nodes|
    ensures forall i {:trigger r[i]} :: 0 <= i < |r| ==> r[i] == nodes[i].next
  {
    if nodes == [] then [] else [nodes[0].next] + Nexts(nodes[1..])
  }

  function HashNexts(nodes: seq<Info>): (r: seq<Info?>)
    reads nodes
    ensures |r| == |nodes|
    ensures forall i {:trigger r[i]} :: 0 <= i < |r| ==> r[i] == nodes[i].hashNext
  {
    if nodes == [] then [] else [nodes[0].hashNext] + HashNexts(nodes[1..])
  }

  /** The nodes are those that the list with this head runs through. */
  predicate Linked(nodes: seq<Info>, nexts: seq<Info?>, head: Info?) {
    && |nexts| == |nodes| && head == Nth(nodes, 0)
    && forall i :: 0 <= i < |nodes| ==> nexts[i] == Nth(nodes, i + 1)
  }

  /** Every chain runs through the nodes of its bucket, in the order of the list. */
  predicate Chained(nodes: seq<Info>, links: seq<Info?>, heads: seq<Info?>) {
    && |links| == |nodes| && |heads| == POOL
    && (forall k :: 0 <= k < POOL ==> heads[k] == FirstIn(nodes, 0, k))
    && (forall i {:trigger links[i]} :: 0 <= i < |nodes| ==>
          links[i] == FirstIn(nodes, i + 1, Bucket(nodes[i].name)))
  }

  function EntriesOf(nodes: seq<Info>): (s: Store)
    reads nodes
    ensures |s| == |nodes|
    ensures forall i :: 0 <= i < |s| ==> s[i] == Entry(nodes[i].name, nodes[i].value)
  {
    if nodes == [] then [] else [Entry(nodes[0].name, nodes[0].value)] + EntriesOf(nodes[1..])
  }

  // ---------- Nodes leaving and joining ----------

  lemma FirstAtIs(nodes: seq<Info>, i: nat, k: nat, r: nat)
    requires i <= r <= |nodes|
    requires r < |nodes| ==> Bucket(nodes[r].name) == k
    requires forall m :: i <= m < r ==> Bucket(nodes[m].name) != k
    ensures FirstAt(nodes, i, k) == r
  {
    hide Bucket;
  }

  function Without<T>(nodes: seq<T>, p: nat): (w: seq<T>)
    requires p < |nodes|
    ensures |w| == |nodes| - 1
    ensures forall j :: 0 <= j < |w| ==> w[j] == nodes[if j < p then j else j + 1]
  {
    nodes[..p] + nodes[p + 1..]
  }

  lemma FirstAtAfter(nodes: seq<Info>, p: nat, j: nat, k: nat)
    requires p < |nodes| && p <= j < |nodes|
    ensures FirstAt(Without<Info>(nodes, p), j, k) + 1 == FirstAt(nodes, j + 1, k)
  {
    hide Bucket, Without;
    var w := Without<Info>(nodes, p);
    var r := FirstAt(nodes, j + 1, k);
    FirstAtIs(w, j, k, r - 1);
  }

  lemma FirstAtBefore(nodes: seq<Info>, p: nat, j: nat, k: nat)
    requires p < |nodes| && j <= p
    ensures FirstIn(Without<Info>(nodes, p), j, k)
            == if FirstAt(nodes, j, k) == p then FirstIn(nodes, p + 1, k) else FirstIn(nodes, j, k)
  {
    hide Bucket, Without, FirstAt;
    var w := Without<Info>(nodes, p);
    var r := FirstAt(nodes, j, k);
    if r < p {
      FirstAtIs(w, j, k, r);
    } else {
      var t := FirstAt(nodes, p + 1, k);
      if r > p {
        FirstAtIs(nodes, p + 1, k, r);
      }
      FirstAtIs(w, j, k, t - 1);
    }
  }

  /** The chains, but for the link to node p, which is that after it instead; that link is the head of the
      chain if j is 0, and otherwise it is in node j - 1. */
  predicate Skipping(nodes: seq<Info>, links: seq<Info?>, heads: seq<Info?>, p: nat, j: nat)
    requires p < |nodes|
  {
    var key := Bucket(nodes[p].name);
    && |links| == |nodes| && |heads| == POOL && IsLinkTo(nodes, p, j)
    && (forall k :: 0 <= k < POOL ==>
          heads[k] == if j == 0 && k == key then FirstIn(nodes, p + 1, key) else FirstIn(nodes, 0, k))
    && (forall i {:trigger links[i]} :: 0 <= i < |nodes| ==>
          links[i] == if i + 1 == j then FirstIn(nodes, p + 1, key) else FirstIn(nodes, i + 1, Bucket(nodes[i].name)))
  }

  /** The chain comes to node p from its head if j is 0, and otherwise from node j - 1. */
  predicate IsLinkTo(nodes: seq<Info>, p: nat, j: nat)
    requires p < |nodes|
  {
    var key := Bucket(nodes[p].name);
    j <= p && FirstAt(nodes, j, key) == p && (j > 0 ==> Bucket(nodes[j - 1].name) == key)
  }

  /** Making that link the one after the node. */
  lemma SkippingNode(nodes: seq<Info>, links: seq<Info?>, heads: seq<Info?>, p: nat, j: nat)
    requires p < |nodes| && Chained(nodes, links, heads) && IsLinkTo(nodes, p, j)
    ensures j == 0 ==> Skipping(nodes, links, heads[Bucket(nodes[p].name) := links[p]], p, j)
    ensures j > 0 ==> Skipping(nodes, links[j - 1 := links[p]], heads, p, j)
  {
    hide Bucket, FirstAt, FirstIn;
  }

  /** Once the link to a node is that after it, the chains are those of the other nodes. */
  lemma ChainedWithout(nodes: seq<Info>, links: seq<Info?>, heads: seq<Info?>, p: nat, j: nat)
    requires p < |nodes| && Skipping(nodes, links, heads, p, j)
    ensures Chained(Without<Info>(nodes, p), Without<Info?>(links, p), heads)
  {
    hide Bucket, Without, FirstAt, FirstIn;
    var w := Without<Info>(nodes, p);
    var key := Bucket(nodes[p].name);
    forall k | 0 <= k < POOL
      ensures heads[k] == FirstIn(w, 0, k)
    {
      FirstAtBefore(nodes, p, 0, k);
      if j > 0 && k == key {
        NotFirst(nodes, 0, j - 1, p, k);
      }
    }
    forall i | 0 <= i < |w|
      ensures Without<Info?>(links, p)[i] == FirstIn(w, i + 1, Bucket(w[i].name))
    {
      var k := Bucket(w[i].name);
      if i < p {
        assert w[i] == nodes[i];
        FirstAtBefore(nodes, p, i + 1, k);
        if k == key && i + 1 < j {
          NotFirst(nodes, i + 1, j - 1, p, k);
        }
      } else {
        assert w[i] == nodes[i + 1];
        FirstInAfter(nodes, p, i + 1, k);
      }
    }
  }

  /** A node of the bucket in between comes first. */
  lemma NotFirst(nodes: seq<Info>, i: nat, m: nat, p: nat, k: nat)
    requires i <= m < p < |nodes| && Bucket(nodes[m].name) == k
    ensures FirstAt(nodes, i, k) != p
  {
    hide Bucket;
  }

  lemma FirstInAfter(nodes: seq<Info>, p: nat, j: nat, k: nat)
    requires p < |nodes| && p <= j < |nodes|
    ensures FirstIn(Without<Info>(nodes, p), j, k) == FirstIn(nodes, j + 1, k)
  {
    hide Bucket, Without, FirstAt;
    FirstAtAfter(nodes, p, j, k);
  }

  lemma LinkedWithout(nodes: seq<Info>, nexts: seq<Info?>, p: nat)
    requires p < |nodes| && Linked(nodes, nexts, nodes[0])
    ensures p == 0 ==> Linked(Without<Info>(nodes, p), Without<Info?>(nexts, p), nexts[0])
    ensures p > 0 ==> Linked(Without<Info>(nodes, p), Without<Info?>(nexts[p - 1 := nexts[p]], p), nodes[0])
  {
    hide Without;
  }

  lemma ChainedWith(a: Info, nodes: seq<Info>, links: seq<Info?>, heads: seq<Info?>)
    requires Chained(nodes, links, heads)
    ensures Chained([a] + nodes, [heads[Bucket(a.name)]] + links, heads[Bucket(a.name) := a])
  {
    hide Bucket, FirstAt, FirstIn;
    var all, key := [a] + nodes, Bucket(a.name);
    var newLinks, newHeads := [heads[key]] + links, heads[key := a];
    forall k | 0 <= k < POOL
      ensures newHeads[k] == FirstIn(all, 0, k)
    {
      FirstInHead(a, nodes, k);
    }
    forall i | 0 <= i < |all|
      ensures newLinks[i] == FirstIn(all, i + 1, Bucket(all[i].name))
    {
      FirstInCons(a, nodes, i, Bucket(all[i].name));
    }
  }

  lemma FirstInCons(a: Info, nodes: seq<Info>, i: nat, k: nat)
    requires i <= |nodes|
    ensures FirstIn([a] + nodes, i + 1, k) == FirstIn(nodes, i, k)
  {
    hide Bucket;
    FirstAtIs([a] + nodes, i + 1, k, FirstAt(nodes, i, k) + 1);
  }

  lemma FirstInHead(a: Info, nodes: seq<Info>, k: nat)
    ensures FirstIn([a] + nodes, 0, k) == if Bucket(a.name) == k then a else FirstIn(nodes, 0, k)
  {
    hide Bucket;
    FirstInCons(a, nodes, 0, k);
  }

  // ---------- Positions ----------

  lemma FirstDiffers(s: Store, name: text, i: nat)
    requires Distinct(s) && 0 < i < |s| && Same(name, s[i].name)
    ensures !Same(name, s[0].name) && s[1..][i - 1] == s[i]
  {
    hide Folded;
    AbsentIsDifferent(s[1..], s[0].name);
    assert s[i] == s[1..][i - 1];
  }

  /** In a store with distinct names, what is found at one position is all there is under that name. */
  lemma {:induction false} GetAt(s: Store, name: text, i: nat)
    requires Distinct(s) && i < |s| && Same(name, s[i].name)
    ensures Get(s, name) == Some(s[i].value)
  {
    hide Same;
    if i > 0 {
      FirstDiffers(s, name, i);
      GetAt(s[1..], name, i - 1);
    }
  }

  lemma {:induction false} RemovedAt(s: Store, name: text, i: nat)
    requires Distinct(s) && i < |s| && Same(name, s[i].name)
    ensures Removed(s, name) == Without<Entry>(s, i)
  {
    hide Same, Get, Without;
    WithoutOfCons(s, i);
    if i > 0 {
      FirstDiffers(s, name, i);
      RemovedAt(s[1..], name, i - 1);
    }
  }

  lemma WithoutOfCons(s: Store, i: nat)
    requires i < |s|
    ensures Without<Entry>(s, i) == if i == 0 then s[1..] else [s[0]] + Without<Entry>(s[1..], i - 1)
  {
    if i > 0 {
      var t := s[1..];
      assert s[i + 1..] == t[i..] && s[..i] == [s[0]] + t[..i - 1];
    }
  }

  lemma {:induction false} ReplacedAt(s: Store, name: text, i: nat, value: text)
    requires Distinct(s) && i < |s| && Same(name, s[i].name)
    ensures Replaced(s, name, value) == s[i := Entry(s[i].name, value)]
  {
    hide Same;
    if i > 0 {
      FirstDiffers(s, name, i);
      ReplacedAt(s[1..], name, i - 1, value);
      assert s == [s[0]] + s[1..];
    }
  }

  lemma LinkIsBefore(nodes: seq<Info>, p: nat, j: nat)
    requires p < |nodes| && IsLinkTo(nodes, p, j)
    ensures j <= p
  {
  }

  lemma LinkAt(nodes: seq<Info>, nexts: seq<Info?>, head: Info?, i: nat)
    requires Linked(nodes, nexts, head) && i <= |nodes|
    ensures head == Nth(nodes, 0)
    ensures i < |nodes| ==> i < |nexts| && nexts[i] == Nth(nodes, i + 1)
  {
  }

  lemma OnlyPosition(s: Store, name: text, i: nat, p: nat)
    requires Distinct(s) && i < |s| && p < |s| && Same(name, s[i].name) && Same(name, s[p].name)
    ensures i == p
  {
    hide Folded;
    DistinctMeans(s);
  }

  lemma FieldsWithout(nodes: seq<Info>, p: nat)
    requires p < |nodes|
    ensures Nexts(Without<Info>(nodes, p)) == Without<Info?>(Nexts(nodes), p)
    ensures HashNexts(Without<Info>(nodes, p)) == Without<Info?>(HashNexts(nodes), p)
    ensures EntriesOf(Without<Info>(nodes, p)) == Without<Entry>(EntriesOf(nodes), p)
  {
    NextsWithout(nodes, p);
    HashNextsWithout(nodes, p);
    EntriesWithout(nodes, p);
  }

  lemma NextsWithout(nodes: seq<Info>, p: nat)
    requires p < |nodes|
    ensures Nexts(Without<Info>(nodes, p)) == Without<Info?>(Nexts(nodes), p)
  {
    hide Without, Nexts;
  }

  lemma HashNextsWithout(nodes: seq<Info>, p: nat)
    requires p < |nodes|
    ensures HashNexts(Without<Info>(nodes, p)) == Without<Info?>(HashNexts(nodes), p)
  {
    hide Without, HashNexts;
  }

  lemma EntriesWithout(nodes: seq<Info>, p: nat)
    requires p < |nodes|
    ensures EntriesOf(Without<Info>(nodes, p)) == Without<Entry>(EntriesOf(nodes), p)
  {
    hide Without, EntriesOf;
  }

  lemma NoRepeatsWithout(nodes: seq<Info>, p: nat)
    requires p < |nodes| && NoRepeats(nodes)
    ensures NoRepeats(Without<Info>(nodes, p))
  {
    hide Without;
  }

  lemma LinkedHead(nodes: seq<Info>, nexts: seq<Info?>, head: Info?)
    requires Linked(nodes, nexts, head) && nodes != []
    ensures |nexts| == |nodes| && head == nodes[0]
  {
  }

  lemma AbsentIsNotRemoved(s: Store, name: text)
    requires Distinct(s)
    ensures Get(s, name).None? ==> Removed(s, name) == s
  {
    RemovedIsWellFormed(s, name);
  }

  lemma NewIsDistinct(name: text, s: Store)
    requires Distinct(s) && Get(s, name).None?
    ensures Distinct([Entry(name, [])] + s)
  {
    hide Same;
    assert ([Entry(name, [])] + s)[1..] == s;
  }

  lemma NewIsNoRepeat(a: Info, nodes: seq<Info>)
    requires NoRepeats(nodes) && a !in nodes
    ensures NoRepeats([a] + nodes)
  {
  }

  lemma FieldsWith(a: Info, nodes: seq<Info>)
    ensures EntriesOf([a] + nodes) == [Entry(a.name, a.value)] + EntriesOf(nodes)
    ensures Nexts([a] + nodes) == [a.next] + Nexts(nodes) && HashNexts([a] + nodes) == [a.hashNext] + HashNexts(nodes)
  {
  }

  lemma LinkedWith(a: Info, nodes: seq<Info>, nexts: seq<Info?>, head: Info?)
    requires Linked(nodes, nexts, head)
    ensures Linked([a] + nodes, [head] + nexts, a)
  {
  }

  lemma {:induction false} ReplacedIsDistinct(s: Store, name: text, value: text)
    requires Distinct(s)
    ensures Distinct(Replaced(s, name, value))
  {
    hide Same;
    if s != [] {
      if Same(name, s[0].name) {
        assert Replaced(s, name, value)[1..] == s[1..];
      } else {
        ReplacedIsDistinct(s[1..], name, value);
        assert Replaced(s, name, value)[1..] == Replaced(s[1..], name, value);
        if Get(s[1..], name).Some? {
          GetAfterReplaced(s[1..], name, value, s[0].name);
        } else {
          AbsentIsNotReplaced(s[1..], name, value);
        }
      }
    }
  }

  lemma {:induction false} AbsentIsNotReplaced(s: Store, name: text, value: text)
    requires Get(s, name).None?
    ensures Replaced(s, name, value) == s
  {
    hide Same;
    if s != [] {
      AbsentIsNotReplaced(s[1..], name, value);
    }
  }

  lemma SetInNew(s: Store, name: text, value: text)
    requires Distinct(s) && Get(s, name).None?
    ensures var t := [Entry(name, [])] + s;
            && Same(name, name)
            && Replaced(t, name, value) == [Entry(name, value)] + s == Updated(s, name, value)
            && Removed([Entry(name, value)] + s, name) == s == Removed(s, name)
            && Get([Entry(name, value)] + s, name) == Some(value)
  {
    hide Folded;
    AbsentIsNotRemoved(s, name);
    assert ([Entry(name, [])] + s)[1..] == s && ([Entry(name, value)] + s)[1..] == s;
  }

  lemma {:induction false} SetInOld(s: Store, name: text, value: text)
    requires Get(s, name).Some?
    ensures Updated(s, name, value) == Replaced(s, name, value)
    ensures Removed(Replaced(s, name, value), name) == Removed(s, name)
    ensures Get(Replaced(s, name, value), name) == Some(value)
  {
    hide Folded;
    if !Same(name, s[0].name) {
      SetInOld(s[1..], name, value);
      assert Replaced(s, name, value)[1..] == Replaced(s[1..], name, value);
    } else {
      assert Replaced(s, name, value)[1..] == s[1..];
    }
  }

  lemma NothingSplits()
    ensures Split([]) == None
  {
  }

  lemma Associates(a: text, b: text, c: text)
    ensures a + (b + c) == a + b + c
  {
  }

  /** The string of the entries from i on. */
  ghost function Remaining(s: Store, i: nat): text
    requires i <= |s|
  {
    Joined(s[i..])
  }

  lemma NothingRemains(s: Store)
    ensures Remaining(s, |s|) == []
  {
    assert s[|s|..] == [];
  }

  lemma PairLength(name: text, value: text)
    ensures |Pair(Entry(name, value))| == 2 + |name| + |value|
  {
  }

  class InfoCtx {
    const infoHash: array<Info?>
    var infoList: Info?
    var cur: nat
    const max: nat
    ghost var order: seq<Info>

    /** The infos in list order. */
    ghost function Value(): Store
      reads this, order
    {
      EntriesOf(order)
    }

    ghost predicate Valid()
      reads this, infoHash, order
    {
      && infoHash.Length == POOL && cur == |order|
      && Linked(order, Nexts(order), infoList) && Chained(order, HashNexts(order), infoHash[..])
      && NoRepeats(order) && Distinct(Value())
    }

    constructor (max: nat)
      ensures Valid() && fresh(infoHash) && Value() == [] && this.max == max
    {
      infoHash := new Info?[POOL](_ => null);
      infoList, cur := null, 0;
      this.max := max;
      order := [];
    }

    /** Where a node of a chain is in the list, and what follows it. */
    lemma ChainStep(j: nat, key: nat)
      requires Valid() && j <= |order| && FirstIn(order, j, key) != null
      ensures var r := FirstAt(order, j, key);
              && r < |order| && FirstIn(order, j, key) == order[r] && Bucket(order[r].name) == key
              && order[r].hashNext == FirstIn(order, r + 1, key)
    {
      hide Bucket, FirstAt, Distinct, NoRepeats, Linked, EntriesOf, Nexts, HashNexts;
      var r := FirstAt(order, j, key);
      assert HashNexts(order)[r] == order[r].hashNext;
    }

    lemma ChainHead(key: nat)
      requires Valid() && key < POOL
      ensures infoHash.Length == POOL && infoHash[key] == FirstIn(order, 0, key)
    {
      hide Bucket, FirstAt, Distinct, NoRepeats, Linked;
    }

    lemma ChainEnd(j: nat, key: nat)
      requires j <= |order| && FirstIn(order, j, key) == null
      ensures FirstAt(order, j, key) == |order|
    {
    }

    /** _Info_Get */
    method Lookup(name: text) returns (a: Info?)
      requires Valid()
      ensures a == null <==> name == [] || Get(Value(), name).None?
      ensures a != null ==> a in order && Same(name, a.name) && Get(Value(), name) == Some(a.value)
    {
      hide Same, Bucket, Distinct, FirstAt, FirstIn, Linked, Chained, NoRepeats, Nexts, HashNexts, EntriesOf;
      if name == [] {
        return null;
      }
      var key := BucketOf(name);
      ghost var j := 0;
      ChainHead(key);
      a := infoHash[key];
      while a != null
        invariant j <= |order| && a == FirstIn(order, j, key)
        invariant forall m :: 0 <= m < j && Bucket(order[m].name) == key ==> !Same(name, order[m].name)
        decreases |order| - j
      {
        ChainStep(j, key);
        j := FirstAt(order, j, key);
        if Same(name, a.name) {
          GetAt(Value(), name, j);
          return;
        }
        a := a.hashNext;
        j := j + 1;
      }
      ChainEnd(j, key);
      NotInChain(name);
    }

    /** A name that no node of its bucket has is not in the store. */
    lemma NotInChain(name: text)
      requires forall m :: 0 <= m < |order| && Bucket(order[m].name) == Bucket(name) ==> !Same(name, order[m].name)
      ensures Get(Value(), name).None?
    {
      hide Same, Bucket;
      forall k | 0 <= k < |order|
        ensures !Same(name, order[k].name)
      {
        if Same(name, order[k].name) {
          SameNameSameBucket(name, order[k].name);
        }
      }
      AbsentIsDifferent(Value(), name);
    }

    /** The first half of Info_Remove: the node leaves its chain. */
    method Unhash(name: text) returns (a: Info?, ghost p: nat, ghost j: nat)
      requires Valid() && name != []
      modifies infoHash, order`hashNext
      ensures a == null ==> Valid() && Get(old(Value()), name).None?
      ensures a != null ==>
                && infoHash.Length == POOL
                && p < |order| && order[p] == a && Same(name, a.name)
                && Linked(order, Nexts(order), infoList) && Skipping(order, HashNexts(order), infoHash[..], p, j)
      ensures Value() == old(Value())
    {
      hide Same, Bucket, Distinct, FirstAt, FirstIn, Linked, Chained, NoRepeats, Skipping, EntriesOf, Nexts, HashNexts;
      p := 0;
      j := 0;
      var key := BucketOf(name);
      var prev: Info? := null;
      ChainHead(key);
      a := infoHash[key];
      while a != null
        invariant j <= |order| && a == FirstIn(order, j, key)
        invariant prev == if j == 0 then null else order[j - 1]
        invariant j > 0 ==> Bucket(order[j - 1].name) == key
        invariant forall m :: 0 <= m < j && Bucket(order[m].name) == key ==> !Same(name, order[m].name)
        invariant unchanged(infoHash) && unchanged(order)
        decreases |order| - j
      {
        ChainStep(j, key);
        p := FirstAt(order, j, key);
        if Same(name, a.name) {
          Skip(key, prev, a, p, j);
          return;
        }
        prev := a;
        a := a.hashNext;
        j := p + 1;
      }
      ChainEnd(j, key);
      NotInChain(name);
      assert Value() == old(Value());
    }

    /** The link to node p becomes that after it. */
    method Skip(key: nat, prev: Info?, a: Info, ghost p: nat, ghost j: nat)
      requires Valid() && p < |order| && a == order[p] && key == Bucket(a.name) && IsLinkTo(order, p, j)
      requires prev == if j == 0 then null else order[j - 1]
      modifies infoHash, order`hashNext
      ensures infoHash.Length == POOL
      ensures Linked(order, Nexts(order), infoList) && Skipping(order, HashNexts(order), infoHash[..], p, j)
      ensures Value() == old(Value())
    {
      hide Bucket, Distinct, EntriesOf, Nexts, HashNexts, Chained, Linked, IsLinkTo, Skipping;
      ghost var links, heads := HashNexts(order), infoHash[..];
      SkippingNode(order, links, heads, p, j);
      LinkIsBefore(order, p, j);
      if prev != null {
        prev.hashNext := a.hashNext;
        assert HashNexts(order) == links[j - 1 := links[p]];
      } else {
        infoHash[key] := a.hashNext;
        assert HashNexts(order) == links && infoHash[..] == heads[key := links[p]];
      }
      assert Nexts(order) == old(Nexts(order));
      assert Value() == old(Value());
    }

    /** The second half of Info_Remove: the node with the name leaves the list and is counted off. */
    method Unlist(name: text, ghost p: nat, ghost j: nat)
      requires infoHash.Length == POOL && cur == |order| && Linked(order, Nexts(order), infoList)
      requires NoRepeats(order) && Distinct(Value())
      requires p < |order| && Same(name, order[p].name) && Skipping(order, HashNexts(order), infoHash[..], p, j)
      modifies this`infoList, this`cur, this`order, order`next
      ensures Valid() && Value() == Removed(old(Value()), name) && order == Without<Info>(old(order), p)
    {
      hide Same, Bucket, Distinct, Skipping, Linked, Chained, EntriesOf, NoRepeats, Removed, Nexts, HashNexts;
      var prev: Info? := null;
      var a := infoList;
      ghost var i := 0;
      LinkAt(order, Nexts(order), infoList, 0);
      while a != null
        invariant i <= |order| && a == Nth(order, i) && prev == if i == 0 then null else order[i - 1]
        invariant i <= p
        invariant unchanged(this) && unchanged(order)
        decreases |order| - i
      {
        if Same(name, a.name) {
          OnlyPosition(Value(), name, i, p);
          TakeOut(name, prev, a, p, j);
          return;
        }
        LinkAt(order, Nexts(order), infoList, i);
        prev := a;
        a := a.next;
        i := i + 1;
      }
      // Sys_Error: the list is broken.
      assert false;
    }

    method TakeOut(name: text, prev: Info?, a: Info, ghost p: nat, ghost j: nat)
      requires infoHash.Length == POOL && cur == |order| && Linked(order, Nexts(order), infoList)
      requires NoRepeats(order) && Distinct(Value())
      requires p < |order| && a == order[p] && Same(name, a.name)
      requires Skipping(order, HashNexts(order), infoHash[..], p, j)
      requires prev == if p == 0 then null else order[p - 1]
      modifies this`infoList, this`cur, this`order, order`next
      ensures Valid() && Value() == Removed(old(Value()), name) && order == Without<Info>(old(order), p)
    {
      hide Same, Bucket, Distinct, Skipping, Chained, Linked, EntriesOf, Nexts, HashNexts, Without, Removed;
      ghost var nodes, before, nexts, links, heads := order, Value(), Nexts(order), HashNexts(order), infoHash[..];
      LinkedHead(nodes, nexts, infoList);
      LinkedWithout(nodes, nexts, p);
      ChainedWithout(nodes, links, infoHash[..], p, j);
      RemovedAt(before, name, p);
      RemovedIsWellFormed(before, name);
      NoRepeatsWithout(nodes, p);
      order := Without<Info>(nodes, p);
      cur := cur - 1;
      if prev != null {
        prev.next := a.next;
        assert Nexts(nodes) == nexts[p - 1 := nexts[p]];
        assert infoList == nodes[0];
      } else {
        infoList := a.next;
        assert Nexts(nodes) == nexts && infoList == nexts[0];
      }
      assert Linked(Without<Info>(nodes, p), Without<Info?>(Nexts(nodes), p), infoList);
      hide NoRepeats;
      assert HashNexts(nodes) == links && EntriesOf(nodes) == before;
      FieldsWithout(nodes, p);
      assert HashNexts(order) == Without<Info?>(links, p);
      assert infoHash[..] == heads;
      assert Chained(order, HashNexts(order), infoHash[..]);
      assert Linked(order, Nexts(order), infoList);
      assert Value() == Removed(before, name);
    }

    /** Info_Remove */
    method Remove(name: text) returns (ok: bool)
      requires Valid()
      modifies this`infoList, this`cur, this`order, infoHash, order
      ensures Valid() && (Value(), ok) == InfoStore.Remove(old(Value()), name)
      ensures forall n :: n in order ==> n in old(order)
    {
      hide Same, Removed, Skipping, Linked, Chained, NoRepeats, EntriesOf, Nexts, HashNexts, Distinct;
      if name == [] {
        return false;
      }
      ghost var before := Value();
      AbsentIsNotRemoved(before, name);
      var a, p, j := Unhash(name);
      if a == null {
        return false;
      }
      GetAt(before, name, p);
      ghost var nodes := order;
      Unlist(name, p, j);
      assert forall i :: 0 <= i < |order| ==> order[i] == nodes[if i < p then i else i + 1];
      ok := true;
    }

    /** A new node at the front of the list and of its chain; it has no value yet. */
    method Link(name: text) returns (a: Info)
      requires Valid() && Get(Value(), name).None?
      modifies this`infoList, this`cur, this`order, infoHash
      ensures Valid() && fresh(a) && a.name == name && order == [a] + old(order)
      ensures Value() == [Entry(name, [])] + old(Value())
    {
      hide Same, Bucket, Linked, Chained, EntriesOf, Nexts, HashNexts, Get, Distinct, NoRepeats, FirstIn, FirstAt;
      ghost var nodes, before, nexts, links, heads := order, Value(), Nexts(order), HashNexts(order), infoHash[..];
      var key := BucketOf(name);
      a := new Info(name, infoList, infoHash[key]);
      infoList := a;
      infoHash[key] := a;
      cur := cur + 1;
      order := [a] + order;
      FieldsWith(a, nodes);
      ChainedWith(a, nodes, links, heads);
      LinkedWith(a, nodes, nexts, old(infoList));
      assert infoHash[..] == heads[key := a];
      NewIsDistinct(name, before);
      NewIsNoRepeat(a, nodes);
    }

    /** The value of the node that has the name becomes another one. */
    method Assign(name: text, a: Info, value: text)
      requires Valid() && a in order && Same(name, a.name)
      modifies a`value
      ensures Valid() && Value() == Replaced(old(Value()), name, value) && a.value == value
    {
      hide Same, Linked, Chained, EntriesOf, Nexts, HashNexts, Replaced, Distinct;
      ghost var i :| 0 <= i < |order| && order[i] == a;
      ghost var before := Value();
      a.value := value;
      ReplacedAt(before, name, i, value);
      ReplacedIsDistinct(before, name, value);
      assert Nexts(order) == old(Nexts(order)) && HashNexts(order) == old(HashNexts(order));
      assert Value() == before[i := Entry(before[i].name, value)];
    }

    /** The part of Info_SetStar after its checks; the value is already without control characters. */
    method Put(name: text, value: text) returns (ok: bool)
      requires Valid() && name != []
      modifies this`infoList, this`cur, this`order, infoHash, order
      ensures Valid() && ok == (Get(old(Value()), name).Some? || old(cur) < max)
      ensures var before := old(Value());
              Value() == if !ok then before
                         else if value == [] then Removed(before, name)
                         else Updated(before, name, value)
      ensures forall n :: n in order ==> n in old(order) || fresh(n)
    {
      hide Same, Linked, Chained, EntriesOf, Nexts, HashNexts, NoRepeats, Removed, Replaced, Updated, Get, Distinct;
      ghost var before := Value();
      var a := Lookup(name);
      if a == null {
        if cur >= max {
          return false;
        }
        a := Link(name);
        assert a == order[0];
        SetInNew(before, name, value);
      } else {
        SetInOld(before, name, value);
      }
      Assign(name, a, value);
      ok := true;
      if a.value == [] {
        ok := Remove(name);
      }
    }

    /** Info_SetStar */
    method SetStar(name: text, value: text) returns (ok: bool)
      requires Valid()
      modifies this`infoList, this`cur, this`order, infoHash, order
      ensures Valid() && (Value(), ok) == InfoStore.SetStar(old(Value()), max, name, value)
      ensures forall n :: n in order ==> n in old(order) || fresh(n)
    {
      hide Same, Linked, Chained, EntriesOf, Nexts, HashNexts, NoRepeats, Removed, Updated, Get, Distinct, Acceptable,
          Printable;
      if name == [] {
        return false;
      }
      if value == [] {
        ok := Remove(name);
        return;
      }
      if !Acceptable(name, value) {
        return false;
      }
      var printed := Print(value);
      ok := Put(name, printed);
    }

    /** Info_RemoveAll */
    method RemoveAll()
      requires Valid()
      modifies this`infoList, this`cur, this`order, infoHash
      ensures Valid() && Value() == [] && order == []
    {
      infoList := null;
      cur := 0;
      forall k | 0 <= k < infoHash.Length {
        infoHash[k] := null;
      }
      order := [];
    }

    /** Info_Convert */
    method Convert(t: text)
      requires Valid()
      modifies this`infoList, this`cur, this`order, infoHash, order
      ensures Valid() && Value() == Converted(old(Value()), max, t)
      ensures forall n :: n in order ==> n in old(order) || fresh(n)
    {
      hide InfoStore.SetStar, Valid, Value, Split;
      ghost var before := Value();
      var rest := t;
      while rest != []
        invariant Valid() && Converted(Value(), max, rest) == Converted(before, max, t)
        invariant forall n :: n in order ==> n in old(order) || fresh(n)
        decreases |rest|
      {
        var piece := Split(rest);
        if piece.None? {
          break;
        }
        assert forall i :: 0 <= i < |order| ==> order[i] in old(order) || fresh(order[i]);
        var _ := SetStar(Cut(piece.value.name), Cut(piece.value.value));
        rest := piece.value.rest;
      }
      NothingSplits();
    }

    /** Info_ReverseConvert: the string, and whether it fitted into size bytes with its terminating zero. */
    method ReverseConvert(size: int) returns (str: text, ok: bool)
      requires Valid()
      ensures ok == (1 <= size && |Joined(Value())| < size)
      ensures ok ==> str == Joined(Value())
    {
      hide Valid, Value, Pair, Joined, Remaining;
      str := [];
      if size < 1 {
        return str, false;
      }
      var left := size;
      var a := infoList;
      ghost var s, i := Value(), 0;
      ListHead();
      while a != null
        invariant i <= |order| == |s| && a == Nth(order, i)
        invariant left >= 1 && left == size - |str|
        invariant str + Remaining(s, i) == Joined(s)
        decreases |order| - i
      {
        ListStep(i);
        if a.value != [] {
          PairLength(a.name, a.value);
          var nextSize := left - 2 - |a.name| - |a.value|;
          if nextSize < 1 {
            return str, false;
          }
          Associates(str, Pair(s[i]), Remaining(s, i + 1));
          str := str + Pair(Entry(a.name, a.value));
          left := nextSize;
        }
        a := a.next;
        i := i + 1;
      }
      NothingRemains(s);
      ok := true;
    }

    lemma ListHead()
      requires Valid()
      ensures infoList == Nth(order, 0) && |order| == |Value()|
      ensures [] + Remaining(Value(), 0) == Joined(Value())
    {
      hide Chained, NoRepeats, Distinct, Joined;
      assert Value()[0..] == Value();
    }

    lemma ListStep(i: nat)
      requires Valid() && i < |order| == |Value()|
      ensures order[i].next == Nth(order, i + 1) && Value()[i] == Entry(order[i].name, order[i].value)
      ensures Remaining(Value(), i) == (if order[i].value == [] then [] else Pair(Value()[i]))
              + Remaining(Value(), i + 1)
    {
      hide Chained, NoRepeats, Distinct, Pair;
      assert Nexts(order)[i] == order[i].next;
      assert Value()[i..][1..] == Value()[i + 1..];
    }
  }
}
