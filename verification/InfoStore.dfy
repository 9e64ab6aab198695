/** The info store: names, compared without regard to case, with their values. */
module InfoStore {
  import opened Options

  /** A byte of a string; the terminating zero is not part of it. */
  type letter = x: int | 1 <= x < 256 witness 1
  type text = seq<letter>

  const MAX_KEY_STRING := 64
  const POOL := 256
  const BACKSLASH: letter := 92

  // ---------- Names ----------

  function Lower(c: letter): letter {
    if 65 <= c <= 90 then c + 32 else c
  }

  function Folded(s: text): (r: text)
    ensures |r| == |s|
    ensures forall i :: 0 <= i < |s| ==> r[i] == Lower(s[i])
  {
    if s == [] then [] else Folded(s[..|s| - 1]) + [Lower(s[|s| - 1])]
  }

  /** strcasecmp finds no difference. */
  predicate Same(a: text, b: text) {
    Folded(a) == Folded(b)
  }

  /** They have the same length, and at every place the same letter or a capital and its small one. */
  lemma SameMeans(a: text, b: text)
    ensures Same(a, b) <==>
              |a| == |b| && forall i :: 0 <= i < |a| ==>
                || a[i] == b[i]
                || (65 <= a[i] <= 90 && b[i] == a[i] + 32)
                || (65 <= b[i] <= 90 && a[i] == b[i] + 32)
  {
    if Same(a, b) {
      forall i | 0 <= i < |a| ensures Lower(a[i]) == Lower(b[i]) {
        assert Folded(a)[i] == Folded(b)[i];
      }
    }
  }

  const ULONG := 0x1_0000_0000_0000_0000

  /** c & ~32 for a signed char. */
  function Cleared(c: letter): int {
    (if c / 32 % 2 == 1 then c - 32 else c) - (if c >= 128 then 256 else 0)
  }

  /** Info_HashKey, on unsigned long. */
  function HashKey(s: text): int {
    if s == [] then 0
    else
      var h := HashKey(s[..|s| - 1]);
      (Cleared(s[|s| - 1]) + h * 64 + h * 65536 - h) % ULONG
  }

  /** Info_HashKey, as its loop computes it. */
  method ComputeHashKey(s: text) returns (hash: int)
    ensures hash == HashKey(s)
  {
    hide Cleared;
    hash := 0;
    for i := 0 to |s|
      invariant hash == HashKey(s[..i])
    {
      assert s[..i + 1][..i] == s[..i];
      hash := (Cleared(s[i]) + hash * 64 + hash * 65536 - hash) % ULONG;
    }
    assert s[..|s|] == s;
  }

  function Bucket(s: text): (k: nat)
    ensures k < POOL
  {
    HashKey(s) % POOL
  }

  method BucketOf(s: text) returns (k: nat)
    ensures k == Bucket(s)
  {
    var hash := ComputeHashKey(s);
    k := hash % POOL;
  }

  /** Names that differ only in case are in the same bucket. */
  lemma {:induction false} SameNameSameBucket(a: text, b: text)
    requires Same(a, b)
    ensures HashKey(a) == HashKey(b) && Bucket(a) == Bucket(b)
  {
    assert |a| == |b|;
    if a != [] {
      var n := |a| - 1;
      assert Folded(a)[..n] == Folded(a[..n]) && Folded(b)[..n] == Folded(b[..n]);
      SameNameSameBucket(a[..n], b[..n]);
      assert Lower(a[n]) == Folded(a)[n] == Folded(b)[n] == Lower(b[n]);
      SameClearing(a[n], b[n]);
      hide Cleared;
    }
  }

  lemma SameClearing(a: letter, b: letter)
    requires Lower(a) == Lower(b)
    ensures Cleared(a) == Cleared(b)
  {
  }

  // ---------- The store ----------

  datatype Entry = Entry(name: text, value: text)
  type Store = seq<Entry>

  function Get(s: Store, name: text): Option<text> {
    if s == [] then None
    else if Same(name, s[0].name) then Some(s[0].value)
    else Get(s[1..], name)
  }

  /** No name occurs twice. */
  predicate Distinct(s: Store) {
    s == [] || (Get(s[1..], s[0].name).None? && Distinct(s[1..]))
  }

  lemma {:induction false} AbsentIsDifferent(s: Store, name: text)
    ensures Get(s, name).None? <==> forall i :: 0 <= i < |s| ==> !Same(name, s[i].name)
  {
    hide Same;
    if s != [] {
      AbsentIsDifferent(s[1..], name);
      assert forall i :: 1 <= i < |s| ==> s[i] == s[1..][i - 1];
      assert forall i :: 0 <= i < |s| - 1 ==> s[1..][i] == s[i + 1];
    }
  }

  lemma {:induction false} DistinctMeans(s: Store)
    ensures Distinct(s) <==> forall i, j :: 0 <= i < j < |s| ==> !Same(s[i].name, s[j].name)
  {
    hide Same, Get;
    if s != [] {
      DistinctMeans(s[1..]);
      AbsentIsDifferent(s[1..], s[0].name);
      assert forall i :: 1 <= i < |s| ==> s[i] == s[1..][i - 1];
      assert forall i :: 0 <= i < |s| - 1 ==> s[1..][i] == s[i + 1];
    }
  }

  function Removed(s: Store, name: text): Store {
    if s == [] then []
    else if Same(name, s[0].name) then s[1..]
    else [s[0]] + Removed(s[1..], name)
  }

  function Replaced(s: Store, name: text, value: text): Store {
    if s == [] then []
    else if Same(name, s[0].name) then [Entry(s[0].name, value)] + s[1..]
    else [s[0]] + Replaced(s[1..], name, value)
  }

  /** A name that is there keeps its place and its spelling; a new one goes to the front. */
  function Updated(s: Store, name: text, value: text): Store {
    if Get(s, name).Some? then Replaced(s, name, value) else [Entry(name, value)] + s
  }

  /** No backslash, quote, line break, dollar sign or semicolon, and no backslash with its top bit set. */
  predicate Legal(s: text) {
    92 !in s && 220 !in s && 34 !in s && 13 !in s && 10 !in s && 36 !in s && 59 !in s
  }

  /** A byte of the upper half looks like the character 128 below it. */
  predicate LooksLike(c: letter, d: char) {
    c as int == d as int || c as int == d as int + 128
  }

  lemma LegalMeans(s: text)
    ensures Legal(s) <==> forall i :: 0 <= i < |s| ==> !LooksLike(s[i], '\\') && s[i] as char !in "\"\r\n$;"
  {
    assert "\"\r\n$;" == ['"', '\r', '\n', '$', ';'];
  }

  predicate Acceptable(name: text, value: text) {
    Legal(name) && Legal(value) && |name| < MAX_KEY_STRING && |value| < MAX_KEY_STRING
  }

  /** The value without its control characters up to 13. */
  function Printable(s: text): (r: text)
    ensures |r| <= |s|
    ensures forall i :: 0 <= i < |r| ==> r[i] in s && r[i] > 13
  {
    if s == [] then []
    else Printable(s[..|s| - 1]) + if s[|s| - 1] > 13 then [s[|s| - 1]] else []
  }

  lemma PrintableOfOneMore(s: text, c: letter)
    ensures Printable(s + [c]) == Printable(s) + if c > 13 then [c] else []
  {
    assert (s + [c])[..|s|] == s;
  }

  /** Each character is kept or left out for itself, and those that are kept stay in order. */
  lemma {:induction false} PrintableInParts(a: text, b: text)
    ensures Printable(a + b) == Printable(a) + Printable(b)
    decreases |b|
  {
    hide Printable;
    if b == [] {
      assert a + b == a && b + b == b;
      PrintableOfNothing();
    } else {
      var init, c := b[..|b| - 1], b[|b| - 1];
      PrintableInParts(a, init);
      assert b == init + [c] && a + b == (a + init) + [c];
      PrintableOfOneMore(init, c);
      PrintableOfOneMore(a + init, c);
    }
  }

  lemma PrintableOfNothing()
    ensures Printable([]) == []
  {
  }

  lemma PrintableOfOne(c: letter)
    ensures Printable([c]) == if c > 13 then [c] else []
  {
    assert [c][..0] == [];
  }

  /** The loop of Info_SetStar that skips the control characters. */
  method Print(value: text) returns (r: text)
    ensures r == Printable(value)
  {
    r := [];
    for i := 0 to |value|
      invariant r == Printable(value[..i])
    {
      assert value[..i + 1][..i] == value[..i];
      if value[i] > 13 {
        r := r + [value[i]];
      }
    }
    assert value[..|value|] == value;
  }

  lemma {:induction false} PrintableKeepsAll(s: text)
    requires forall i :: 0 <= i < |s| ==> s[i] > 13
    ensures Printable(s) == s
  {
    if s != [] {
      PrintableKeepsAll(s[..|s| - 1]);
    }
  }

  /** Info_Remove and its answer. */
  function Remove(s: Store, name: text): (Store, bool) {
    if name == [] then (s, false) else (Removed(s, name), Get(s, name).Some?)
  }

  /** Info_SetStar and its answer. */
  function SetStar(s: Store, max: nat, name: text, value: text): (Store, bool) {
    if name == [] then (s, false)
    else if value == [] then Remove(s, name)
    else if !Acceptable(name, value) then (s, false)
    else if Get(s, name).None? && |s| >= max then (s, false)
    else if Printable(value) == [] then (Removed(s, name), true)
    else (Updated(s, name, Printable(value)), true)
  }

  // ---------- What every run keeps ----------

  predicate GoodEntry(e: Entry) {
    && e.name != [] && e.value != [] && Acceptable(e.name, e.value)
    && forall i :: 0 <= i < |e.value| ==> e.value[i] > 13
  }

  predicate AllGood(s: Store) {
    s == [] || (GoodEntry(s[0]) && AllGood(s[1..]))
  }

  predicate WellFormed(s: Store, max: nat) {
    |s| <= max && Distinct(s) && AllGood(s)
  }

  datatype Operation = Set(name: text, value: text) | Drop(name: text) | DropAll

  function After(s: Store, max: nat, op: Operation): Store {
    match op
    case Set(name, value) => SetStar(s, max, name, value).0
    case Drop(name) => Remove(s, name).0
    case DropAll => []
  }

  function Run(s: Store, max: nat, ops: seq<Operation>): Store {
    if ops == [] then s else After(Run(s, max, ops[..|ops| - 1]), max, ops[|ops| - 1])
  }

  lemma {:induction false} RemovedIsWellFormed(s: Store, name: text)
    requires Distinct(s)
    ensures Distinct(Removed(s, name)) && (AllGood(s) ==> AllGood(Removed(s, name)))
    ensures |Removed(s, name)| == if Get(s, name).Some? then |s| - 1 else |s|
    ensures Get(s, name).None? ==> Removed(s, name) == s
  {
    hide Same, GoodEntry;
    if s != [] && !Same(name, s[0].name) {
      RemovedIsWellFormed(s[1..], name);
      GetAfterRemoved(s[1..], name, s[0].name);
      assert Removed(s, name)[1..] == Removed(s[1..], name);
    }
  }

  lemma {:induction false} ReplacedIsWellFormed(s: Store, name: text, value: text)
    requires Distinct(s) && AllGood(s) && GoodEntry(Entry(name, value)) && Get(s, name).Some?
    ensures Distinct(Replaced(s, name, value)) && AllGood(Replaced(s, name, value))
    ensures |Replaced(s, name, value)| == |s|
  {
    hide Same;
    var r := Replaced(s, name, value);
    if Same(name, s[0].name) {
      assert r[1..] == s[1..];
    } else {
      ReplacedIsWellFormed(s[1..], name, value);
      GetAfterReplaced(s[1..], name, value, s[0].name);
      assert r[1..] == Replaced(s[1..], name, value);
    }
  }

  lemma UpdatedIsWellFormed(s: Store, max: nat, name: text, value: text)
    requires WellFormed(s, max) && GoodEntry(Entry(name, value))
    requires Get(s, name).Some? || |s| < max
    ensures WellFormed(Updated(s, name, value), max)
  {
    hide Same;
    if Get(s, name).Some? {
      ReplacedIsWellFormed(s, name, value);
    } else {
      assert ([Entry(name, value)] + s)[1..] == s;
    }
  }

  lemma {:induction false} RunIsWellFormed(max: nat, ops: seq<Operation>)
    ensures WellFormed(Run([], max, ops), max)
  {
    hide GoodEntry, Printable;
    if ops != [] {
      RunIsWellFormed(max, ops[..|ops| - 1]);
      var s := Run([], max, ops[..|ops| - 1]);
      OperationKeepsWellFormed(s, max, ops[|ops| - 1]);
    }
  }

  lemma {:induction false} OperationKeepsWellFormed(s: Store, max: nat, op: Operation)
    requires WellFormed(s, max)
    ensures WellFormed(After(s, max, op), max)
  {
    hide Same, Removed, Updated;
    match op {
      case Set(name, value) =>
        if name != [] {
          RemovedIsWellFormed(s, name);
          if Acceptable(name, value) && Printable(value) != [] && (Get(s, name).Some? || |s| < max) {
            UpdatedIsWellFormed(s, max, name, Printable(value));
          }
        }
      case Drop(name) =>
        RemovedIsWellFormed(s, name);
      case DropAll =>
    }
  }

  // ---------- Get after set ----------

  lemma {:induction false} SameNameSameValue(s: Store, name: text, other: text)
    requires Same(name, other)
    ensures Get(s, name) == Get(s, other)
  {
    hide Folded;
    if s != [] {
      SameNameSameValue(s[1..], name, other);
    }
  }

  lemma {:induction false} GetAfterRemoved(s: Store, name: text, other: text)
    requires Distinct(s)
    ensures Get(Removed(s, name), other) == if Same(name, other) then None else Get(s, other)
  {
    hide Folded;
    if s != [] {
      if Same(name, s[0].name) {
        if Same(name, other) {
          SameNameSameValue(s[1..], s[0].name, other);
        }
      } else {
        GetAfterRemoved(s[1..], name, other);
        assert ([s[0]] + Removed(s[1..], name))[1..] == Removed(s[1..], name);
      }
    }
  }

  lemma {:induction false} GetAfterReplaced(s: Store, name: text, value: text, other: text)
    requires Get(s, name).Some?
    ensures Get(Replaced(s, name, value), other) == if Same(name, other) then Some(value) else Get(s, other)
  {
    hide Folded;
    assert ([Entry(s[0].name, value)] + s[1..])[1..] == s[1..];
    if !Same(name, s[0].name) {
      GetAfterReplaced(s[1..], name, value, other);
      assert ([s[0]] + Replaced(s[1..], name, value))[1..] == Replaced(s[1..], name, value);
    }
  }

  lemma {:induction false} GetAfterUpdated(s: Store, name: text, value: text, other: text)
    ensures Get(Updated(s, name, value), other) == if Same(name, other) then Some(value) else Get(s, other)
  {
    hide Folded;
    if Get(s, name).Some? {
      GetAfterReplaced(s, name, value, other);
    } else {
      assert ([Entry(name, value)] + s)[1..] == s;
    }
  }

  /** A set that succeeds gives the name the printable part of the value, whatever the case in which it is
      asked for, and touches no other name; a set that fails changes nothing. It fails for an illegal or
      overlong name or value, for a new name in a full store, and for the removal of a name that is not there. */
  lemma {:induction false} GetAfterSet(s: Store, max: nat, name: text, value: text, other: text)
    requires WellFormed(s, max)
    ensures var (after, ok) := SetStar(s, max, name, value);
            && Get(after, other) ==
                 (if ok && Same(name, other) then (if Printable(value) == [] then None else Some(Printable(value)))
                  else Get(s, other))
            && (!ok ==> after == s)
            && (ok <==> name != []
                        && if value == [] then Get(s, name).Some?
                           else Acceptable(name, value) && (Get(s, name).Some? || |s| < max))
  {
    hide Same;
    GetAfterRemoved(s, name, other);
    RemovedIsWellFormed(s, name);
    GetAfterUpdated(s, name, Printable(value), other);
  }

  /** Removing takes away that name and no other. */
  lemma {:induction false} GetAfterRemove(s: Store, name: text, other: text)
    requires Distinct(s) && name != []
    ensures Get(Remove(s, name).0, other) == if Same(name, other) then None else Get(s, other)
    ensures Remove(s, name).1 <==> Get(s, name).Some?
  {
    GetAfterRemoved(s, name, other);
  }
}
