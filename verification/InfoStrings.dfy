/** The info store as one string: a backslash before every name and every value. */
module InfoStrings {
  import opened InfoStore
  import opened Options

  // ---------- To a string ----------

  function Pair(e: Entry): text {
    [BACKSLASH] + e.name + [BACKSLASH] + e.value
  }

  function Joined(s: Store): text {
    if s == [] then []
    else (if s[0].value == [] then [] else Pair(s[0])) + Joined(s[1..])
  }

  // ---------- From a string ----------

  /** strchr for a backslash; the length of the string if there is none. */
  function NextSlash(t: text): (i: nat)
    ensures i <= |t|
    ensures i < |t| ==> t[i] == BACKSLASH
    ensures BACKSLASH !in t[..i]
  {
    if t == [] || t[0] == BACKSLASH then 0
    else
      assert t[..1 + NextSlash(t[1..])] == [t[0]] + t[1..][..NextSlash(t[1..])];
      1 + NextSlash(t[1..])
  }

  /** strlcpy into a buffer of MAX_KEY_STRING bytes. */
  function Cut(t: text): text {
    if |t| < MAX_KEY_STRING then t else t[..MAX_KEY_STRING - 1]
  }

  datatype Piece = Piece(name: text, value: text, rest: text)

  /** The first pair of a string and what follows it; nothing if there are not two backslashes. */
  function Split(t: text): (r: Option<Piece>)
    ensures r.Some? ==> |r.value.rest| < |t|
  {
    var i := NextSlash(t);
    if i == |t| then None
    else
      var name := t[i + 1..];
      var j := NextSlash(name);
      if j == |name| then None
      else
        var value := name[j + 1..];
        var k := NextSlash(value);
        Some(Piece(name[..j], value[..k], value[k..]))
  }

  /** Info_Convert: every pair in turn is set. */
  function Converted(s: Store, max: nat, t: text): Store
    decreases |t|
  {
    var p := Split(t);
    if p.None? then s
    else Converted(SetStar(s, max, Cut(p.value.name), Cut(p.value.value)).0, max, p.value.rest)
  }

  // ---------- There and back ----------

  function Reversed(s: Store): Store {
    if s == [] then [] else Reversed(s[1..]) + [s[0]]
  }

  lemma {:induction false} NextSlashIs(t: text, rest: text)
    requires BACKSLASH !in t && (rest != [] ==> rest[0] == BACKSLASH)
    ensures NextSlash(t + rest) == |t|
  {
    if t == [] {
      assert t + rest == rest;
    } else {
      NextSlashIs(t[1..], rest);
      assert (t + rest)[1..] == t[1..] + rest;
      assert t[0] in t;
    }
  }

  lemma {:induction false} JoinedOpensWithSlash(s: Store)
    ensures Joined(s) != [] ==> Joined(s)[0] == BACKSLASH
  {
    if s != [] {
      JoinedOpensWithSlash(s[1..]);
    }
  }

  lemma SplitsIntoName(name: text, rest: text)
    requires BACKSLASH !in name && (rest != [] ==> rest[0] == BACKSLASH)
    ensures NextSlash(name + rest) == |name| && (name + rest)[..|name|] == name && (name + rest)[|name|..] == rest
  {
    NextSlashIs(name, rest);
  }

  lemma SplitOfPair(e: Entry, rest: text)
    requires BACKSLASH !in e.name && BACKSLASH !in e.value && (rest != [] ==> rest[0] == BACKSLASH)
    ensures Split(Pair(e) + rest) == Some(Piece(e.name, e.value, rest))
  {
    PairParts(e, rest);
    hide NextSlash, Pair;
    var value := e.value + rest;
    var name := e.name + ([BACKSLASH] + value);
    SplitsIntoName(e.name, [BACKSLASH] + value);
    AfterSlash(e.name, value);
    SplitsIntoName(e.value, rest);
  }

  lemma PairParts(e: Entry, rest: text)
    ensures var t := Pair(e) + rest;
            t != [] && NextSlash(t) == 0 && t[1..] == e.name + ([BACKSLASH] + (e.value + rest))
  {
    var t := Pair(e) + rest;
    assert t[0] == BACKSLASH;
  }

  lemma AfterSlash(name: text, value: text)
    ensures var t := name + ([BACKSLASH] + value);
            |name| < |t| && t[|name| + 1..] == value
  {
  }

  /** Reading one pair sets its name to its value and leaves the rest of the string. */
  lemma PairIsRead(s: Store, max: nat, e: Entry, rest: text)
    requires GoodEntry(e) && (rest != [] ==> rest[0] == BACKSLASH)
    ensures Converted(s, max, Pair(e) + rest) == Converted(SetStar(s, max, e.name, e.value).0, max, rest)
  {
    hide SetStar, Split, Pair;
    SplitOfPair(e, rest);
  }

  /** A good entry under a new name goes in front unchanged. */
  lemma NewEntryGoesInFront(s: Store, max: nat, e: Entry)
    requires GoodEntry(e) && Get(s, e.name).None? && |s| < max
    ensures SetStar(s, max, e.name, e.value) == ([e] + s, true)
  {
    PrintableKeepsAll(e.value);
  }

  /** No name of the one store is a name of the other. */
  predicate Apart(s: Store, t: Store) {
    s == [] || (Get(t, s[0].name).None? && Apart(s[1..], t))
  }

  lemma {:induction false} ApartFromMore(s: Store, e: Entry, t: Store)
    requires Apart(s, t) && Get(s, e.name).None?
    ensures Apart(s, [e] + t)
  {
    hide Folded;
    if s != [] {
      ApartFromMore(s[1..], e, t);
      assert ([e] + t)[1..] == t;
    }
  }

  lemma {:induction false} ConvertedOnTop(s: Store, t: Store, max: nat)
    requires AllGood(s) && Distinct(s) && Apart(s, t) && |s| + |t| <= max
    ensures Converted(t, max, Joined(s)) == Reversed(s) + t
  {
    hide Get, GoodEntry, Converted, Joined;
    if s == [] {
      assert Reversed(s) + t == t;
      NothingIsConverted(t, max);
    } else {
      FirstIsConverted(s, t, max);
      ApartFromMore(s[1..], s[0], t);
      ConvertedOnTop(s[1..], [s[0]] + t, max);
      assert Reversed(s[1..]) + ([s[0]] + t) == Reversed(s[1..]) + [s[0]] + t;
    }
  }

  lemma NothingIsConverted(t: Store, max: nat)
    ensures Converted(t, max, Joined([])) == t
  {
  }

  lemma FirstIsConverted(s: Store, t: Store, max: nat)
    requires s != [] && GoodEntry(s[0]) && Get(t, s[0].name).None? && |t| < max
    ensures Converted(t, max, Joined(s)) == Converted([s[0]] + t, max, Joined(s[1..]))
  {
    hide Get, SetStar, Converted, Pair;
    JoinedOpensWithSlash(s[1..]);
    GoodHasValue(s[0]);
    PairIsRead(t, max, s[0], Joined(s[1..]));
    NewEntryGoesInFront(t, max, s[0]);
  }

  lemma GoodHasValue(e: Entry)
    requires GoodEntry(e)
    ensures e.value != []
  {
  }

  lemma {:induction false} ApartFromNothing(s: Store)
    ensures Apart(s, [])
  {
    if s != [] {
      ApartFromNothing(s[1..]);
    }
  }

  lemma {:induction false} GetOfConcat(s: Store, t: Store, name: text)
    ensures Get(s + t, name) == if Get(s, name).Some? then Get(s, name) else Get(t, name)
  {
    hide Same;
    if s == [] {
      assert s + t == t;
    } else {
      GetOfConcat(s[1..], t, name);
      assert (s + t)[1..] == s[1..] + t;
    }
  }

  lemma {:induction false} GetOfReversed(s: Store, name: text)
    requires Distinct(s)
    ensures Get(Reversed(s), name) == Get(s, name)
  {
    if s != [] {
      GetOfReversed(s[1..], name);
      GetOfConcat(Reversed(s[1..]), [s[0]], name);
      if Same(name, s[0].name) {
        SameNameSameValue(s[1..], name, s[0].name);
      }
    }
  }

  /** A store that became one string and is read back into an empty store with room for it holds the
      same value under every name; only the order is the other way round. */
  lemma RoundTrip(s: Store, max: nat, name: text)
    requires WellFormed(s, max)
    ensures Converted([], max, Joined(s)) == Reversed(s)
    ensures Get(Converted([], max, Joined(s)), name) == Get(s, name)
  {
    ApartFromNothing(s);
    ConvertedOnTop(s, [], max);
    assert Reversed(s) + [] == Reversed(s);
    GetOfReversed(s, name);
  }
}
