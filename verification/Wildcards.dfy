/** The two wildcard matchers: wildcmp, which backtracks to the last star, and Q_glob_match, which recurses.
    A string is the characters before its terminating NUL. */
module Wildcards {

  /** Star stands for any sequence of characters, question mark for any one, anything else for itself. */
  ghost predicate Matches(wild: string, s: string)
    decreases |wild|
  {
    if wild == [] then s == []
    else if wild[0] == '*' then exists k :: 0 <= k <= |s| && Matches(wild[1..], s[k..])
    else s != [] && (wild[0] == '?' || wild[0] == s[0]) && Matches(wild[1..], s[1..])
  }

  // ---------- wildcmp ----------

  /** A stretch of pattern without stars, character by character. */
  predicate Fits(wild: string, s: string) {
    |wild| == |s| && forall i | 0 <= i < |wild| :: wild[i] != '*' && (wild[i] == '?' || wild[i] == s[i])
  }

  /** Some suffix from i on matches. */
  ghost predicate MatchesFrom(wild: string, s: string, i: nat) {
    exists k :: i <= k <= |s| && Matches(wild, s[k..])
  }

  lemma {:induction false} FitsThenMatches(first: string, rest: string, s: string)
    requires forall i | 0 <= i < |first| :: first[i] != '*'
    ensures Matches(first + rest, s) <==> |first| <= |s| && Fits(first, s[..|first|]) && Matches(rest, s[|first|..])
    decreases |first|
  {
    var n := |first|;
    if n == 0 {
      assert first + rest == rest && s[0..] == s;
    } else {
      assert (first + rest)[1..] == first[1..] + rest;
      if s != [] {
        FitsThenMatches(first[1..], rest, s[1..]);
        if n <= |s| {
          assert s[1..][n - 1..] == s[n..];
          assert s[..n][1..] == s[1..][..n - 1];
          assert Fits(first, s[..n]) <==> (first[0] == '?' || first[0] == s[0]) && Fits(first[1..], s[..n][1..]) by {
            assert forall i | 0 <= i < n - 1 :: first[1..][i] == first[i + 1] && s[..n][1..][i] == s[..n][i + 1];
            if (first[0] == '?' || first[0] == s[0]) && Fits(first[1..], s[..n][1..]) {
              forall i | 0 <= i < n ensures first[i] == '?' || first[i] == s[..n][i] {
                assert i > 0 ==> first[i] == first[1..][i - 1];
              }
            }
          }
        }
      }
    }
  }

  /** Since the last star, wild[mp..w] has been matched with s[c..i]. */
  predicate Trying(wild: string, s: string, mp: nat, w: nat, c: nat, i: nat) {
    mp <= w <= |wild| && c <= i <= |s| && w - mp == i - c && Fits(wild[mp..w], s[c..i])
  }

  /** What was matched since the last star need not be undone when the next star is met. */
  lemma NextStar(wild: string, s: string, mp: nat, w: nat, c: nat, i: nat)
    requires Trying(wild, s, mp, w, c, i) && w < |wild| && wild[w] == '*'
    ensures MatchesFrom(wild[mp..], s, c) <==> MatchesFrom(wild[w + 1..], s, i)
  {
    var first, rest := wild[mp..w], wild[w..];
    assert wild[mp..] == first + rest && rest[1..] == wild[w + 1..];
    if MatchesFrom(wild[mp..], s, c) {
      var k :| c <= k <= |s| && Matches(wild[mp..], s[k..]);
      LaterStar(first, rest, s, c, k);
    }
    if MatchesFrom(wild[w + 1..], s, i) {
      FirstStar(wild, s, w, i);
      FitsThenMatches(first, rest, s[c..]);
      assert s[c..][|first|..] == s[i..] && s[c..][..|first|] == s[c..i];
    }
  }

  lemma LaterStar(first: string, rest: string, s: string, c: nat, k: nat)
    requires forall j | 0 <= j < |first| :: first[j] != '*'
    requires rest != [] && rest[0] == '*' && c <= k <= |s| && Matches(first + rest, s[k..])
    ensures c + |first| <= |s| && MatchesFrom(rest[1..], s, c + |first|)
  {
    FitsThenMatches(first, rest, s[k..]);
    var t := s[k..][|first|..];
    var j :| 0 <= j <= |t| && Matches(rest[1..], t[j..]);
    assert t[j..] == s[k + |first| + j..];
  }

  /** A mismatch since the last star rules out only the position tried. */
  lemma Mismatch(wild: string, s: string, mp: nat, w: nat, c: nat, i: nat)
    requires Trying(wild, s, mp, w, c, i) && i < |s|
    requires w < |wild| ==> wild[w] != '*' && wild[w] != '?' && wild[w] != s[i]
    ensures MatchesFrom(wild[mp..], s, c) <==> MatchesFrom(wild[mp..], s, c + 1)
  {
    var first, rest := wild[mp..w], wild[w..];
    assert wild[mp..] == first + rest;
    FitsThenMatches(first, rest, s[c..]);
    assert s[c..][|first|..] == s[i..];
    assert !Matches(rest, s[i..]);
  }

  /** With the string used up, only the position tried can match, and only if stars are left. */
  lemma UsedUp(wild: string, s: string, mp: nat, w: nat, c: nat)
    requires Trying(wild, s, mp, w, c, |s|)
    ensures MatchesFrom(wild[mp..], s, c) <==> Matches(wild[w..], [])
  {
    var first, rest := wild[mp..w], wild[w..];
    assert wild[mp..] == first + rest && s[c..|s|] == s[c..];
    forall k | c <= k <= |s| ensures Matches(wild[mp..], s[k..]) <==> k == c && Matches(rest, []) {
      FitsThenMatches(first, rest, s[k..]);
      if k == c {
        assert s[k..][|first|..] == [] && s[k..][..|first|] == s[c..];
      }
    }
  }

  lemma {:induction false} OnlyStarsMatchNothing(wild: string)
    ensures Matches(wild, []) <==> forall i | 0 <= i < |wild| :: wild[i] == '*'
    decreases |wild|
  {
    if wild != [] {
      OnlyStarsMatchNothing(wild[1..]);
      var empty: string := [];
      assert empty[0..] == empty;
      assert forall i | 0 < i < |wild| :: wild[i] == wild[1..][i - 1];
    }
  }

  /** Before any star the two are compared character by character. */
  lemma PlainStep(wild: string, s: string, w: nat, i: nat)
    requires w <= |wild| && i < |s| && (w < |wild| ==> wild[w] != '*')
    ensures Matches(wild[w..], s[i..]) <==>
              w < |wild| && (wild[w] == '?' || wild[w] == s[i]) && Matches(wild[w + 1..], s[i + 1..])
  {
    if w < |wild| {
      assert wild[w..][1..] == wild[w + 1..] && s[i..][1..] == s[i + 1..];
    }
  }

  lemma FinalStar(s: string, i: nat)
    requires i <= |s|
    ensures MatchesFrom([], s, i)
  {
    assert Matches([], s[|s|..]);
  }

  lemma FitsNothing(wild: string, s: string, mp: nat, i: nat)
    requires mp <= |wild| && i <= |s|
    ensures Trying(wild, s, mp, mp, i, i)
  {
  }

  /** wildcmp: w and i index the two strings, mp is where the pattern goes on after the last star,
      and cp - 1 is the position in s being tried for it. */
  method Wildcmp(wild: string, s: string) returns (matched: bool)
    ensures matched == Matches(wild, s)
  {
    hide Matches, MatchesFrom, Trying;
    var w, i := 0, 0;
    assert wild[0..] == wild && s[0..] == s;
    while i < |s| && (w == |wild| || wild[w] != '*')
      invariant w == i <= |s| && w <= |wild|
      invariant Matches(wild[w..], s[i..]) == Matches(wild, s)
    {
      PlainStep(wild, s, w, i);
      if w == |wild| || (wild[w] != s[i] && wild[w] != '?') {
        return false;
      }
      w, i := w + 1, i + 1;
    }
    var mp, cp := 0, 0;
    ghost var starred := false;
    while i < |s|
      invariant i <= |s|
      invariant !starred ==> w <= |wild| && Matches(wild[w..], s[i..]) == Matches(wild, s)
      invariant !starred ==> i == |s| || (w < |wild| && wild[w] == '*')
      invariant starred ==> mp <= w <= |wild| && 1 <= cp <= i + 1 && w - mp == i - (cp - 1)
      invariant starred ==> Trying(wild, s, mp, w, cp - 1, i)
      invariant starred ==> (MatchesFrom(wild[mp..], s, cp - 1) <==> Matches(wild, s))
      decreases if starred then |s| - (cp - 1) else |s| + 1, |wild| - w
    {
      if w < |wild| && wild[w] == '*' {
        if starred {
          NextStar(wild, s, mp, w, cp - 1, i);
        } else {
          FirstStar(wild, s, w, i);
        }
        w := w + 1;
        if w == |wild| {
          FinalStar(s, i);
          assert wild[w..] == [];
          return true;
        }
        mp, cp, starred := w, i + 1, true;
        FitsNothing(wild, s, mp, i);
      } else if w < |wild| && (wild[w] == s[i] || wild[w] == '?') {
        FitsMore(wild, s, mp, w, cp - 1, i);
        w, i := w + 1, i + 1;
      } else {
        Mismatch(wild, s, mp, w, cp - 1, i);
        w, i, cp := mp, cp, cp + 1;
        FitsNothing(wild, s, mp, i);
      }
    }
    if starred {
      UsedUp(wild, s, mp, w, cp - 1);
    } else {
      assert s[i..] == [];
    }
    matched := OnlyStarsLeft(wild, w);
  }

  /** The last loop of wildcmp. */
  method OnlyStarsLeft(wild: string, start: nat) returns (matched: bool)
    requires start <= |wild|
    ensures matched == Matches(wild[start..], [])
  {
    hide Matches;
    OnlyStarsMatchNothing(wild[start..]);
    var w := start;
    while w < |wild| && wild[w] == '*'
      invariant start <= w <= |wild|
      invariant forall k | start <= k < w :: wild[k] == '*'
    {
      w := w + 1;
    }
    matched := w == |wild|;
    assert !matched ==> wild[start..][w - start] != '*';
  }

  lemma FirstStar(wild: string, s: string, w: nat, i: nat)
    requires w < |wild| && i <= |s| && wild[w] == '*'
    ensures Matches(wild[w..], s[i..]) <==> MatchesFrom(wild[w + 1..], s, i)
  {
    assert wild[w..][1..] == wild[w + 1..];
    assert forall k | 0 <= k <= |s| - i :: s[i..][k..] == s[i + k..];
    if MatchesFrom(wild[w + 1..], s, i) {
      var k :| i <= k <= |s| && Matches(wild[w + 1..], s[k..]);
      assert s[i..][k - i..] == s[k..];
    }
  }

  lemma FitsMore(wild: string, s: string, mp: nat, w: nat, c: nat, i: nat)
    requires Trying(wild, s, mp, w, c, i) && w < |wild| && i < |s|
    requires wild[w] != '*' && (wild[w] == '?' || wild[w] == s[i])
    ensures Trying(wild, s, mp, w + 1, c, i + 1)
  {
    assert wild[mp..w + 1] == wild[mp..w] + [wild[w]] && s[c..i + 1] == s[c..i] + [s[i]];
  }

  // ---------- Q_glob_match ----------

  function ToLower(c: char): char {
    if 'A' <= c <= 'Z' then c + 32 as char else c
  }

  /** The relation that Q_glob_match documents: a backslash makes the next character stand for itself, and a character
      that stands for itself must be matched exactly. */
  ghost predicate ExactlyMatches(p: string, t: string)
    decreases |p|
  {
    if p == [] then t == []
    else if p[0] == '*' then exists k :: 0 <= k <= |t| && ExactlyMatches(p[1..], t[k..])
    else if p[0] == '?' then t != [] && ExactlyMatches(p[1..], t[1..])
    else if p[0] == '\\' && |p| > 1 then t != [] && p[1] == t[0] && ExactlyMatches(p[2..], t[1..])
    else t != [] && p[0] == t[0] && ExactlyMatches(p[1..], t[1..])
  }

  /** The same relation without regard to case, which is nearer to what the code decides. */
  ghost predicate FoldedMatches(p: string, t: string)
    decreases |p|, 0
  {
    if p == [] then t == []
    else if p[0] == '*' then FoldedMatchesAfterStar(p[1..], t)
    else if p[0] == '?' then t != [] && FoldedMatches(p[1..], t[1..])
    else if p[0] == '\\' && |p| > 1 then t != [] && ToLower(p[1]) == ToLower(t[0]) && FoldedMatches(p[2..], t[1..])
    else t != [] && ToLower(p[0]) == ToLower(t[0]) && FoldedMatches(p[1..], t[1..])
  }

  ghost predicate FoldedMatchesAfterStar(p: string, t: string)
    decreases |p|, 1
  {
    exists k :: 0 <= k <= |t| && FoldedMatches(p, t[k..])
  }

  /** No backslash ends the pattern with nothing to escape. (The source would read past the end.) */
  predicate NoDanglingEscape(p: string)
    decreases |p|
  {
    if p == [] then true
    else if p[0] == '\\' then |p| > 1 && NoDanglingEscape(p[2..])
    else NoDanglingEscape(p[1..])
  }

  /** The first character a pattern stands for literally after its leading stars and question marks, if any. */
  predicate LowerHead(p: string)
    decreases |p|
  {
    if p == [] then true
    else if p[0] == '*' || p[0] == '?' then LowerHead(p[1..])
    else if p[0] == '\\' && |p| > 1 then ToLower(p[1]) == p[1]
    else ToLower(p[0]) == p[0]
  }

  /** Every literal that follows a star, with only stars and question marks between, is lower case. */
  predicate LowerAfterStars(p: string)
    decreases |p|
  {
    if p == [] then true
    else if p[0] == '*' then LowerHead(p[1..]) && LowerAfterStars(p[1..])
    else if p[0] == '\\' && |p| > 1 then LowerAfterStars(p[2..])
    else LowerAfterStars(p[1..])
  }

  lemma StarThenAny(p: string, t: string)
    requires p != [] && p[0] == '?'
    ensures FoldedMatchesAfterStar(p, t) <==> t != [] && FoldedMatchesAfterStar(p[1..], t[1..])
  {
    if FoldedMatchesAfterStar(p, t) {
      var k :| 0 <= k <= |t| && FoldedMatches(p, t[k..]);
      assert t[k..][1..] == t[1..][k..];
    }
    if t != [] && FoldedMatchesAfterStar(p[1..], t[1..]) {
      var k :| 0 <= k <= |t[1..]| && FoldedMatches(p[1..], t[1..][k..]);
      assert t[k..][1..] == t[1..][k..];
    }
  }

  lemma StarThenStar(p: string, t: string)
    requires p != [] && p[0] == '*'
    ensures FoldedMatchesAfterStar(p, t) <==> FoldedMatchesAfterStar(p[1..], t)
  {
    if FoldedMatchesAfterStar(p, t) {
      var k :| 0 <= k <= |t| && FoldedMatches(p, t[k..]);
      assert FoldedMatchesAfterStar(p[1..], t[k..]);
      var j :| 0 <= j <= |t[k..]| && FoldedMatches(p[1..], t[k..][j..]);
      assert t[k..][j..] == t[k + j..];
    }
    if FoldedMatchesAfterStar(p[1..], t) {
      assert t[0..] == t;
      assert FoldedMatches(p, t[0..]);
    }
  }

  lemma StarThenNothing(t: string)
    ensures FoldedMatchesAfterStar([], t)
  {
    assert FoldedMatches([], t[|t|..]);
  }

  lemma AfterStarHereOrLater(p: string, t: string)
    ensures FoldedMatchesAfterStar(p, t) <==> FoldedMatches(p, t) || (t != [] && FoldedMatchesAfterStar(p, t[1..]))
  {
    assert t[0..] == t;
    assert forall k | 1 <= k <= |t| :: t[1..][k - 1..] == t[k..];
    if FoldedMatchesAfterStar(p, t) {
      var k :| 0 <= k <= |t| && FoldedMatches(p, t[k..]);
      if k > 0 {
        assert FoldedMatches(p, t[1..][k - 1..]);
      }
    }
    if t != [] && FoldedMatchesAfterStar(p, t[1..]) {
      var k :| 0 <= k <= |t[1..]| && FoldedMatches(p, t[1..][k..]);
      assert t[1..][k..] == t[k + 1..];
    }
  }

  /** The literal that begins a pattern. */
  function Literal(p: string): char
    requires p != [] && NoDanglingEscape(p)
  {
    if p[0] == '\\' then p[1] else p[0]
  }

  lemma LiteralHead(p: string, t: string)
    requires p != [] && p[0] != '*' && p[0] != '?' && NoDanglingEscape(p)
    ensures LowerHead(p) <==> ToLower(Literal(p)) == Literal(p)
    ensures FoldedMatches(p, t) ==> t != [] && ToLower(t[0]) == ToLower(Literal(p))
  {
  }

  lemma ToLowerIsLower(c: char)
    ensures ToLower(ToLower(c)) == ToLower(c)
  {
  }

  /** What a pattern that follows a star is, in terms of the pattern after its first star or question mark. */
  lemma RunStep(p: string)
    requires p != [] && (p[0] == '*' || p[0] == '?') && NoDanglingEscape(p)
    ensures NoDanglingEscape(p[1..]) && LowerHead(p) == LowerHead(p[1..])
    ensures LowerHead(p) ==> LowerAfterStars(p) == LowerAfterStars(p[1..])
  {
  }

  /** Q_glob_match_after_star. The literal after the stars is compared, as it is, with the folded text. */
  method GlobMatchAfterStar(pattern: string, text: string) returns (matched: bool)
    requires NoDanglingEscape(pattern)
    ensures matched == (LowerHead(pattern) && LowerAfterStars(pattern) && FoldedMatchesAfterStar(pattern, text))
    decreases |pattern|, 1
  {
    hide FoldedMatches, FoldedMatchesAfterStar, LowerAfterStars, LowerHead, ToLower;
    var p, t := 0, 0;
    assert pattern[0..] == pattern && text[0..] == text;
    while p < |pattern| && (pattern[p] == '?' || pattern[p] == '*')
      invariant p <= |pattern| && t <= |text|
      invariant NoDanglingEscape(pattern[p..]) && LowerHead(pattern) == LowerHead(pattern[p..])
      invariant LowerHead(pattern) ==> LowerAfterStars(pattern) == LowerAfterStars(pattern[p..])
      invariant FoldedMatchesAfterStar(pattern, text) == FoldedMatchesAfterStar(pattern[p..], text[t..])
    {
      RunStep(pattern[p..]);
      assert pattern[p..][1..] == pattern[p + 1..];
      if pattern[p] == '?' {
        StarThenAny(pattern[p..], text[t..]);
        if t == |text| {
          return false;
        }
        assert text[t..][1..] == text[t + 1..];
        t := t + 1;
      } else {
        StarThenStar(pattern[p..], text[t..]);
      }
      p := p + 1;
    }
    var rest := pattern[p..];
    if p == |pattern| {
      StarThenNothing(text[t..]);
      NothingIsLower();
      return true;
    }
    var c1 := if pattern[p] == '\\' then pattern[p + 1] else pattern[p];
    assert c1 == Literal(rest);
    while true
      invariant t <= |text|
      invariant LowerHead(pattern) && LowerAfterStars(pattern) ==>
                  FoldedMatchesAfterStar(pattern, text) == FoldedMatchesAfterStar(rest, text[t..])
      decreases |text| - t
    {
      LiteralHead(rest, text[t..]);
      AfterStarHereOrLater(rest, text[t..]);
      if t < |text| && ToLower(text[t]) == c1 {
        ToLowerIsLower(text[t]);
        var here := GlobMatch(rest, text[t..]);
        if here {
          return true;
        }
      }
      if t == |text| {
        return false;
      }
      assert text[t..][1..] == text[t + 1..];
      t := t + 1;
    }
    assert false;
  }

  lemma NothingIsLower()
    ensures LowerHead([]) && LowerAfterStars([])
  {
  }

  /** Q_glob_match: the folded relation, except that a pattern with an upper case literal
      after a star matches nothing. */
  method GlobMatch(pattern: string, text: string) returns (matched: bool)
    requires NoDanglingEscape(pattern)
    ensures matched == (LowerAfterStars(pattern) && FoldedMatches(pattern, text))
    decreases |pattern|, 0
  {
    hide FoldedMatchesAfterStar, LowerHead, ToLower;
    var p, t := 0, 0;
    assert pattern[0..] == pattern && text[0..] == text;
    while p < |pattern|
      invariant p <= |pattern| && t <= |text|
      invariant NoDanglingEscape(pattern[p..])
      invariant (LowerAfterStars(pattern) && FoldedMatches(pattern, text)) ==
                (LowerAfterStars(pattern[p..]) && FoldedMatches(pattern[p..], text[t..]))
    {
      assert pattern[p..][1..] == pattern[p + 1..];
      assert t < |text| ==> text[t..][1..] == text[t + 1..];
      if pattern[p] == '*' {
        matched := GlobMatchAfterStar(pattern[p + 1..], text[t..]);
        return;
      } else if pattern[p] == '?' {
        if t == |text| {
          return false;
        }
        p, t := p + 1, t + 1;
      } else if pattern[p] == '\\' {
        if t == |text| || ToLower(pattern[p + 1]) != ToLower(text[t]) {
          return false;
        }
        assert pattern[p..][2..] == pattern[p + 2..];
        p, t := p + 2, t + 1;
      } else {
        if t == |text| || ToLower(pattern[p]) != ToLower(text[t]) {
          return false;
        }
        p, t := p + 1, t + 1;
      }
    }
    matched := t == |text|;
  }

  /** A text that a pattern matches. */
  function Sample(p: string): string
    decreases |p|
  {
    if p == [] then []
    else if p[0] == '*' then Sample(p[1..])
    else if p[0] == '?' then "x" + Sample(p[1..])
    else if p[0] == '\\' && |p| > 1 then [p[1]] + Sample(p[2..])
    else [p[0]] + Sample(p[1..])
  }

  predicate SameFolded(s: string, t: string) {
    |s| == |t| && forall i | 0 <= i < |s| :: ToLower(s[i]) == ToLower(t[i])
  }

  lemma {:induction false} SampleMatches(p: string, t: string)
    requires SameFolded(t, Sample(p))
    ensures FoldedMatches(p, t)
    decreases |p|
  {
    if p != [] {
      if p[0] == '*' {
        SampleMatches(p[1..], t);
        AfterStarHereOrLater(p[1..], t);
      } else if p[0] == '\\' && |p| > 1 {
        assert t[0] == t[0] && Sample(p)[1..] == Sample(p[2..]);
        SampleMatches(p[2..], t[1..]);
      } else {
        assert t[0] == t[0] && Sample(p)[1..] == Sample(p[1..]);
        SampleMatches(p[1..], t[1..]);
      }
    }
  }

  lemma {:induction false} SampleMatchesExactly(p: string)
    ensures ExactlyMatches(p, Sample(p))
    decreases |p|
  {
    if p != [] {
      if p[0] == '*' {
        SampleMatchesExactly(p[1..]);
        assert Sample(p)[0..] == Sample(p[1..]);
      } else if p[0] == '\\' && |p| > 1 {
        SampleMatchesExactly(p[2..]);
        assert Sample(p)[1..] == Sample(p[2..]);
      } else {
        SampleMatchesExactly(p[1..]);
        assert Sample(p)[1..] == Sample(p[1..]);
      }
    }
  }

  /** Q_glob_match decides the folded relation for every text exactly for the patterns
      in which no upper case literal follows a star. */
  lemma GlobMatchFoldsExactlyWhen(p: string)
    ensures LowerAfterStars(p) <==>
            forall t: string :: (LowerAfterStars(p) && FoldedMatches(p, t)) == FoldedMatches(p, t)
  {
    SampleMatches(p, Sample(p));
    if !LowerAfterStars(p) {
      var t := Sample(p);
      assert (LowerAfterStars(p) && FoldedMatches(p, t)) != FoldedMatches(p, t);
    }
  }

  // ---------- when Q_glob_match does what it documents ----------

  predicate IsLetter(c: char) {
    'a' <= c <= 'z' || 'A' <= c <= 'Z'
  }

  function ToUpper(c: char): char {
    if 'a' <= c <= 'z' then c - 32 as char else c
  }

  /** The characters of a pattern that stand for themselves. */
  function Literals(p: string): set<char>
    decreases |p|
  {
    if p == [] then {}
    else if p[0] == '*' || p[0] == '?' then Literals(p[1..])
    else if p[0] == '\\' && |p| > 1 then {p[1]} + Literals(p[2..])
    else {p[0]} + Literals(p[1..])
  }

  predicate NoLetters(p: string) {
    forall c | c in Literals(p) :: !IsLetter(c)
  }

  lemma {:induction false} ExactNeedsLiterals(p: string, t: string)
    requires ExactlyMatches(p, t)
    ensures forall c | c in Literals(p) :: c in t
    decreases |p|
  {
    if p != [] {
      if p[0] == '*' {
        var k :| 0 <= k <= |t| && ExactlyMatches(p[1..], t[k..]);
        ExactNeedsLiterals(p[1..], t[k..]);
      } else if p[0] == '\\' && |p| > 1 {
        ExactNeedsLiterals(p[2..], t[1..]);
      } else {
        ExactNeedsLiterals(p[1..], t[1..]);
      }
    }
  }

  lemma {:induction false} WithoutLetters(p: string)
    requires NoLetters(p)
    ensures LowerHead(p) && LowerAfterStars(p)
    decreases |p|
  {
    if p != [] {
      if p[0] == '\\' && |p| > 1 {
        assert p[1] in Literals(p);
        WithoutLetters(p[2..]);
      } else {
        assert p[0] in Literals(p) || p[0] == '*' || p[0] == '?';
        WithoutLetters(p[1..]);
      }
    }
  }

  lemma {:induction false} FoldingChangesNothing(p: string, t: string)
    requires NoLetters(p)
    ensures FoldedMatches(p, t) <==> ExactlyMatches(p, t)
    decreases |p|
  {
    if p != [] {
      if p[0] == '*' {
        forall k | 0 <= k <= |t| ensures FoldedMatches(p[1..], t[k..]) <==> ExactlyMatches(p[1..], t[k..]) {
          FoldingChangesNothing(p[1..], t[k..]);
        }
      } else if t != [] {
        if p[0] == '\\' && |p| > 1 {
          assert p[1] in Literals(p);
          FoldingChangesNothing(p[2..], t[1..]);
        } else {
          assert p[0] in Literals(p) || p[0] == '?';
          FoldingChangesNothing(p[1..], t[1..]);
        }
      }
    }
  }

  /** With a letter in the pattern, the sample in the other case is matched only when case is ignored. */
  lemma LetterIsFolded(p: string) returns (t: string)
    requires !NoLetters(p)
    ensures FoldedMatches(p, t) && !ExactlyMatches(p, t)
  {
    var c :| c in Literals(p) && IsLetter(c);
    var s := Sample(p);
    t := if 'a' <= c <= 'z' then seq(|s|, i requires 0 <= i < |s| => ToUpper(s[i]))
         else seq(|s|, i requires 0 <= i < |s| => ToLower(s[i]));
    assert c !in t;
    SampleMatches(p, t);
    if ExactlyMatches(p, t) {
      ExactNeedsLiterals(p, t);
    }
  }

  /** Q_glob_match decides the relation that it documents for every text exactly for the patterns
      in which no letter stands for itself. */
  lemma GlobMatchIsRightExactlyWhen(p: string)
    requires NoDanglingEscape(p)
    ensures NoLetters(p) <==>
            forall t: string :: (LowerAfterStars(p) && FoldedMatches(p, t)) == ExactlyMatches(p, t)
  {
    if NoLetters(p) {
      WithoutLetters(p);
      forall t: string ensures FoldedMatches(p, t) == ExactlyMatches(p, t) {
        FoldingChangesNothing(p, t);
      }
    } else if LowerAfterStars(p) {
      var t := LetterIsFolded(p);
      assert (LowerAfterStars(p) && FoldedMatches(p, t)) != ExactlyMatches(p, t);
    } else {
      SampleMatchesExactly(p);
      var t := Sample(p);
      assert (LowerAfterStars(p) && FoldedMatches(p, t)) != ExactlyMatches(p, t);
    }
  }

  /** The failing cases: a small letter matches a capital, and a capital after a star does not match itself. */
  method GlobMatchCanFail() returns (folded: bool, missed: bool)
    ensures folded && !ExactlyMatches("a", "A")
    ensures !missed && ExactlyMatches("*A", "A")
  {
    folded := GlobMatch("a", "A");
    missed := GlobMatch("*A", "A");
    assert FoldedMatches("", "") && ExactlyMatches("", "");
    assert "A"[0..] == "A" && ExactlyMatches("A", "A"[0..]);
  }

  predicate IsLower(s: string) {
    forall i | 0 <= i < |s| :: ToLower(s[i]) == s[i]
  }

  predicate NoEscape(p: string) {
    forall i | 0 <= i < |p| :: p[i] != '\\'
  }

  lemma {:induction false} LowerPatterns(p: string)
    requires IsLower(p) && NoEscape(p)
    ensures LowerHead(p) && LowerAfterStars(p) && NoDanglingEscape(p)
    decreases |p|
  {
    if p != [] {
      LowerPatterns(p[1..]);
    }
  }

  /** For lower case, and without backslashes, the two matchers decide the same relation. */
  lemma {:induction false} GlobAgreesWithWildcmp(p: string, t: string)
    requires IsLower(p) && IsLower(t) && NoEscape(p)
    ensures FoldedMatches(p, t) <==> Matches(p, t)
    decreases |p|
  {
    if p != [] {
      if p[0] == '*' {
        forall k | 0 <= k <= |t| ensures FoldedMatches(p[1..], t[k..]) <==> Matches(p[1..], t[k..]) {
          GlobAgreesWithWildcmp(p[1..], t[k..]);
        }
      } else if t != [] {
        GlobAgreesWithWildcmp(p[1..], t[1..]);
      }
    }
  }

  method BothMatchersAgree(p: string, t: string) returns (wild: bool, glob: bool)
    requires IsLower(p) && IsLower(t) && NoEscape(p)
    ensures wild == glob
  {
    LowerPatterns(p);
    wild := Wildcmp(p, t);
    glob := GlobMatch(p, t);
    GlobAgreesWithWildcmp(p, t);
  }
}
