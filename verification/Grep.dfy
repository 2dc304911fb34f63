/** grep.c's regular expression matcher (Kernighan & Pike, chapter 9): literals, `.`, `c*`, a leading
    `^` and a trailing `$`. Patterns and texts are C strings without their terminating NUL. */
module Grep {
  import opened Common

  type CString = s: seq<char> | NUL !in s witness []

  /** s[i] as C reads it: the terminator past the end. */
  function At(s: seq<char>, i: nat): (c: char) {
    if i < |s| then s[i] else NUL
  }

  // ---------------------------------------------------------------- the declarative language

  /** A pattern without its anchors is a sequence of items. */
  datatype Item = One(c: char) | Star(c: char)

  datatype Regex = Regex(items: seq<Item>, toEnd: bool)

  /** The pattern as matchhere reads it: a `*` after a character repeats it, a final `$` anchors. */
  function Read(re: CString): (r: Regex)
    decreases |re|
  {
    if re == [] then Regex([], false)
    else if |re| >= 2 && re[1] == '*' then
      var r := Read(re[2..]); r.(items := [Star(re[0])] + r.items)
    else if re == ['$'] then Regex([], true)
    else var r := Read(re[1..]); r.(items := [One(re[0])] + r.items)
  }

  predicate Fits(c: char, x: char) {
    c == '.' || c == x
  }

  /** The first k characters of s can be taken by a starred c. */
  predicate AllFit(c: char, s: seq<char>, k: nat)
    requires k <= |s|
  {
    forall j | 0 <= j < k :: Fits(c, s[j])
  }

  /** s is in the language of the items. */
  ghost predicate InLanguage(items: seq<Item>, s: seq<char>)
    decreases |items|
  {
    if items == [] then s == []
    else match items[0]
         case One(c) => s != [] && Fits(c, s[0]) && InLanguage(items[1..], s[1..])
         case Star(c) => exists k | 0 <= k <= |s| :: AllFit(c, s, k) && InLanguage(items[1..], s[k..])
  }

  /** Some prefix of text -- all of it, if the regex is anchored at the end -- is in the language. */
  ghost predicate MatchesPrefix(r: Regex, text: seq<char>) {
    exists n | 0 <= n <= |text| :: (r.toEnd ==> n == |text|) && InLanguage(r.items, text[..n])
  }

  /** What match promises: a substring in the language, anchored as `^` and `$` require. */
  ghost predicate Matches(re: CString, text: CString) {
    if At(re, 0) == '^' then MatchesPrefix(Read(re[1..]), text)
    else exists k | 0 <= k <= |text| :: MatchesPrefix(Read(re), text[k..])
  }

  // ---------------------------------------------------------------- the matcher

  /** matchhere and matchstar as functions of the remaining pattern and text. */
  predicate MatchHere(re: CString, text: CString)
    decreases |re|, |text|, 1
  {
    if At(re, 0) == NUL then true
    else if At(re, 1) == '*' then MatchStar(re[0], re[2..], text)
    else if re[0] == '$' && At(re, 1) == NUL then At(text, 0) == NUL
    else if At(text, 0) != NUL && Fits(re[0], text[0]) then MatchHere(re[1..], text[1..])
    else false
  }

  predicate MatchStar(c: char, re: CString, text: CString)
    decreases |re| + 1, |text|, 0
  {
    MatchHere(re, text) || (At(text, 0) != NUL && Fits(c, text[0]) && MatchStar(c, re, text[1..]))
  }

  /** match, with its loop over the starting positions. */
  method Match(re: CString, text: CString) returns (found: bool)
    ensures found <==> Matches(re, text)
  {
    if At(re, 0) == '^' {
      found := MatchHereImpl(re[1..], text);
      HereIsPrefix(re[1..], text);
      return;
    }
    var k := 0;
    while true
      invariant 0 <= k <= |text|
      invariant forall j | 0 <= j < k :: !MatchesPrefix(Read(re), text[j..])
      decreases |text| - k
    {
      HereIsPrefix(re, text[k..]);
      var here := MatchHereImpl(re, text[k..]);
      if here {
        return true;
      }
      if At(text, k) == NUL {
        assert k == |text|;
        return false;
      }
      k := k + 1;
    }
  }

  method MatchHereImpl(re: CString, text: CString) returns (r: bool)
    ensures r == MatchHere(re, text)
    decreases |re|, |text|, 1
  {
    if At(re, 0) == NUL { return true; }
    if At(re, 1) == '*' {
      r := MatchStarImpl(re[0], re[2..], text);
      return;
    }
    if re[0] == '$' && At(re, 1) == NUL { return At(text, 0) == NUL; }
    if At(text, 0) != NUL && (re[0] == '.' || re[0] == text[0]) {
      r := MatchHereImpl(re[1..], text[1..]);
      return;
    }
    return false;
  }

  /** matchstar, with its loop over how many characters the star takes. */
  method MatchStarImpl(c: char, re: CString, text: CString) returns (r: bool)
    ensures r == MatchStar(c, re, text)
    decreases |re| + 1, |text|, 0
  {
    var k := 0;
    while true
      invariant 0 <= k <= |text|
      invariant MatchStar(c, re, text) == MatchStar(c, re, text[k..])
      decreases |text| - k
    {
      var here := MatchHereImpl(re, text[k..]);
      if here { return true; }
      if !(At(text, k) != NUL && (text[k] == c || c == '.')) { return false; }
      assert text[k..][1..] == text[k + 1..];
      k := k + 1;
    }
  }

  // ---------------------------------------------------------------- correctness

  lemma {:induction false} HereIsPrefix(re: CString, text: CString)
    ensures MatchHere(re, text) <==> MatchesPrefix(Read(re), text)
    decreases |re|, |text|, 1
  {
    var r := Read(re);
    if re == [] {
      assert text[..0] == [] && InLanguage(r.items, text[..0]);
    } else if |re| >= 2 && re[1] == '*' {
      StarIsPrefix(re[0], re[2..], text);
    } else if re == ['$'] {
      assert InLanguage(r.items, text[..|text|]) <==> text == [];
    } else {
      OneIsPrefix(re, text);
    }
  }

  lemma OneIsPrefix(re: CString, text: CString)
    requires re != [] && !(|re| >= 2 && re[1] == '*') && re != ['$']
    ensures MatchHere(re, text) <==> MatchesPrefix(Read(re), text)
    decreases |re|, |text|, 0
  {
    var r, rest := Read(re), Read(re[1..]);
    assert r.items[1..] == rest.items;
    if text != [] && Fits(re[0], text[0]) {
      HereIsPrefix(re[1..], text[1..]);
      forall n | 0 <= n < |text| ensures InLanguage(r.items, text[..n + 1]) <==>
                                         InLanguage(rest.items, text[1..][..n]) {
        assert text[..n + 1][1..] == text[1..][..n];
      }
      if n :| 0 <= n <= |text[1..]| && (rest.toEnd ==> n == |text[1..]|) && InLanguage(rest.items, text[1..][..n]) {
        assert InLanguage(r.items, text[..n + 1]);
      }
      if n :| 0 <= n <= |text| && (r.toEnd ==> n == |text|) && InLanguage(r.items, text[..n]) {
        assert n > 0;
        assert InLanguage(rest.items, text[1..][..n - 1]);
      }
    } else {
      assert forall n | 0 <= n <= |text| :: !InLanguage(r.items, text[..n]);
    }
  }

  lemma {:induction false} StarIsPrefix(c: char, re: CString, text: CString)
    ensures MatchStar(c, re, text) <==> StarPrefix(c, Read(re), text)
    decreases |re| + 1, |text|, 0
  {
    HereIsPrefix(re, text);
    StarUnfold(c, Read(re), text);
    if text != [] && Fits(c, text[0]) { StarIsPrefix(c, re, text[1..]); }
  }

  ghost predicate StarPrefix(c: char, rest: Regex, text: seq<char>) {
    MatchesPrefix(Regex([Star(c)] + rest.items, rest.toEnd), text)
  }

  /** A star takes nothing, or one more character. */
  lemma StarUnfold(c: char, rest: Regex, text: seq<char>)
    ensures StarPrefix(c, rest, text) <==>
            MatchesPrefix(rest, text) || (text != [] && Fits(c, text[0]) && StarPrefix(c, rest, text[1..]))
  {
    hide InLanguage;
    var items := [Star(c)] + rest.items;
    if n :| 0 <= n <= |text| && (rest.toEnd ==> n == |text|) && InLanguage(items, text[..n]) {
      StarTakes(c, rest.items, text[..n]);
      if !InLanguage(rest.items, text[..n]) { assert text[..n][1..] == text[1..][..n - 1]; }
    }
    if n :| 0 <= n <= |text| && (rest.toEnd ==> n == |text|) && InLanguage(rest.items, text[..n]) {
      StarTakes(c, rest.items, text[..n]);
      assert InLanguage(items, text[..n]);
    }
    if text != [] && Fits(c, text[0]) {
      if n :| 0 <= n <= |text[1..]| && (rest.toEnd ==> n == |text[1..]|) && InLanguage(items, text[1..][..n]) {
        assert text[..n + 1][1..] == text[1..][..n];
        StarTakes(c, rest.items, text[..n + 1]);
        assert InLanguage(items, text[..n + 1]);
      }
    }
  }

  /** The same for the language. */
  lemma StarTakes(c: char, rest: seq<Item>, s: seq<char>)
    ensures InLanguage([Star(c)] + rest, s) <==>
            InLanguage(rest, s) || (s != [] && Fits(c, s[0]) && InLanguage([Star(c)] + rest, s[1..]))
  {
    var items := [Star(c)] + rest;
    assert items[1..] == rest && s[0..] == s;
    StarOpens(c, rest, s);
    if s != [] { StarOpens(c, rest, s[1..]); }
    hide InLanguage;
    if k :| 0 <= k <= |s| && AllFit(c, s, k) && InLanguage(rest, s[k..]) {
      if k > 0 {
        assert s[1..][k - 1..] == s[k..] && AllFit(c, s[1..], k - 1);
      }
    }
    if InLanguage(rest, s) { assert AllFit(c, s, 0) && InLanguage(rest, s[0..]); }
    if s != [] && Fits(c, s[0]) {
      if k :| 0 <= k <= |s[1..]| && AllFit(c, s[1..], k) && InLanguage(rest, s[1..][k..]) {
        assert forall j | 0 <= j < k :: s[j + 1] == s[1..][j];
        assert s[k + 1..] == s[1..][k..] && AllFit(c, s, k + 1);
      }
    }
  }

  lemma StarOpens(c: char, rest: seq<Item>, s: seq<char>)
    ensures InLanguage([Star(c)] + rest, s) <==> exists k | 0 <= k <= |s| :: AllFit(c, s, k) && InLanguage(rest, s[k..])
  {
    assert ([Star(c)] + rest)[1..] == rest;
  }
}
