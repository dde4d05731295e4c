/** `globToLike` (internal/store/query.go) and what LIKE makes of its patterns. */
module Glob {

  /** Which characters LIKE takes for equal: equality, or SQLite's ASCII case folding. */
  type Equiv = (char, char) -> bool

  /** A glob in which only '*' is special: it matches any run of characters. */
  predicate Matches(g: string, s: string, eq: Equiv)
    decreases |g| + |s|
  {
    if g == [] then s == []
    else if g[0] == '*' then Matches(g[1..], s, eq) || (s != [] && Matches(g, s[1..], eq))
    else s != [] && eq(g[0], s[0]) && Matches(g[1..], s[1..], eq)
  }

  /** Every escape is followed by the character it escapes. */
  predicate WellFormed(p: string) {
    p == [] || (if p[0] == '\\' then |p| >= 2 && WellFormed(p[2..]) else WellFormed(p[1..]))
  }

  /** SQL's LIKE with ESCAPE '\': '%' is any run, '_' any one character, '\' makes the next one literal. */
  predicate Like(p: string, s: string, eq: Equiv)
    decreases |p| + |s|
  {
    if p == [] then s == []
    else if p[0] == '\\' then |p| >= 2 && s != [] && eq(p[1], s[0]) && Like(p[2..], s[1..], eq)
    else if p[0] == '%' then Like(p[1..], s, eq) || (s != [] && Like(p, s[1..], eq))
    else if p[0] == '_' then s != [] && Like(p[1..], s[1..], eq)
    else s != [] && eq(p[0], s[0]) && Like(p[1..], s[1..], eq)
  }

  function LikeChar(c: char): string {
    if c == '*' then "%" else if c == '%' || c == '_' || c == '\\' then ['\\', c] else [c]
  }

  function LikePattern(g: string): string {
    if g == [] then [] else LikeChar(g[0]) + LikePattern(g[1..])
  }

  lemma {:induction false} LikePatternAppend(a: string, b: string)
    ensures LikePattern(a + b) == LikePattern(a) + LikePattern(b)
  {
    if a == [] {
      assert a + b == b;
    } else {
      assert (a + b)[1..] == a[1..] + b;
      LikePatternAppend(a[1..], b);
    }
  }

  method GlobToLike(glob: string) returns (b: string)
    ensures b == LikePattern(glob)
  {
    b := "";
    for i := 0 to |glob|
      invariant b == LikePattern(glob[..i])
    {
      var r := glob[i];
      assert glob[..i + 1] == glob[..i] + [r];
      LikePatternAppend(glob[..i], [r]);
      assert LikePattern([r]) == LikeChar(r) + LikePattern([]) == LikeChar(r);
      if r == '*' {
        b := b + "%";
      } else if r == '%' || r == '_' || r == '\\' {
        b := b + ['\\', r];
      } else {
        b := b + [r];
      }
    }
    assert glob[..|glob|] == glob;
  }

  /** The pattern is always well formed, and LIKE reads it as the glob, whatever the character equivalence. */
  lemma {:induction false} LikeMeansGlob(g: string, s: string, eq: Equiv)
    ensures Like(LikePattern(g), s, eq) == Matches(g, s, eq)
    decreases |g| + |s|
  {
    if g != [] {
      var p, rest := LikePattern(g), LikePattern(g[1..]);
      if g[0] == '*' {
        assert p[1..] == rest;
        LikeMeansGlob(g[1..], s, eq);
        if s != [] { LikeMeansGlob(g, s[1..], eq); }
      } else {
        if |LikeChar(g[0])| == 2 { assert p[2..] == rest; } else { assert p[1..] == rest; }
        if s != [] { LikeMeansGlob(g[1..], s[1..], eq); }
      }
    }
  }

  lemma {:induction false} PatternIsWellFormed(g: string)
    ensures WellFormed(LikePattern(g))
  {
    if g != [] {
      PatternIsWellFormed(g[1..]);
      var p, rest := LikePattern(g), LikePattern(g[1..]);
      if |LikeChar(g[0])| == 2 { assert p[2..] == rest; } else { assert p[1..] == rest; }
    }
  }

  /** Where there is no '*', every character stands for itself. */
  lemma {:induction false} LiteralMatches(g: string, s: string, eq: Equiv)
    requires '*' !in g
    ensures Matches(g, s, eq) <==> |g| == |s| && forall i :: 0 <= i < |g| ==> eq(g[i], s[i])
    decreases |g|
  {
    if g != [] && s != [] {
      LiteralMatches(g[1..], s[1..], eq);
      assert forall i :: 0 < i < |g| ==> g[i] == g[1..][i - 1];
      assert forall i :: 0 < i < |s| ==> s[i] == s[1..][i - 1];
      assert (forall i :: 0 <= i < |g[1..]| ==> |g| == |s| ==> eq(g[1..][i], s[1..][i]))
             ==> forall i :: 0 < i < |g| ==> |g| == |s| ==> eq(g[i], s[i]);
    }
  }

  /** '*' matches exactly any run of characters: the two halves of the glob match what is left on either side. */
  lemma {:induction false} StarIsAnyRun(a: string, b: string, s: string, eq: Equiv)
    ensures Matches(a + "*" + b, s, eq)
            <==> exists i, j :: 0 <= i <= j <= |s| && Matches(a, s[..i], eq) && Matches(b, s[j..], eq)
    decreases |a|, |s|
  {
    if Matches(a + "*" + b, s, eq) {
      var i, j := StarSplits(a, b, s, eq);
    }
    forall i, j | 0 <= i <= j <= |s| && Matches(a, s[..i], eq) && Matches(b, s[j..], eq)
      ensures Matches(a + "*" + b, s, eq)
    {
      StarJoins(a, b, s, i, j, eq);
    }
  }

  lemma {:induction false} StarSplits(a: string, b: string, s: string, eq: Equiv) returns (i: nat, j: nat)
    requires Matches(a + "*" + b, s, eq)
    ensures i <= j <= |s| && Matches(a, s[..i], eq) && Matches(b, s[j..], eq)
    decreases |a| + |s|
  {
    var g := a + "*" + b;
    if a == [] {
      assert g[1..] == b;
      i := 0;
      if Matches(b, s, eq) {
        j := 0;
        assert s[0..] == s;
      } else {
        var i', j' := StarSplits(a, b, s[1..], eq);
        j := j' + 1;
        assert s[1..][j'..] == s[j..];
      }
    } else {
      assert g[1..] == a[1..] + "*" + b;
      if a[0] == '*' && Matches(g[1..], s, eq) {
        i, j := StarSplits(a[1..], b, s, eq);
      } else if a[0] == '*' {
        i, j := StarSplits(a, b, s[1..], eq);
        assert s[..i + 1][1..] == s[1..][..i] && s[1..][j..] == s[j + 1..];
        i, j := i + 1, j + 1;
      } else {
        i, j := StarSplits(a[1..], b, s[1..], eq);
        assert s[..i + 1][1..] == s[1..][..i] && s[1..][j..] == s[j + 1..];
        i, j := i + 1, j + 1;
      }
    }
  }

  lemma {:induction false} StarJoins(a: string, b: string, s: string, i: nat, j: nat, eq: Equiv)
    requires i <= j <= |s| && Matches(a, s[..i], eq) && Matches(b, s[j..], eq)
    ensures Matches(a + "*" + b, s, eq)
    decreases |a| + |s|
  {
    var g := a + "*" + b;
    if a == [] {
      assert g[1..] == b;
      if j == 0 {
        assert s[0..] == s;
      } else {
        assert s[1..][j - 1..] == s[j..];
        StarJoins(a, b, s[1..], 0, j - 1, eq);
      }
    } else {
      assert g[1..] == a[1..] + "*" + b;
      if a[0] == '*' && Matches(a[1..], s[..i], eq) {
        StarJoins(a[1..], b, s, i, j, eq);
      } else {
        assert s[..i][1..] == s[1..][..i - 1] && s[1..][j - 1..] == s[j..];
        if a[0] == '*' {
          StarJoins(a, b, s[1..], i - 1, j - 1, eq);
        } else {
          StarJoins(a[1..], b, s[1..], i - 1, j - 1, eq);
        }
      }
    }
  }
}
