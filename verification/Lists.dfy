/** Filtering, reversing, paging, mapping and joining of sequences. */
module Lists {
  import opened Basics

  function Keep<T>(s: seq<T>, p: T -> bool): seq<T> {
    if s == [] then [] else (if p(s[0]) then [s[0]] else []) + Keep(s[1..], p)
  }

  function Reverse<T>(s: seq<T>): seq<T> {
    if s == [] then [] else Reverse(s[1..]) + [s[0]]
  }

  function Page<T>(s: seq<T>, limit: Option<nat>, offset: nat): seq<T> {
    var rest := if offset <= |s| then s[offset..] else [];
    if limit.Some? && limit.value <= |rest| then rest[..limit.value] else rest
  }

  function Map<A, B>(s: seq<A>, f: A -> B): (r: seq<B>)
    ensures |r| == |s|
  {
    if s == [] then [] else [f(s[0])] + Map(s[1..], f)
  }

  lemma {:induction false} KeepSame<T>(s: seq<T>, p: T -> bool, r: T -> bool)
    requires forall x :: x in s ==> p(x) == r(x)
    ensures Keep(s, p) == Keep(s, r)
  {
    if s != [] { KeepSame(s[1..], p, r); }
  }

  lemma {:induction false} KeepIn<T>(s: seq<T>, p: T -> bool, x: T)
    ensures x in Keep(s, p) <==> x in s && p(x)
  {
    if s != [] {
      KeepIn(s[1..], p, x);
      assert x in s <==> x == s[0] || x in s[1..];
    }
  }

  lemma {:induction false} KeepAppend<T>(a: seq<T>, b: seq<T>, p: T -> bool)
    ensures Keep(a + b, p) == Keep(a, p) + Keep(b, p)
  {
    if a == [] {
      assert a + b == b;
    } else {
      assert (a + b)[1..] == a[1..] + b;
      KeepAppend(a[1..], b, p);
      Associate(if p(a[0]) then [a[0]] else [], Keep(a[1..], p), Keep(b, p));
    }
  }

  lemma KeepSnoc<T>(a: seq<T>, x: T, p: T -> bool)
    ensures Keep(a + [x], p) == Keep(a, p) + if p(x) then [x] else []
  {
    KeepAppend(a, [x], p);
    assert [x][1..] == [];
  }

  lemma {:induction false} KeepAll<T>(s: seq<T>, p: T -> bool)
    requires forall x :: x in s ==> p(x)
    ensures Keep(s, p) == s
  {
    if s != [] { KeepAll(s[1..], p); }
  }

  lemma {:induction false} KeepNone<T>(s: seq<T>, p: T -> bool)
    requires forall x :: x in s ==> !p(x)
    ensures Keep(s, p) == []
  {
    if s != [] { KeepNone(s[1..], p); }
  }

  lemma {:induction false} KeepKeep<T>(s: seq<T>, p: T -> bool, q: T -> bool, both: T -> bool)
    requires forall x :: x in s ==> both(x) == (p(x) && q(x))
    ensures Keep(Keep(s, p), q) == Keep(s, both)
  {
    if s != [] {
      KeepKeep(s[1..], p, q, both);
      if p(s[0]) {
        assert Keep(s, p)[1..] == Keep(s[1..], p);
      } else {
        assert Keep(s, p) == Keep(s[1..], p);
      }
    }
  }

  /** Members of either of two kinds that exclude each other. */
  lemma {:induction false} KeepEither<T>(s: seq<T>, p: T -> bool, q: T -> bool, either: T -> bool)
    requires forall x :: x in s ==> !(p(x) && q(x)) && (either(x) <==> p(x) || q(x))
    ensures |Keep(s, either)| == |Keep(s, p)| + |Keep(s, q)|
  {
    if s != [] {
      KeepEither(s[1..], p, q, either);
    }
  }

  lemma {:induction false} MapAt<A, B>(s: seq<A>, f: A -> B, i: nat)
    requires i < |s|
    ensures Map(s, f)[i] == f(s[i])
  {
    if i > 0 { MapAt(s[1..], f, i - 1); }
  }

  lemma {:induction false} MapAppend<A, B>(a: seq<A>, b: seq<A>, f: A -> B)
    ensures Map(a + b, f) == Map(a, f) + Map(b, f)
  {
    if a == [] {
      assert a + b == b;
    } else {
      assert (a + b)[1..] == a[1..] + b;
      MapAppend(a[1..], b, f);
    }
  }

  lemma MapSnoc<A, B>(a: seq<A>, x: A, f: A -> B)
    ensures Map(a + [x], f) == Map(a, f) + [f(x)]
  {
    MapAppend(a, [x], f);
    assert [x][1..] == [];
  }

  lemma {:induction false} MapMap<A, B, C>(s: seq<A>, f: A -> B, g: B -> C, h: A -> C)
    requires forall x :: x in s ==> h(x) == g(f(x))
    ensures Map(Map(s, f), g) == Map(s, h)
  {
    if s != [] {
      MapMap(s[1..], f, g, h);
      assert Map(s, f)[1..] == Map(s[1..], f);
    }
  }

  lemma {:induction false} KeepOfMap<A, B>(s: seq<A>, f: A -> B, p: B -> bool, q: A -> bool)
    requires forall x :: x in s ==> q(x) == p(f(x))
    ensures Keep(Map(s, f), p) == Map(Keep(s, q), f)
  {
    if s != [] {
      KeepOfMap(s[1..], f, p, q);
      assert Map(s, f)[1..] == Map(s[1..], f);
      if q(s[0]) {
        assert Keep(s, q)[1..] == Keep(s[1..], q);
      } else {
        assert Keep(s, q) == Keep(s[1..], q);
      }
    }
  }

  lemma {:induction false} ReverseOfMap<A, B>(s: seq<A>, f: A -> B)
    ensures Reverse(Map(s, f)) == Map(Reverse(s), f)
  {
    if s != [] {
      ReverseOfMap(s[1..], f);
      assert Map(s, f)[1..] == Map(s[1..], f);
      MapSnoc(Reverse(s[1..]), s[0], f);
    }
  }

  lemma PageOfMap<A, B>(s: seq<A>, f: A -> B, limit: Option<nat>, offset: nat)
    ensures Page(Map(s, f), limit, offset) == Map(Page(s, limit, offset), f)
  {
    var page := Page(s, limit, offset);
    forall i | 0 <= i < |page|
      ensures Page(Map(s, f), limit, offset)[i] == Map(page, f)[i]
    {
      MapAt(page, f, i);
      MapAt(s, f, offset + i);
    }
  }

  /** Reversing is by position. */
  lemma {:induction false} ReverseAt<T>(s: seq<T>, i: nat)
    requires i < |s|
    ensures |Reverse(s)| == |s| && Reverse(s)[i] == s[|s| - 1 - i]
  {
    ReverseLength(s[1..]);
    if i < |s| - 1 {
      ReverseAt(s[1..], i);
    }
  }

  lemma {:induction false} ReverseLength<T>(s: seq<T>)
    ensures |Reverse(s)| == |s|
  {
    if s != [] { ReverseLength(s[1..]); }
  }

  // ---- joining, by position ----

  /** `part` stands in `whole` at `at`. */
  predicate StandsAt<T(==)>(whole: seq<T>, at: nat, part: seq<T>) {
    at + |part| <= |whole| && whole[at..at + |part|] == part
  }

  /** `whole` is the parts one behind the other: the i-th begins at `at[i]`, where the one before it ends. */
  ghost predicate Concatenates<T>(parts: seq<seq<T>>, whole: seq<T>, at: seq<nat>) {
    && |at| == |parts|
    && (forall i :: 0 <= i < |parts| ==> StandsAt(whole, at[i], parts[i]))
    && (forall i, j :: 0 <= i && j == i + 1 < |parts| ==> at[j] == at[i] + |parts[i]|)
    && (if parts == [] then whole == [] else at[0] == 0 && at[|at| - 1] + |parts[|parts| - 1]| == |whole|)
  }

  lemma StandsLater<T>(head: seq<T>, whole: seq<T>, at: nat, part: seq<T>)
    requires StandsAt(whole, at, part)
    ensures StandsAt(head + whole, |head| + at, part)
  {
    assert (head + whole)[|head| + at..|head| + at + |part|] == whole[at..at + |part|];
  }

  /** Positions behind something put in front. */
  function Shifted(at: seq<nat>, n: nat): (r: seq<nat>)
    ensures |r| == |at| && forall i :: 0 <= i < |at| ==> r[i] == n + at[i]
  {
    seq(|at|, i requires 0 <= i < |at| => n + at[i])
  }

  lemma StandNext<T>(part: seq<T>, parts: seq<seq<T>>, whole: seq<T>, at: seq<nat>)
    requires Concatenates(parts, whole, at)
    ensures var all, next := [part] + parts, [0] + Shifted(at, |part|);
            forall i :: 0 <= i < |all| ==> StandsAt(part + whole, next[i], all[i])
  {
    var all, next := [part] + parts, [0] + Shifted(at, |part|);
    forall i | 0 <= i < |all|
      ensures StandsAt(part + whole, next[i], all[i])
    {
      if i > 0 { StandsLater(part, whole, at[i - 1], parts[i - 1]); }
    }
  }

  lemma AdjoinNext<T>(part: seq<T>, parts: seq<seq<T>>, whole: seq<T>, at: seq<nat>, i: nat)
    requires Concatenates(parts, whole, at) && i < |parts|
    ensures var all, next := [part] + parts, [0] + Shifted(at, |part|); next[i + 1] == next[i] + |all[i]|
  {
    if i > 0 { assert at[i] == at[i - 1] + |parts[i - 1]|; }
  }

  /** One more part in front. */
  lemma ConcatenatesNext<T>(part: seq<T>, parts: seq<seq<T>>, whole: seq<T>, at: seq<nat>)
    requires Concatenates(parts, whole, at)
    ensures Concatenates([part] + parts, part + whole, [0] + Shifted(at, |part|))
  {
    var all, next := [part] + parts, [0] + Shifted(at, |part|);
    StandNext(part, parts, whole, at);
    forall i, j | 0 <= i && j == i + 1 < |all|
      ensures next[j] == next[i] + |all[i]|
    {
      AdjoinNext(part, parts, whole, at, i);
    }
  }
}
