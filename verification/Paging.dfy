/**
 * A listing by the ranks of its members: which of the selected come out, and in
 * which order (`List` in internal/store/query.go), without saying how.
 */
module Paging {
  import opened Basics
  import opened Lists

  /** Smaller ids first, or greater ids first. */
  predicate Precedes(a: int, b: int, ascending: bool) {
    if ascending then a < b else a > b
  }

  ghost predicate InOrder<T>(s: seq<T>, id: T -> int, ascending: bool) {
    forall i, j :: 0 <= i < j < |s| ==> Precedes(id(s[i]), id(s[j]), ascending)
  }

  /** The selected that come before `x`. */
  ghost function Ahead<T>(all: seq<T>, id: T -> int, picks: T -> bool, ascending: bool, x: T): set<T> {
    set y | y in all && picks(y) && Precedes(id(y), id(x), ascending)
  }

  /** Whether the entry with `rank` others before it is on the page. */
  predicate OnPage(rank: nat, limit: int, offset: int) {
    offset <= rank && (limit > 0 ==> rank < (if offset > 0 then offset else 0) + limit)
  }

  /** Selected, and with the right number of others before it. */
  ghost predicate Belongs<T>(all: seq<T>, id: T -> int, picks: T -> bool, ascending: bool, limit: int, offset: int,
                             x: T)
  {
    x in all && picks(x) && OnPage(|Ahead(all, id, picks, ascending, x)|, limit, offset)
  }

  /** The selected on the page, no others, in order of their ids. */
  ghost predicate IsListing<T(!new)>(all: seq<T>, id: T -> int, picks: T -> bool, ascending: bool, limit: int,
                                     offset: int, out: seq<T>)
  {
    && InOrder(out, id, ascending)
    && (forall x :: x in out <==> Belongs(all, id, picks, ascending, limit, offset, x))
  }

  lemma {:induction false} KeepInOrder<T>(s: seq<T>, id: T -> int, picks: T -> bool)
    requires InOrder(s, id, true)
    ensures InOrder(Keep(s, picks), id, true)
  {
    if s != [] {
      KeepInOrder(s[1..], id, picks);
      var rest := Keep(s[1..], picks);
      forall j | 0 <= j < |rest|
        ensures id(s[0]) < id(rest[j])
      {
        KeepIn(s[1..], picks, rest[j]);
        var i :| 0 <= i < |s[1..]| && s[1..][i] == rest[j];
        assert Precedes(id(s[0]), id(s[i + 1]), true);
      }
    }
  }

  lemma ReverseInOrder<T>(s: seq<T>, id: T -> int)
    requires InOrder(s, id, true)
    ensures InOrder(Reverse(s), id, false)
  {
    ReverseLength(s);
    forall i, j | 0 <= i < j < |Reverse(s)|
      ensures Precedes(id(Reverse(s)[i]), id(Reverse(s)[j]), false)
    {
      ReverseAt(s, i);
      ReverseAt(s, j);
      assert Precedes(id(s[|s| - 1 - j]), id(s[|s| - 1 - i]), true);
    }
  }

  lemma {:induction false} ReverseHas<T>(s: seq<T>, x: T)
    ensures x in Reverse(s) <==> x in s
  {
    if s != [] { ReverseHas(s[1..], x); }
  }

  ghost function Members<T>(s: seq<T>): set<T> {
    set x | x in s
  }

  lemma MembersSnoc<T>(s: seq<T>, x: T)
    requires x !in s
    ensures |Members(s + [x])| == |Members(s)| + 1
  {
    assert Members(s + [x]) == Members(s) + {x};
  }

  lemma LastIsNew<T>(s: seq<T>, x: T, id: T -> int, ascending: bool)
    requires InOrder(s + [x], id, ascending)
    ensures x !in s && InOrder(s, id, ascending)
  {
    var all := s + [x];
    forall i, j | 0 <= i < j < |all|
      ensures all[i] != all[j] && Precedes(id(all[i]), id(all[j]), ascending)
    {
    }
    assert all[|s|] == x && forall i :: 0 <= i < |s| ==> all[i] == s[i];
  }

  /** Members in order are different, so there are as many as the list is long. */
  lemma {:induction false} MemberCount<T>(s: seq<T>, id: T -> int, ascending: bool)
    requires InOrder(s, id, ascending)
    ensures |Members(s)| == |s|
  {
    if s == [] {
      assert Members(s) == {};
    } else {
      var init, x := s[..|s| - 1], s[|s| - 1];
      assert s == init + [x];
      LastIsNew(init, x, id, ascending);
      MemberCount(init, id, ascending);
      MembersSnoc(init, x);
    }
  }

  lemma PrefixCount<T>(s: seq<T>, id: T -> int, ascending: bool, n: nat)
    requires InOrder(s, id, ascending) && n <= |s|
    ensures |Members(s[..n])| == n
  {
    var prefix := s[..n];
    forall i, j | 0 <= i < j < |prefix|
      ensures Precedes(id(prefix[i]), id(prefix[j]), ascending)
    {
      assert prefix[i] == s[i] && prefix[j] == s[j];
    }
    MemberCount(prefix, id, ascending);
  }

  /** The rank of a member is its position. */
  lemma RankIsPosition<T(!new)>(all: seq<T>, id: T -> int, picks: T -> bool, ascending: bool, s: seq<T>, i: nat)
    requires InOrder(s, id, ascending) && i < |s|
    requires forall x :: x in s <==> x in all && picks(x)
    ensures |Ahead(all, id, picks, ascending, s[i])| == i
  {
    PrefixCount(s, id, ascending, i);
    assert Ahead(all, id, picks, ascending, s[i]) == Members(s[..i]) by {
      forall y
        ensures y in Ahead(all, id, picks, ascending, s[i]) <==> y in Members(s[..i])
      {
        PositionAhead(all, id, picks, ascending, s, i, y);
      }
    }
  }

  lemma ComesBefore<T>(s: seq<T>, id: T -> int, ascending: bool, i: nat, j: nat)
    requires InOrder(s, id, ascending) && i < |s| && j < |s| && Precedes(id(s[j]), id(s[i]), ascending)
    ensures j < i
  {
  }

  lemma PositionAhead<T(!new)>(all: seq<T>, id: T -> int, picks: T -> bool, ascending: bool, s: seq<T>, i: nat, y: T)
    requires InOrder(s, id, ascending) && i < |s|
    requires forall x :: x in s <==> x in all && picks(x)
    ensures y in Ahead(all, id, picks, ascending, s[i]) <==> y in s[..i]
  {
    if y in s[..i] {
      var j :| 0 <= j < i && s[..i][j] == y;
      assert Precedes(id(s[j]), id(s[i]), ascending);
    }
    if y in Ahead(all, id, picks, ascending, s[i]) {
      var j :| 0 <= j < |s| && s[j] == y;
      ComesBefore(s, id, ascending, i, j);
      assert s[..i][j] == y;
    }
  }

  /** The page of a query. */
  function Cut<T>(s: seq<T>, limit: int, offset: int): seq<T> {
    Page(s, if limit > 0 then Some(limit) else None, if offset > 0 then offset else 0)
  }

  /** By position. */
  lemma CutAt<T>(s: seq<T>, limit: int, offset: int, k: nat)
    requires k < |Cut(s, limit, offset)|
    ensures var i := k + if offset > 0 then offset else 0;
            i < |s| && Cut(s, limit, offset)[k] == s[i] && OnPage(i, limit, offset)
  {
  }

  lemma CutHas<T>(s: seq<T>, limit: int, offset: int, i: nat)
    requires i < |s| && OnPage(i, limit, offset)
    ensures s[i] in Cut(s, limit, offset)
  {
    var out := Cut(s, limit, offset);
    assert out[i - if offset > 0 then offset else 0] == s[i];
  }

  lemma PageInOrder<T>(s: seq<T>, id: T -> int, ascending: bool, limit: Option<nat>, offset: nat)
    requires InOrder(s, id, ascending)
    ensures InOrder(Page(s, limit, offset), id, ascending)
  {
    var out := Page(s, limit, offset);
    forall i, j | 0 <= i < j < |out|
      ensures Precedes(id(out[i]), id(out[j]), ascending)
    {
      assert out[i] == s[offset + i] && out[j] == s[offset + j];
    }
  }

  lemma CutBelongs<T(!new)>(all: seq<T>, id: T -> int, picks: T -> bool, ascending: bool, limit: int, offset: int,
                            s: seq<T>, x: T)
    requires InOrder(s, id, ascending) && forall y :: y in s <==> y in all && picks(y)
    ensures x in Cut(s, limit, offset) <==> Belongs(all, id, picks, ascending, limit, offset, x)
  {
    var out := Cut(s, limit, offset);
    if x in out {
      var k :| 0 <= k < |out| && out[k] == x;
      CutAt(s, limit, offset, k);
      RankIsPosition(all, id, picks, ascending, s, k + if offset > 0 then offset else 0);
    } else if x in s {
      var i :| 0 <= i < |s| && s[i] == x;
      RankIsPosition(all, id, picks, ascending, s, i);
      if OnPage(i, limit, offset) { CutHas(s, limit, offset, i); }
    }
  }

  /** A page of members in order. */
  lemma CutIsListing<T(!new)>(all: seq<T>, id: T -> int, picks: T -> bool, ascending: bool, limit: int, offset: int,
                              s: seq<T>)
    requires InOrder(s, id, ascending) && forall x :: x in s <==> x in all && picks(x)
    ensures IsListing(all, id, picks, ascending, limit, offset, Cut(s, limit, offset))
  {
    PageInOrder(s, id, ascending, if limit > 0 then Some(limit) else None, if offset > 0 then offset else 0);
    forall x
      ensures x in Cut(s, limit, offset) <==> Belongs(all, id, picks, ascending, limit, offset, x)
    {
      CutBelongs(all, id, picks, ascending, limit, offset, s, x);
    }
  }

  /** What the selected in id order, or turned round, and then cut to a page, amount to. */
  lemma PagedIsListing<T(!new)>(all: seq<T>, id: T -> int, picks: T -> bool, ascending: bool, limit: int, offset: int)
    requires InOrder(all, id, true)
    ensures var kept := Keep(all, picks);
            IsListing(all, id, picks, ascending, limit, offset,
                      Cut(if ascending then kept else Reverse(kept), limit, offset))
  {
    var kept := Keep(all, picks);
    KeepInOrder(all, id, picks);
    ReverseInOrder(kept, id);
    forall x
      ensures x in kept <==> x in all && picks(x)
      ensures x in Reverse(kept) <==> x in kept
    {
      KeepIn(all, picks, x);
      ReverseHas(kept, x);
    }
    CutIsListing(all, id, picks, ascending, limit, offset, if ascending then kept else Reverse(kept));
  }

  /** Without limit and offset everything selected is listed. */
  lemma WholeListing<T(!new)>(all: seq<T>, id: T -> int, picks: T -> bool, ascending: bool, limit: int, offset: int,
                              out: seq<T>)
    requires IsListing(all, id, picks, ascending, limit, offset, out) && limit <= 0 && offset <= 0
    ensures forall x :: x in out <==> x in all && picks(x)
  {
    forall x
      ensures x in out <==> x in all && picks(x)
    {
      assert x in out <==> Belongs(all, id, picks, ascending, limit, offset, x);
    }
  }

  lemma FirstPrecedes<T>(s: seq<T>, id: T -> int, ascending: bool, x: T)
    requires InOrder(s, id, ascending) && x in s
    ensures x == s[0] || Precedes(id(s[0]), id(x), ascending)
  {
    var i :| 0 <= i < |s| && s[i] == x;
    assert i > 0 ==> Precedes(id(s[0]), id(s[i]), ascending);
  }

  /** Order and membership leave only one listing. */
  lemma {:induction false} OneListing<T(!new)>(a: seq<T>, b: seq<T>, id: T -> int, ascending: bool)
    requires InOrder(a, id, ascending) && InOrder(b, id, ascending) && forall x :: x in a <==> x in b
    ensures a == b
  {
    if b != [] { assert b[0] in a; }
    if a != [] {
      assert a[0] in b && b[0] in a;
      FirstPrecedes(a, id, ascending, b[0]);
      FirstPrecedes(b, id, ascending, a[0]);
      forall x
        ensures x in a[1..] <==> x in b[1..]
      {
        TailWithoutHead(a, id, ascending, x);
        TailWithoutHead(b, id, ascending, x);
      }
      OneListing(a[1..], b[1..], id, ascending);
    }
  }

  lemma TailWithoutHead<T>(s: seq<T>, id: T -> int, ascending: bool, x: T)
    requires InOrder(s, id, ascending) && s != []
    ensures x in s[1..] <==> x in s && x != s[0]
  {
    if x in s[1..] {
      var i :| 0 <= i < |s[1..]| && s[1..][i] == x;
      assert Precedes(id(s[0]), id(s[i + 1]), ascending);
    }
  }
}
