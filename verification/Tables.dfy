/**
 * SQL tables as unordered sets of rows (internal/store/schema.go): the ordered
 * child lists of an entry as rows with `entry_id`, `kind` and `seq` columns.
 * Tables without a `kind` column have Only there, tables without `seq` have 0.
 */
module Tables {

  datatype Kind = OfRequest | OfResponse | Before | After | Only

  datatype Child<T> = Child(rowid: nat, entryId: int, kind: Kind, seqNo: nat, val: T)

  /** `next` is the autoincrement counter of the table's own primary key. */
  datatype Table<T(==)> = Table(rows: set<Child<T>>, next: nat)

  function Rows<T(==)>(t: Table<T>, id: int, kind: Kind): set<Child<T>> {
    set r | r in t.rows && r.entryId == id && r.kind == kind
  }

  /** The autoincrement counter is above every primary key in use. */
  ghost predicate Keyed<T>(t: Table<T>) {
    forall r :: r in t.rows ==> r.rowid < t.next
  }

  ghost predicate HasSeq<T>(rows: set<Child<T>>, i: nat) {
    exists r :: r in rows && r.seqNo == i
  }

  /** `seq` numbers the rows from 0 without gap or repetition, and row i carries vals[i]. */
  ghost predicate Numbered<T>(rows: set<Child<T>>, vals: seq<T>) {
    && (forall r :: r in rows ==> r.seqNo < |vals| && r.val == vals[r.seqNo])
    && (forall i :: 0 <= i < |vals| ==> HasSeq(rows, i))
    && (forall r, q :: r in rows && q in rows && r.seqNo == q.seqNo ==> r == q)
  }

  ghost predicate Holds<T>(t: Table<T>, id: int, kind: Kind, vals: seq<T>) {
    Numbered(Rows(t, id, kind), vals)
  }

  /** No row of `t` belongs to an entry outside `ids`. */
  ghost predicate NoOrphans<T>(t: Table<T>, ids: set<int>) {
    forall r :: r in t.rows ==> r.entryId in ids
  }

  // ---- reading: SELECT ... WHERE entry_id = ? AND kind = ? ORDER BY seq ----

  ghost predicate IsCursor<T>(out: seq<Child<T>>, rows: set<Child<T>>) {
    && (forall r :: r in out ==> r in rows)
    && (forall r :: r in rows ==> r in out)
    && (forall i, j :: 0 <= i < j < |out| ==> out[i] != out[j])
    && (forall i, j :: 0 <= i < j < |out| ==> out[i].seqNo <= out[j].seqNo)
  }

  function Vals<T(==)>(out: seq<Child<T>>): seq<T> {
    seq(|out|, i requires 0 <= i < |out| => out[i].val)
  }

  method SelectRows<T(==)>(t: Table<T>, id: int, kind: Kind) returns (out: seq<Child<T>>)
    ensures IsCursor(out, Rows(t, id, kind))
  {
    var left := Rows(t, id, kind);
    out := [];
    while left != {}
      invariant forall r :: r in out ==> r in Rows(t, id, kind)
      invariant forall r :: r in left ==> r in Rows(t, id, kind)
      invariant forall r :: r in Rows(t, id, kind) ==> r in out || r in left
      invariant forall r :: r in out ==> r !in left
      invariant forall r, q :: r in out && q in left ==> r.seqNo <= q.seqNo
      invariant forall i, j :: 0 <= i < j < |out| ==> out[i] != out[j] && out[i].seqNo <= out[j].seqNo
      decreases left
    {
      LeastExists(left);
      var r :| r in left && forall q :: q in left ==> r.seqNo <= q.seqNo;
      out, left := out + [r], left - {r};
    }
  }

  lemma {:induction false} LeastExists<T>(rows: set<Child<T>>)
    requires rows != {}
    ensures exists r :: r in rows && forall q :: q in rows ==> r.seqNo <= q.seqNo
    decreases rows
  {
    var r :| r in rows;
    if exists q :: q in rows && q.seqNo < r.seqNo {
      var q :| q in rows && q.seqNo < r.seqNo;
      var rest := rows - {r};
      assert q in rest;
      LeastExists(rest);
      var m :| m in rest && forall q :: q in rest ==> m.seqNo <= q.seqNo;
      assert forall q :: q in rows ==> q == r || q in rest;
    }
  }

  /** However the rows are stored, reading them by `seq` gives back the list that was written. */
  lemma OrderIsRestored<T>(out: seq<Child<T>>, rows: set<Child<T>>, vals: seq<T>)
    requires IsCursor(out, rows) && Numbered(rows, vals)
    ensures Vals(out) == vals
  {
    StrictlyRising(out, rows, vals);
    NotShorter(out, rows, vals);
    NotLonger(out, rows, vals);
    forall i | 0 <= i < |out|
      ensures out[i].val == vals[i]
    {
      SeqIsIndex(out, rows, vals, i);
      assert out[i] in rows;
    }
  }

  lemma NotLonger<T>(out: seq<Child<T>>, rows: set<Child<T>>, vals: seq<T>)
    requires IsCursor(out, rows) && Numbered(rows, vals) && Rising(out)
    ensures |out| <= |vals|
  {
    if |out| > 0 {
      RisingFromZero(out, |out| - 1);
      assert out[|out| - 1] in rows;
    }
  }

  lemma NotShorter<T>(out: seq<Child<T>>, rows: set<Child<T>>, vals: seq<T>)
    requires IsCursor(out, rows) && Numbered(rows, vals) && Rising(out)
    ensures |out| >= |vals|
  {
    if |vals| > 0 {
      assert HasSeq(rows, |vals| - 1);
      var r :| r in rows && r.seqNo == |vals| - 1;
      var p :| 0 <= p < |out| && out[p] == r;
      SeqIsIndex(out, rows, vals, p);
    }
  }

  ghost predicate Rising<T>(out: seq<Child<T>>) {
    forall i, j :: 0 <= i < j < |out| ==> out[i].seqNo < out[j].seqNo
  }

  lemma StrictlyRising<T>(out: seq<Child<T>>, rows: set<Child<T>>, vals: seq<T>)
    requires IsCursor(out, rows) && Numbered(rows, vals)
    ensures Rising(out)
  {
    forall i, j | 0 <= i < j < |out|
      ensures out[i].seqNo < out[j].seqNo
    {
      assert out[i] in rows && out[j] in rows;
    }
  }

  lemma {:induction false} RisingFromZero<T>(out: seq<Child<T>>, i: nat)
    requires Rising(out) && i < |out|
    ensures out[i].seqNo >= i
  {
    if i > 0 { RisingFromZero(out, i - 1); }
  }

  lemma {:induction false} SeqIsIndex<T>(out: seq<Child<T>>, rows: set<Child<T>>, vals: seq<T>, i: nat)
    requires IsCursor(out, rows) && Numbered(rows, vals) && Rising(out) && i < |out|
    ensures out[i].seqNo == i
  {
    RisingFromZero(out, i);
    assert out[i] in rows;
    if out[i].seqNo > i {
      assert HasSeq(rows, i);
      var r :| r in rows && r.seqNo == i;
      var p :| 0 <= p < |out| && out[p] == r;
      if p < i { SeqIsIndex(out, rows, vals, p); }
    }
  }

  // ---- writing ----

  /** INSERT of `vals` as rows numbered from 0. */
  function InsertAll<T(==)>(t: Table<T>, id: int, kind: Kind, vals: seq<T>): Table<T> {
    if vals == [] then t
    else
      var n := |vals| - 1;
      var u := InsertAll(t, id, kind, vals[..n]);
      Table(u.rows + {Child(u.next, id, kind, n, vals[n])}, u.next + 1)
  }

  /** The child insert loops; `budget` is how many statements still succeed before the transaction fails. */
  method InsertLoop<T(==)>(t: Table<T>, id: int, kind: Kind, vals: seq<T>, budget: nat)
    returns (u: Table<T>, left: nat, ok: bool)
    ensures ok == (budget >= |vals|)
    ensures ok ==> u == InsertAll(t, id, kind, vals) && left == budget - |vals|
  {
    u, left, ok := t, budget, true;
    for i := 0 to |vals|
      invariant ok && u == InsertAll(t, id, kind, vals[..i]) && left == budget - i
    {
      if left == 0 {
        return u, 0, false;
      }
      left := left - 1;
      assert vals[..i + 1][..i] == vals[..i];
      u := Table(u.rows + {Child(u.next, id, kind, i, vals[i])}, u.next + 1);
    }
    assert vals[..|vals|] == vals;
  }

  lemma {:induction false} InsertAllRows<T>(t: Table<T>, id: int, kind: Kind, vals: seq<T>)
    requires Keyed(t) && Rows(t, id, kind) == {}
    ensures var u := InsertAll(t, id, kind, vals);
            && Keyed(u) && u.next == t.next + |vals|
            && Holds(u, id, kind, vals)
            && (forall r :: r in u.rows <==> r in t.rows || r in Rows(u, id, kind))
  {
    if vals != [] {
      var n := |vals| - 1;
      var u := InsertAll(t, id, kind, vals[..n]);
      InsertAllRows(t, id, kind, vals[..n]);
      InsertOneRow(u, id, kind, vals[..n], vals[n]);
      assert vals[..n] + [vals[n]] == vals;
    }
  }

  lemma InsertOneRow<T>(u: Table<T>, id: int, kind: Kind, vals: seq<T>, v: T)
    requires Keyed(u) && Holds(u, id, kind, vals)
    ensures var w := Table(u.rows + {Child(u.next, id, kind, |vals|, v)}, u.next + 1);
            Keyed(w) && Holds(w, id, kind, vals + [v])
            && Rows(w, id, kind) == Rows(u, id, kind) + {Child(u.next, id, kind, |vals|, v)}
  {
    var c := Child(u.next, id, kind, |vals|, v);
    var w := Table(u.rows + {c}, u.next + 1);
    var all := vals + [v];
    forall i | 0 <= i < |all|
      ensures HasSeq(Rows(w, id, kind), i)
    {
      if i < |vals| {
        assert HasSeq(Rows(u, id, kind), i);
        var r :| r in Rows(u, id, kind) && r.seqNo == i;
        assert r in Rows(w, id, kind);
      } else {
        assert c in Rows(w, id, kind);
      }
    }
  }

  /** Rows of other entries or kinds are not touched by an insert. */
  lemma InsertAllElsewhere<T>(t: Table<T>, id: int, kind: Kind, vals: seq<T>, id': int, kind': Kind)
    requires Keyed(t) && Rows(t, id, kind) == {} && (id' != id || kind' != kind)
    ensures Rows(InsertAll(t, id, kind, vals), id', kind') == Rows(t, id', kind')
  {
    InsertAllRows(t, id, kind, vals);
  }

  /** DELETE ... WHERE entry_id IN (...) */
  function DeleteIn<T(==)>(t: Table<T>, ids: set<int>): Table<T> {
    t.(rows := set r | r in t.rows && r.entryId !in ids)
  }

  lemma DeleteInRows<T>(t: Table<T>, ids: set<int>, id: int, kind: Kind)
    ensures Rows(DeleteIn(t, ids), id, kind) == if id in ids then {} else Rows(t, id, kind)
    ensures Keyed(t) ==> Keyed(DeleteIn(t, ids))
    ensures NoOrphans(DeleteIn(t, ids), (set r | r in t.rows :: r.entryId) - ids)
  {
  }
}
