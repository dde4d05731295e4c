/** What a listing returns in terms of whole entries (internal/store/query.go). */
module Listing {
  import opened Basics
  import opened EntryRows
  import opened Glob
  import opened Har
  import opened Lists
  import opened Paging
  import opened Queries
  import opened StoreBook
  import opened StoreDb

  /** The direct filter: every non-zero field of the query against the entry itself. */
  predicate SelectsEntry(q: Query, eq: Equiv, st: Stored) {
    && (q.session != "" ==> st.session == q.session)
    && (q.httpMethod != "" ==> st.entry.request.httpMethod == q.httpMethod)
    && (q.status != 0 ==> st.entry.response.status == q.status)
    && (q.mimeType != "" ==> st.entry.response.content.mimeType == q.mimeType)
    && (q.urlGlob != "" ==> Matches(q.urlGlob, st.entry.request.url, eq))
  }

  function SelectedEntries(q: Query, eq: Equiv, log: seq<Stored>): seq<Stored> {
    Keep(log, (st: Stored) => SelectsEntry(q, eq, st))
  }

  function Ordered<T>(q: Query, kept: seq<T>): seq<T> {
    Page(if q.ascending then kept else Reverse(kept), if q.limit > 0 then Some(q.limit) else None,
         if q.offset > 0 then q.offset else 0)
  }

  /** The entries of the log the query asks for, in the order and page it asks for. */
  function WantedEntries(q: Query, eq: Equiv, log: seq<Stored>): seq<Stored> {
    Ordered(q, SelectedEntries(q, eq, log))
  }

  function RowsOf(items: seq<Item>): seq<EntryRow> {
    Map(items, (it: Item) => it.row)
  }

  function SelectedItems(q: Query, eq: Equiv, items: seq<Item>): seq<Item> {
    Keep(items, (it: Item) => Selects(q, eq, it.row))
  }

  lemma OrderedOfMap<A, B>(q: Query, kept: seq<A>, f: A -> B)
    ensures Ordered(q, Map(kept, f)) == Map(Ordered(q, kept), f)
  {
    ReverseOfMap(kept, f);
    PageOfMap(if q.ascending then kept else Reverse(kept), f, if q.limit > 0 then Some(q.limit) else None,
              if q.offset > 0 then q.offset else 0);
  }

  lemma SelectedOfItems(json: Json, eq: Equiv, q: Query, items: seq<Item>)
    ensures Selected(q, eq, RowsOf(items)) == RowsOf(SelectedItems(q, eq, items))
    ensures SelectedEntries(q, eq, Views(json, items)) == Views(json, SelectedItems(q, eq, items))
  {
    KeepOfMap(items, (it: Item) => it.row, (row: EntryRow) => Selects(q, eq, row),
              (it: Item) => Selects(q, eq, it.row));
    KeepOfMap(items, (it: Item) => View(json, it), (st: Stored) => SelectsEntry(q, eq, st),
              (it: Item) => Selects(q, eq, it.row));
  }

  /** The rows a listing selects are those of the entries it means. */
  lemma WantedOfItems(json: Json, eq: Equiv, q: Query, items: seq<Item>)
    ensures Wanted(q, eq, RowsOf(items)) == RowsOf(Ordered(q, SelectedItems(q, eq, items)))
    ensures WantedEntries(q, eq, Views(json, items)) == Views(json, Ordered(q, SelectedItems(q, eq, items)))
  {
    var picked := SelectedItems(q, eq, items);
    SelectedOfItems(json, eq, q, items);
    assert Wanted(q, eq, RowsOf(items)) == Ordered(q, Selected(q, eq, RowsOf(items)));
    OrderedOfMap(q, picked, (it: Item) => it.row);
    OrderedOfMap(q, picked, (it: Item) => View(json, it));
  }

  lemma {:induction false} ReverseIn<T>(s: seq<T>, x: T)
    ensures x in Reverse(s) <==> x in s
  {
    if s != [] { ReverseIn(s[1..], x); }
  }

  lemma OrderedIn<T>(q: Query, kept: seq<T>, x: T)
    requires x in Ordered(q, kept)
    ensures x in kept
  {
    ReverseIn(kept, x);
  }

  /** Nothing is listed that the tables do not hold. */
  lemma PickedAreItems(q: Query, eq: Equiv, items: seq<Item>)
    ensures forall it :: it in Ordered(q, SelectedItems(q, eq, items)) ==> it in items
  {
    forall it | it in Ordered(q, SelectedItems(q, eq, items))
      ensures it in items
    {
      OrderedIn(q, SelectedItems(q, eq, items), it);
      KeepIn(items, (x: Item) => Selects(q, eq, x.row), it);
    }
  }

  // ---- the one order a table has ----

  ghost predicate IdsRise(rows: seq<EntryRow>) {
    forall i, j :: 0 <= i < j < |rows| ==> rows[i].id < rows[j].id
  }

  lemma {:induction false} OneOrder(a: seq<EntryRow>, b: seq<EntryRow>)
    requires IdsRise(a) && IdsRise(b) && forall r :: r in a <==> r in b
    ensures a == b
  {
    if a != [] { HasMember(a); }
    if b != [] { HasMember(b); }
    if a != [] && b != [] {
      assert a[0] in a && b[0] in b;
      var j :| 0 <= j < |b| && b[j] == a[0];
      var k :| 0 <= k < |a| && a[k] == b[0];
      assert a[0] == b[0];
      TailMembers(a, b);
      OneOrder(a[1..], b[1..]);
    }
  }

  lemma HasMember<T>(s: seq<T>)
    requires s != []
    ensures exists x :: x in s
  {
    assert s[0] in s;
  }

  lemma TailMembers(a: seq<EntryRow>, b: seq<EntryRow>)
    requires IdsRise(a) && IdsRise(b) && a != [] && b != [] && a[0] == b[0] && forall r :: r in a <==> r in b
    ensures forall r :: r in a[1..] <==> r in b[1..]
  {
    forall r
      ensures r in a[1..] <==> r in b[1..]
    {
      RestIsWithoutHead(a, r);
      RestIsWithoutHead(b, r);
    }
  }

  lemma RestIsWithoutHead(a: seq<EntryRow>, r: EntryRow)
    requires IdsRise(a) && a != []
    ensures r in a[1..] <==> r in a && r != a[0]
  {
    if r in a[1..] {
      var i :| 0 <= i < |a[1..]| && a[1..][i] == r;
      assert a[i + 1] == r;
    }
  }

  lemma RowsOfItems(items: seq<Item>, rows: set<EntryRow>)
    requires Sorted(items) && SameRows(items, rows)
    ensures IdsRise(RowsOf(items)) && forall r :: r in RowsOf(items) <==> r in rows
  {
    var all := RowsOf(items);
    forall i | 0 <= i < |items|
      ensures all[i] == items[i].row
    {
      MapAt(items, (it: Item) => it.row, i);
    }
    forall r
      ensures r in all <==> r in rows
    {
      if r in rows {
        assert Listed(items, r);
        var it :| it in items && it.row == r;
        var i :| 0 <= i < |items| && items[i] == it;
        assert all[i] == r;
      }
    }
  }

  // ---- order and membership of what is listed ----

  /** `rows` are those of the table the query selects, on its page, rising or falling by id. */
  ghost predicate ListsRows(q: Query, eq: Equiv, order: seq<EntryRow>, rows: seq<EntryRow>) {
    IsListing(order, (row: EntryRow) => row.id, (row: EntryRow) => Selects(q, eq, row), q.ascending, q.limit, q.offset,
              rows)
  }

  /** The same of entries. */
  ghost predicate ListsEntries(q: Query, eq: Equiv, log: seq<Stored>, sts: seq<Stored>) {
    IsListing(log, (st: Stored) => st.id, (st: Stored) => SelectsEntry(q, eq, st), q.ascending, q.limit, q.offset, sts)
  }

  /**
   * The executed statement, on either database: greatest id first unless the query
   * asks for ascending order, and exactly the selected rows of its page.
   */
  lemma StatementLists(postgres: bool, eq: Equiv, q: Query, order: seq<EntryRow>)
    requires IdsRise(order)
    ensures var out := Execute(postgres, eq, Sent(postgres, ListText(q)), ListArgs(q), order);
            && (out.None? <==> !postgres && q.limit <= 0 && q.offset > 0)
            && (out.Some? ==> ListsRows(q, eq, order, out.value))
  {
    ListMeansQuery(postgres, eq, q, order);
    var id, picks := (row: EntryRow) => row.id, (row: EntryRow) => Selects(q, eq, row);
    assert InOrder(order, id, true);
    PagedIsListing(order, id, picks, q.ascending, q.limit, q.offset);
    KeepSame(order, picks, row => Selects(q, eq, row));
  }

  lemma EntriesInOrder(json: Json, items: seq<Item>)
    requires Sorted(items)
    ensures InOrder(Views(json, items), (st: Stored) => st.id, true)
  {
    forall i, j | 0 <= i < j < |items|
      ensures Views(json, items)[i].id < Views(json, items)[j].id
    {
      MapAt(items, (it: Item) => View(json, it), i);
      MapAt(items, (it: Item) => View(json, it), j);
    }
  }

  lemma WantedAreListed(json: Json, eq: Equiv, q: Query, items: seq<Item>)
    requires Sorted(items)
    ensures ListsEntries(q, eq, Views(json, items), WantedEntries(q, eq, Views(json, items)))
  {
    EntriesInOrder(json, items);
    PagedIsListing(Views(json, items), (st: Stored) => st.id, (st: Stored) => SelectsEntry(q, eq, st), q.ascending,
                   q.limit, q.offset);
  }
}
