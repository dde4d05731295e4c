/**
 * The whole database of internal/store: what its tables hold, and that every
 * statement sequence keeps them a faithful decomposition of an ordered list of
 * entries.
 */
module StoreDb {
  import opened Har
  import opened EntryRows
  import opened Lists
  import opened Tables

  datatype Db = Db(
    entries: set<EntryRow>, nextEntry: int, headers: Table<NVP>, cookies: Table<CookieRow>, queryParams: Table<NVP>,
    postParams: Table<Param>, cacheStates: Table<CacheState>, logs: map<string, LogRow>)

  /** An entry as the tables hold it: its row and its child lists. */
  datatype Item = Item(row: EntryRow, kids: Children)

  ghost predicate HasKids(db: Db, id: int, c: Children) {
    && Holds(db.headers, id, OfRequest, c.reqHeaders) && Holds(db.headers, id, OfResponse, c.respHeaders)
    && Holds(db.cookies, id, OfRequest, c.reqCookies) && Holds(db.cookies, id, OfResponse, c.respCookies)
    && Holds(db.queryParams, id, Only, c.query) && Holds(db.postParams, id, Only, c.params)
    && Holds(db.cacheStates, id, Before, c.before) && Holds(db.cacheStates, id, After, c.after)
  }

  ghost predicate TablesKeyed(db: Db) {
    Keyed(db.headers) && Keyed(db.cookies) && Keyed(db.queryParams) && Keyed(db.postParams) && Keyed(db.cacheStates)
  }

  ghost predicate Owned(db: Db, ids: set<int>) {
    && NoOrphans(db.headers, ids) && NoOrphans(db.cookies, ids) && NoOrphans(db.queryParams, ids)
    && NoOrphans(db.postParams, ids) && NoOrphans(db.cacheStates, ids)
  }

  ghost predicate Sorted(items: seq<Item>) {
    forall i, j :: 0 <= i < j < |items| ==> items[i].row.id < items[j].row.id
  }

  ghost predicate Listed(items: seq<Item>, r: EntryRow) {
    exists it :: it in items && it.row == r
  }

  ghost predicate SameRows(items: seq<Item>, rows: set<EntryRow>) {
    && (forall it :: it in items ==> it.row in rows)
    && (forall r :: r in rows ==> Listed(items, r))
  }

  ghost function Ids(items: seq<Item>): set<int> {
    set it | it in items :: it.row.id
  }

  ghost predicate Fits(db: Db, it: Item) {
    it.row.id < db.nextEntry && HasKids(db, it.row.id, it.kids)
  }

  ghost predicate AllFit(db: Db, items: seq<Item>) {
    forall it :: it in items ==> Fits(db, it)
  }

  /**
   * The tables hold exactly `items`: rows in id order, each child list numbered
   * from 0 without gap or repetition, and no row that belongs to no entry.
   */
  ghost predicate Represents(db: Db, items: seq<Item>) {
    && Sorted(items) && SameRows(items, db.entries)
    && AllFit(db, items)
    && TablesKeyed(db) && Owned(db, Ids(items))
  }

  // ---- insert ----

  function InsertRows(json: Json, db: Db, id: int, session: string, at: int, e: Entry): Db {
    var c := ChildrenOf(e);
    Db(db.entries + {RowOf(json, id, session, at, e)}, id + 1,
       InsertAll(InsertAll(db.headers, id, OfRequest, c.reqHeaders), id, OfResponse, c.respHeaders),
       InsertAll(InsertAll(db.cookies, id, OfRequest, c.reqCookies), id, OfResponse, c.respCookies),
       InsertAll(db.queryParams, id, Only, c.query),
       InsertAll(db.postParams, id, Only, c.params),
       InsertAll(InsertAll(db.cacheStates, id, Before, c.before), id, After, c.after),
       db.logs)
  }

  /** What one table keeps when the lists of a new entry go into it. */
  ghost predicate Grew<T>(t: Table<T>, u: Table<T>, id: int, ids: set<int>) {
    && Keyed(u) && NoOrphans(u, ids + {id})
    && (forall other, kind :: other != id ==> Rows(u, other, kind) == Rows(t, other, kind))
  }

  lemma FreshHasNoRows<T>(t: Table<T>, ids: set<int>, id: int, kind: Kind)
    requires NoOrphans(t, ids) && id !in ids
    ensures Rows(t, id, kind) == {}
  {
  }

  lemma OneListGrows<T>(t: Table<T>, id: int, kind: Kind, vals: seq<T>, ids: set<int>)
    requires Keyed(t) && NoOrphans(t, ids + {id}) && Rows(t, id, kind) == {}
    ensures Grew(t, InsertAll(t, id, kind, vals), id, ids) && Holds(InsertAll(t, id, kind, vals), id, kind, vals)
    ensures forall k :: k != kind ==> Rows(InsertAll(t, id, kind, vals), id, k) == Rows(t, id, k)
  {
    var u := InsertAll(t, id, kind, vals);
    InsertAllRows(t, id, kind, vals);
    forall other, k | other != id || k != kind
      ensures Rows(u, other, k) == Rows(t, other, k)
    {
      InsertAllElsewhere(t, id, kind, vals, other, k);
    }
  }

  lemma TwoListsGrow<T>(t: Table<T>, id: int, k1: Kind, v1: seq<T>, k2: Kind, v2: seq<T>, ids: set<int>)
    requires Keyed(t) && NoOrphans(t, ids) && id !in ids && k1 != k2
    ensures var u := InsertAll(InsertAll(t, id, k1, v1), id, k2, v2);
            Grew(t, u, id, ids) && Holds(u, id, k1, v1) && Holds(u, id, k2, v2)
  {
    FreshHasNoRows(t, ids, id, k1);
    FreshHasNoRows(t, ids, id, k2);
    OneListGrows(t, id, k1, v1, ids);
    OneListGrows(InsertAll(t, id, k1, v1), id, k2, v2, ids);
  }

  lemma OnlyListGrows<T>(t: Table<T>, id: int, kind: Kind, vals: seq<T>, ids: set<int>)
    requires Keyed(t) && NoOrphans(t, ids) && id !in ids
    ensures Grew(t, InsertAll(t, id, kind, vals), id, ids) && Holds(InsertAll(t, id, kind, vals), id, kind, vals)
  {
    FreshHasNoRows(t, ids, id, kind);
    OneListGrows(t, id, kind, vals, ids);
  }

  /** `u` has the lists of one more entry and is otherwise `db`. */
  ghost predicate TablesGrew(db: Db, u: Db, id: int, kids: Children, ids: set<int>) {
    && HasKids(u, id, kids)
    && Grew(db.headers, u.headers, id, ids) && Grew(db.cookies, u.cookies, id, ids)
    && Grew(db.queryParams, u.queryParams, id, ids) && Grew(db.postParams, u.postParams, id, ids)
    && Grew(db.cacheStates, u.cacheStates, id, ids)
  }

  lemma InsertGrows(json: Json, db: Db, id: int, session: string, at: int, e: Entry, ids: set<int>)
    requires TablesKeyed(db) && Owned(db, ids) && id !in ids
    ensures TablesGrew(db, InsertRows(json, db, id, session, at, e), id, ChildrenOf(e), ids)
  {
    var c := ChildrenOf(e);
    TwoListsGrow(db.headers, id, OfRequest, c.reqHeaders, OfResponse, c.respHeaders, ids);
    TwoListsGrow(db.cookies, id, OfRequest, c.reqCookies, OfResponse, c.respCookies, ids);
    OnlyListGrows(db.queryParams, id, Only, c.query, ids);
    OnlyListGrows(db.postParams, id, Only, c.params, ids);
    TwoListsGrow(db.cacheStates, id, Before, c.before, After, c.after, ids);
  }

  lemma KidsKept(db: Db, u: Db, id: int, kids: Children, ids: set<int>, other: int, c: Children)
    requires TablesGrew(db, u, id, kids, ids) && other != id && HasKids(db, other, c)
    ensures HasKids(u, other, c)
  {
  }

  lemma TablesGrewOwned(db: Db, u: Db, id: int, kids: Children, ids: set<int>)
    requires TablesGrew(db, u, id, kids, ids)
    ensures TablesKeyed(u) && Owned(u, ids + {id})
  {
  }

  lemma AllStillFit(db: Db, u: Db, items: seq<Item>, it: Item, ids: set<int>)
    requires AllFit(db, items) && it.row.id >= db.nextEntry && u.nextEntry > it.row.id
    requires TablesGrew(db, u, it.row.id, it.kids, ids)
    ensures AllFit(u, items + [it])
  {
    forall x | x in items + [it]
      ensures Fits(u, x)
    {
      if x in items {
        assert Fits(db, x);
        KidsKept(db, u, it.row.id, it.kids, ids, x.row.id, x.kids);
      }
    }
  }

  lemma SortedSnoc(db: Db, items: seq<Item>, it: Item)
    requires Sorted(items) && AllFit(db, items) && it.row.id >= db.nextEntry
    ensures Sorted(items + [it])
  {
    var all := items + [it];
    forall i, j | 0 <= i < j < |all|
      ensures all[i].row.id < all[j].row.id
    {
      assert items[i] in items && Fits(db, items[i]);
    }
  }

  lemma OneMoreItem(db: Db, u: Db, items: seq<Item>, it: Item)
    requires Represents(db, items) && it.row.id >= db.nextEntry
    requires u.entries == db.entries + {it.row} && u.nextEntry > it.row.id
    requires TablesGrew(db, u, it.row.id, it.kids, Ids(items))
    ensures Represents(u, items + [it])
  {
    IdsSnoc(items, it);
    SameRowsSnoc(items, db.entries, it);
    SortedSnoc(db, items, it);
    AllStillFit(db, u, items, it, Ids(items));
    TablesGrewOwned(db, u, it.row.id, it.kids, Ids(items));
  }

  /** Inserting an entry under an unused id adds it at the end and disturbs no other. */
  lemma InsertRepresents(json: Json, db: Db, items: seq<Item>, id: int, session: string, at: int, e: Entry)
    requires Represents(db, items) && id >= db.nextEntry
    ensures Represents(InsertRows(json, db, id, session, at, e),
                       items + [Item(RowOf(json, id, session, at, e), ChildrenOf(e))])
  {
    IdsBelow(db, items, id);
    InsertGrows(json, db, id, session, at, e, Ids(items));
    OneMoreItem(db, InsertRows(json, db, id, session, at, e), items,
                Item(RowOf(json, id, session, at, e), ChildrenOf(e)));
  }

  lemma IdsBelow(db: Db, items: seq<Item>, id: int)
    requires Represents(db, items) && id >= db.nextEntry
    ensures id !in Ids(items)
  {
    forall it | it in items
      ensures it.row.id != id
    {
      assert Fits(db, it);
    }
  }

  lemma IdsSnoc(items: seq<Item>, it: Item)
    ensures Ids(items + [it]) == Ids(items) + {it.row.id}
  {
    forall x | x in Ids(items)
      ensures x in Ids(items + [it])
    {
      var y :| y in items && y.row.id == x;
      assert y in items + [it];
    }
    assert it in items + [it];
  }

  lemma SameRowsSnoc(items: seq<Item>, rows: set<EntryRow>, it: Item)
    requires SameRows(items, rows)
    ensures SameRows(items + [it], rows + {it.row})
  {
    var all := items + [it];
    forall r | r in rows + {it.row}
      ensures Listed(all, r)
    {
      if r == it.row {
        assert it in all;
      } else {
        assert Listed(items, r);
        var y :| y in items && y.row == r;
        assert y in all;
      }
    }
  }

  // ---- delete ----

  function SessionIds(db: Db, session: string): set<int> {
    set r | r in db.entries && r.session == session :: r.id
  }

  /** DELETE FROM the child tables by subquery, then FROM entries, then FROM logs. */
  function DeleteRows(db: Db, session: string): Db {
    var ids := SessionIds(db, session);
    Db((set r | r in db.entries && r.session != session), db.nextEntry,
       DeleteIn(db.headers, ids), DeleteIn(db.cookies, ids), DeleteIn(db.queryParams, ids),
       DeleteIn(db.postParams, ids), DeleteIn(db.cacheStates, ids),
       db.logs - {session})
  }

  function Without(items: seq<Item>, session: string): seq<Item> {
    Keep(items, (it: Item) => it.row.session != session)
  }

  lemma {:induction false} SortedKeep(items: seq<Item>, p: Item -> bool)
    requires Sorted(items)
    ensures Sorted(Keep(items, p))
  {
    if items != [] {
      var rest := items[1..];
      SortedKeep(rest, p);
      forall it | it in Keep(rest, p)
        ensures items[0].row.id < it.row.id
      {
        KeepIn(rest, p, it);
        var i :| 0 <= i < |rest| && rest[i] == it;
        assert items[i + 1] == it;
      }
    }
  }

  lemma SortedAreDistinct(items: seq<Item>, x: Item, y: Item)
    requires Sorted(items) && x in items && y in items && x.row.id == y.row.id
    ensures x == y
  {
    var i :| 0 <= i < |items| && items[i] == x;
    var j :| 0 <= j < |items| && items[j] == y;
  }

  /** The subquery selects exactly the ids of the session's own entries. */
  lemma SessionIdsAre(db: Db, items: seq<Item>, session: string, it: Item)
    requires Sorted(items) && SameRows(items, db.entries) && it in items
    ensures it.row.id in SessionIds(db, session) <==> it.row.session == session
  {
    if it.row.id in SessionIds(db, session) {
      var r :| r in db.entries && r.session == session && r.id == it.row.id;
      assert Listed(items, r);
      var y :| y in items && y.row == r;
      SortedAreDistinct(items, it, y);
    }
  }

  lemma SameRowsWithout(items: seq<Item>, rows: set<EntryRow>, session: string)
    requires SameRows(items, rows)
    ensures SameRows(Without(items, session), set r | r in rows && r.session != session)
  {
    var p := (it: Item) => it.row.session != session;
    forall it
      ensures it in Without(items, session) <==> it in items && p(it)
    {
      KeepIn(items, p, it);
    }
    forall r | r in rows && r.session != session
      ensures Listed(Without(items, session), r)
    {
      assert Listed(items, r);
    }
  }

  lemma KidsSurvive(db: Db, session: string, id: int, c: Children)
    requires HasKids(db, id, c) && id !in SessionIds(db, session)
    ensures HasKids(DeleteRows(db, session), id, c)
  {
    var ids := SessionIds(db, session);
    ListSurvives(db.headers, ids, id);
    ListSurvives(db.cookies, ids, id);
    ListSurvives(db.queryParams, ids, id);
    ListSurvives(db.postParams, ids, id);
    ListSurvives(db.cacheStates, ids, id);
  }

  lemma ListSurvives<T>(t: Table<T>, ids: set<int>, id: int)
    requires id !in ids
    ensures forall kind :: Rows(DeleteIn(t, ids), id, kind) == Rows(t, id, kind)
  {
    forall kind
      ensures Rows(DeleteIn(t, ids), id, kind) == Rows(t, id, kind)
    {
      DeleteInRows(t, ids, id, kind);
    }
  }

  lemma NoRowsLeft<T>(t: Table<T>, gone: set<int>, ids: set<int>, left: set<int>)
    requires NoOrphans(t, ids) && ids - gone <= left
    ensures NoOrphans(DeleteIn(t, gone), left) && (Keyed(t) ==> Keyed(DeleteIn(t, gone)))
  {
  }

  lemma IdsWithout(db: Db, items: seq<Item>, session: string)
    requires Sorted(items) && SameRows(items, db.entries)
    ensures Ids(items) - SessionIds(db, session) <= Ids(Without(items, session))
  {
    forall id | id in Ids(items) - SessionIds(db, session)
      ensures id in Ids(Without(items, session))
    {
      var it :| it in items && it.row.id == id;
      SessionIdsAre(db, items, session, it);
      KeepIn(items, (x: Item) => x.row.session != session, it);
      assert it in Without(items, session);
    }
  }

  /** Deleting a session removes its entries with all their rows, and nothing else. */
  lemma DeleteRepresents(db: Db, items: seq<Item>, session: string)
    requires Represents(db, items)
    ensures Represents(DeleteRows(db, session), Without(items, session))
  {
    var u, rest, gone := DeleteRows(db, session), Without(items, session), SessionIds(db, session);
    SortedKeep(items, (it: Item) => it.row.session != session);
    SameRowsWithout(items, db.entries, session);
    forall it | it in rest
      ensures Fits(u, it)
    {
      KeepIn(items, (x: Item) => x.row.session != session, it);
      assert Fits(db, it);
      SessionIdsAre(db, items, session, it);
      KidsSurvive(db, session, it.row.id, it.kids);
    }
    IdsWithout(db, items, session);
    NoRowsLeft(db.headers, gone, Ids(items), Ids(rest));
    NoRowsLeft(db.cookies, gone, Ids(items), Ids(rest));
    NoRowsLeft(db.queryParams, gone, Ids(items), Ids(rest));
    NoRowsLeft(db.postParams, gone, Ids(items), Ids(rest));
    NoRowsLeft(db.cacheStates, gone, Ids(items), Ids(rest));
  }

  // ---- rename ----

  function RelabelRow(r: EntryRow, from: string, to: string): EntryRow {
    if r.session == from then r.(session := to) else r
  }

  function MoveLog(logs: map<string, LogRow>, from: string, to: string): map<string, LogRow> {
    var cleared := logs - {to};
    if from in cleared then (cleared - {from})[to := cleared[from]] else cleared
  }

  /** DELETE the log row under the new name, then UPDATE entries and logs. */
  function RenameRows(db: Db, from: string, to: string): Db {
    db.(entries := (set r | r in db.entries :: RelabelRow(r, from, to)), logs := MoveLog(db.logs, from, to))
  }

  function Relabel(it: Item, from: string, to: string): Item {
    it.(row := RelabelRow(it.row, from, to))
  }

  function Relabelled(items: seq<Item>, from: string, to: string): seq<Item> {
    Map(items, (it: Item) => Relabel(it, from, to))
  }

  lemma RelabelledIn(items: seq<Item>, from: string, to: string, x: Item) returns (y: Item)
    requires x in Relabelled(items, from, to)
    ensures y in items && x == Relabel(y, from, to)
  {
    var i :| 0 <= i < |items| && Relabelled(items, from, to)[i] == x;
    MapAt(items, (it: Item) => Relabel(it, from, to), i);
    y := items[i];
  }

  lemma InRelabelled(items: seq<Item>, from: string, to: string, y: Item)
    requires y in items
    ensures Relabel(y, from, to) in Relabelled(items, from, to)
  {
    var i :| 0 <= i < |items| && items[i] == y;
    MapAt(items, (it: Item) => Relabel(it, from, to), i);
    assert Relabelled(items, from, to)[i] == Relabel(y, from, to);
  }

  lemma SortedRelabelled(items: seq<Item>, from: string, to: string)
    requires Sorted(items)
    ensures Sorted(Relabelled(items, from, to))
  {
    var all := Relabelled(items, from, to);
    forall i, j | 0 <= i < j < |all|
      ensures all[i].row.id < all[j].row.id
    {
      MapAt(items, (it: Item) => Relabel(it, from, to), i);
      MapAt(items, (it: Item) => Relabel(it, from, to), j);
    }
  }

  lemma SameRowsRelabelled(items: seq<Item>, rows: set<EntryRow>, from: string, to: string)
    requires SameRows(items, rows)
    ensures SameRows(Relabelled(items, from, to), (set r | r in rows :: RelabelRow(r, from, to)))
  {
    var all := Relabelled(items, from, to);
    var moved := set r | r in rows :: RelabelRow(r, from, to);
    forall it | it in all
      ensures it.row in moved
    {
      var y := RelabelledIn(items, from, to, it);
      assert y.row in rows;
    }
    forall r | r in moved
      ensures Listed(all, r)
    {
      var was :| was in rows && r == RelabelRow(was, from, to);
      assert Listed(items, was);
      var y :| y in items && y.row == was;
      InRelabelled(items, from, to, y);
    }
  }

  lemma IdsRelabelled(items: seq<Item>, from: string, to: string)
    ensures Ids(items) <= Ids(Relabelled(items, from, to))
  {
    forall id | id in Ids(items)
      ensures id in Ids(Relabelled(items, from, to))
    {
      var y :| y in items && y.row.id == id;
      InRelabelled(items, from, to, y);
    }
  }

  /** Renaming relabels the rows in place: ids, order and child rows stay. */
  lemma RenameRepresents(db: Db, items: seq<Item>, from: string, to: string)
    requires Represents(db, items)
    ensures Represents(RenameRows(db, from, to), Relabelled(items, from, to))
  {
    var u, all := RenameRows(db, from, to), Relabelled(items, from, to);
    SortedRelabelled(items, from, to);
    SameRowsRelabelled(items, db.entries, from, to);
    forall it | it in all
      ensures Fits(u, it)
    {
      var y := RelabelledIn(items, from, to, it);
      assert Fits(db, y);
    }
    IdsRelabelled(items, from, to);
  }
}
