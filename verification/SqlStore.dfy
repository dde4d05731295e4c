/**
 * The store (internal/store/store.go, query.go, sessions.go): statement
 * sequences in transactions over the tables, proved to keep the book.
 */
module SqlStore {
  import opened Basics
  import opened EntryRows
  import opened Glob
  import opened Har
  import opened Listing
  import opened Lists
  import opened Queries
  import opened Sql
  import opened StoreBook
  import opened StoreDb
  import opened Tables

  // ---- states and results ----

  const EMPTY: Db := Db({}, 1, Table({}, 1), Table({}, 1), Table({}, 1), Table({}, 1), Table({}, 1), map[])

  /** The tables, and the entries they are the decomposition of. */
  datatype Contents = Contents(db: Db, ghost items: seq<Item>)

  /** The class invariant: no method can leave the store in any other state. */
  type State = c: Contents | Represents(c.db, c.items) witness Contents(EMPTY, [])

  datatype Outcome = Done(id: int) | Exists | Failed

  // ---- insertEntry, on the tables of an open transaction ----

  /** The statements one insert executes, without the commit. */
  function Statements(e: Entry): nat {
    var c := ChildrenOf(e);
    1 + |c.reqHeaders| + |c.respHeaders| + |c.reqCookies| + |c.respCookies| + |c.query| + |c.params| + |c.before|
    + |c.after|
  }

  /** `insertCacheState`. */
  method InsertCacheState(t: Table<CacheState>, id: int, kind: Kind, cs: Option<CacheState>, budget: nat)
    returns (u: Table<CacheState>, left: nat, ok: bool)
    ensures ok == (budget >= |AsList(cs)|)
    ensures ok ==> u == InsertAll(t, id, kind, AsList(cs)) && left == budget - |AsList(cs)|
  {
    if cs.None? {
      return t, budget, true;
    }
    if budget == 0 {
      return t, 0, false;
    }
    u, left, ok := Table(t.rows + {Child(t.next, id, kind, 0, cs.value)}, t.next + 1), budget - 1, true;
    assert AsList(cs)[..0] == [];
  }

  /** `insertEntry`; `budget` is how many statements succeed before one fails. */
  method InsertEntry(json: Json, db: Db, id: int, session: string, at: int, e: Entry, budget: nat)
    returns (tx: Db, left: nat, ok: bool)
    ensures ok == (budget >= Statements(e))
    ensures ok ==> tx == InsertRows(json, db, id, session, at, e) && left == budget - Statements(e)
  {
    tx, left, ok := db, budget, false;
    if left == 0 {
      return;
    }
    left := left - 1;
    tx := tx.(entries := tx.entries + {RowOf(json, id, session, at, e)}, nextEntry := id + 1);
    var headers, cookies, params, caches;
    headers, left, ok := InsertLoop(tx.headers, id, OfRequest, e.request.headers.Elems(), left);
    if !ok { return; }
    headers, left, ok := InsertLoop(headers, id, OfResponse, e.response.headers.Elems(), left);
    if !ok { return; }
    cookies, left, ok := InsertLoop(tx.cookies, id, OfRequest, ToCookieRows(e.request.cookies.Elems()), left);
    if !ok { return; }
    cookies, left, ok := InsertLoop(cookies, id, OfResponse, ToCookieRows(e.response.cookies.Elems()), left);
    if !ok { return; }
    tx := tx.(headers := headers, cookies := cookies);
    headers, left, ok := InsertLoop(tx.queryParams, id, Only, e.request.queryString.Elems(), left);
    if !ok { return; }
    tx := tx.(queryParams := headers);
    if e.request.postData.Some? {
      params, left, ok := InsertLoop(tx.postParams, id, Only, e.request.postData.value.params.Elems(), left);
      if !ok { return; }
      tx := tx.(postParams := params);
    }
    caches, left, ok := InsertCacheState(tx.cacheStates, id, Before, e.cache.beforeRequest, left);
    if !ok { return; }
    caches, left, ok := InsertCacheState(caches, id, After, e.cache.afterRequest, left);
    if !ok { return; }
    tx := tx.(cacheStates := caches);
  }

  /** The statements of `DeleteSession`, one table at a time, then the commit. */
  method DeleteStatements(db: Db, session: string, budget: nat) returns (tx: Db, ok: bool)
    ensures ok == (budget >= 8)
    ensures ok ==> tx == DeleteRows(db, session)
  {
    var left := budget;
    tx, ok := db, false;
    if left == 0 { return; }
    tx, left := tx.(headers := DeleteIn(tx.headers, SessionIds(tx, session))), left - 1;
    if left == 0 { return; }
    tx, left := tx.(cookies := DeleteIn(tx.cookies, SessionIds(tx, session))), left - 1;
    if left == 0 { return; }
    tx, left := tx.(queryParams := DeleteIn(tx.queryParams, SessionIds(tx, session))), left - 1;
    if left == 0 { return; }
    tx, left := tx.(postParams := DeleteIn(tx.postParams, SessionIds(tx, session))), left - 1;
    if left == 0 { return; }
    tx, left := tx.(cacheStates := DeleteIn(tx.cacheStates, SessionIds(tx, session))), left - 1;
    if left == 0 { return; }
    tx, left := tx.(entries := set r | r in tx.entries && r.session != session), left - 1;
    if left == 0 { return; }
    tx, left := tx.(logs := tx.logs - {session}), left - 1;
    if left == 0 { return; }
    ok := true;
  }

  lemma LogsAfterDelete(logs: map<string, LogRow>, session: string)
    ensures LogView(logs - {session}) == LogView(logs) - {session}
  {
  }

  /** The statements of `RenameSession` after its check, then the commit. */
  method RenameStatements(db: Db, from: string, to: string, budget: nat) returns (tx: Db, ok: bool)
    requires from != to
    ensures ok == (budget >= 4)
    ensures ok ==> tx == RenameRows(db, from, to)
  {
    var left := budget;
    tx, ok := db, false;
    if left == 0 { return; }
    tx, left := tx.(logs := tx.logs - {to}), left - 1;
    if left == 0 { return; }
    tx, left := tx.(entries := set r | r in tx.entries :: RelabelRow(r, from, to)), left - 1;
    if left == 0 { return; }
    if from in tx.logs {
      tx := tx.(logs := (tx.logs - {from})[to := tx.logs[from]]);
    }
    left := left - 1;
    if left == 0 { return; }
    ok := true;
  }

  // ---- the transactions: all of it or a rollback ----

  method InsertTx(json: Json, st: State, id: int, session: string, at: int, e: Entry, budget: nat)
    returns (next: State, ok: bool)
    requires Lawful(json) && id >= st.db.nextEntry
    ensures ok == (budget > Statements(e))
    ensures !ok ==> next == st
    ensures ok ==> next.db.nextEntry == id + 1
    ensures LogView(next.db.logs) == LogView(st.db.logs)
    ensures ok ==> Views(json, next.items) == Views(json, st.items) + [Stored(id, session, Norm(session, e))]
    ensures ok ==> BookOf(Views(json, next.items), LogView(next.db.logs))
                   == Apply(BookOf(Views(json, st.items), LogView(st.db.logs)), StoreBook.Insert(session, at, e), id)
  {
    BookAfterInsert(Views(json, st.items), LogView(st.db.logs), id, session, at, e);
    var tx, left;
    ghost var all;
    tx, left, ok, all := InsertItem(json, st.db, st.items, id, session, at, e, budget);
    if !ok || left == 0 {
      return st, false;
    }
    next := Contents(tx, all);
  }

  method InsertItem(json: Json, db: Db, ghost items: seq<Item>, id: int, session: string, at: int, e: Entry,
                    budget: nat)
    returns (tx: Db, left: nat, ok: bool, ghost all: seq<Item>)
    requires Lawful(json) && Represents(db, items) && id >= db.nextEntry
    ensures ok == (budget >= Statements(e))
    ensures ok ==> left == budget - Statements(e) && Represents(tx, all)
    ensures ok ==> tx.nextEntry == id + 1 && LogView(tx.logs) == LogView(db.logs)
    ensures ok ==> Views(json, all) == Views(json, items) + [Stored(id, session, Norm(session, e))]
  {
    tx, left, ok := InsertEntry(json, db, id, session, at, e, budget);
    InsertRepresents(json, db, items, id, session, at, e);
    ViewOfNew(json, items, id, session, at, e);
    all := items + [Item(RowOf(json, id, session, at, e), ChildrenOf(e))];
  }

  method DeleteTx(json: Json, st: State, session: string, budget: nat) returns (next: State, ok: bool)
    ensures ok == (budget >= 8)
    ensures !ok ==> next == st
    ensures ok ==> next.db.nextEntry == st.db.nextEntry
    ensures ok ==> LogView(next.db.logs) == LogView(st.db.logs) - {session}
    ensures ok ==> Views(json, next.items) == WithoutSession(Views(json, st.items), session)
  {
    var tx;
    tx, ok := DeleteStatements(st.db, session, budget);
    if !ok {
      return st, false;
    }
    DeleteRepresents(st.db, st.items, session);
    ViewOfWithout(json, st.items, session);
    LogsAfterDelete(st.db.logs, session);
    next := Contents(tx, Without(st.items, session));
  }

  method RenameTx(json: Json, st: State, from: string, to: string, budget: nat) returns (next: State, ok: bool)
    requires from != to
    ensures ok == (budget >= 4)
    ensures !ok ==> next == st
    ensures ok ==> next.db.nextEntry == st.db.nextEntry && next.db.logs == MoveLog(st.db.logs, from, to)
    ensures ok ==> Views(json, next.items) == Renamed(Views(json, st.items), from, to)
  {
    var tx;
    tx, ok := RenameStatements(st.db, from, to, budget);
    if !ok {
      return st, false;
    }
    RenameRepresents(st.db, st.items, from, to);
    ViewOfRelabelled(json, st.items, from, to);
    next := Contents(tx, Relabelled(st.items, from, to));
  }

  // ---- reading rows ----

  ghost predicate DistinctIds(rows: set<EntryRow>) {
    forall r, s :: r in rows && s in rows && r.id == s.id ==> r == s
  }

  /** The rows of a table in the order of its primary key. */
  method SortById(rows: set<EntryRow>) returns (out: seq<EntryRow>)
    requires DistinctIds(rows)
    ensures IdsRise(out) && forall r :: r in out <==> r in rows
  {
    var left := rows;
    out := [];
    while left != {}
      invariant left <= rows
      invariant forall r :: r in rows <==> r in left || r in out
      invariant IdsRise(out)
      invariant forall r, s :: r in out && s in left ==> r.id < s.id
      decreases left
    {
      LeastRow(left);
      var r :| r in left && forall s :: s in left ==> r.id <= s.id;
      out, left := out + [r], left - {r};
    }
  }

  function LogView(logs: map<string, LogRow>): map<string, Log> {
    map s | s in logs :: FromLogRow(logs[s])
  }

  lemma LogsAfterPut(logs: map<string, LogRow>, session: string, log: Log)
    ensures LogView(logs[session := ToLogRow(log)]) == LogView(logs)[session := NormLog(log)]
  {
    LogRoundTrip(log);
  }

  class Store {
    const json: Json
    const postgres: bool
    const eq: Equiv
    var state: State

    ghost predicate Valid() {
      Lawful(json)
    }

    /** Every stored entry in id order. */
    ghost function Entries(): seq<Stored>
      reads this
    {
      Views(json, state.items)
    }

    ghost function Logs(): map<string, Log>
      reads this
    {
      LogView(state.db.logs)
    }

    /** Above every id ever given out. */
    ghost function Next(): int
      reads this
    {
      state.db.nextEntry
    }

    /** What every session holds. */
    ghost function Book(): Book
      reads this
    {
      BookOf(Entries(), Logs())
    }

    /** A database with freshly created tables. */
    constructor (json: Json, postgres: bool, eq: Equiv)
      requires Lawful(json)
      ensures Valid() && Entries() == [] && Logs() == map[]
      ensures this.json == json && this.postgres == postgres && this.eq == eq
    {
      this.json, this.postgres, this.eq := json, postgres, eq;
      state := Contents(EMPTY, []);
    }

    // ---- reading ----

    /** The rows of `entries` in id order. */
    method ScanTable() returns (rows: seq<EntryRow>)
      requires Valid()
      ensures rows == RowsOf(state.items)
    {
      RowsAreDistinct(state.items, state.db.entries);
      RowsOfItems(state.items, state.db.entries);
      rows := SortById(state.db.entries);
      OneOrder(rows, RowsOf(state.items));
    }

    /** The database's answer to a statement. */
    method Select(text: string, args: seq<Value>) returns (rows: Option<seq<EntryRow>>)
      requires Valid()
      ensures rows == Execute(postgres, eq, text, args, RowsOf(state.items))
    {
      var table := ScanTable();
      rows := Execute(postgres, eq, text, args, table);
    }

    /** `List`: exactly the entries the query asks for, unless SQLite is sent a bare OFFSET. */
    method List(q: Query) returns (out: Option<seq<Stored>>)
      requires Valid()
      ensures out == if !postgres && q.limit <= 0 && q.offset > 0 then None else Some(WantedEntries(q, eq, Entries()))
      ensures out.Some? ==> ListsEntries(q, eq, Entries(), out.value)
    {
      WantedAreListed(json, eq, q, state.items);
      var clause, args := Where(q);
      var page;
      page, args := PageText(q, args);
      var text := Rebind(postgres, clause + page);
      ListMeansQuery(postgres, eq, q, RowsOf(state.items));
      var rows := Select(text, args);
      if rows.None? {
        return None;
      }
      ghost var picked := Ordered(q, SelectedItems(q, eq, state.items));
      WantedOfItems(json, eq, q, state.items);
      PickedAreItems(q, eq, state.items);
      ItemsFit(state.db, state.items, picked);
      var sts := Load(json, state.db, rows.value, picked);
      out := Some(sts);
    }

    /** `Count`: ignores limit and offset. */
    method Count(q: Query) returns (n: nat)
      requires Valid()
      ensures n == |SelectedEntries(q, eq, Entries())|
    {
      var clause, args := Where(q);
      var text := Rebind(postgres, clause);
      CountMeansQuery(postgres, eq, q, RowsOf(state.items));
      SelectedOfItems(json, eq, q, state.items);
      var rows := Select(text, args);
      n := |rows.value|;
    }

    /** `Get`: None is sql.ErrNoRows. */
    method Get(id: int) returns (out: Option<Stored>)
      requires Valid()
      ensures out.Some? ==> out.value in Entries() && out.value.id == id
      ensures out.Some? ==> forall st :: st in Entries() && st.id == id ==> st == out.value
      ensures out.None? ==> forall st :: st in Entries() ==> st.id != id
    {
      if r :| r in state.db.entries && r.id == id {
        assert Listed(state.items, r);
        ghost var it :| it in state.items && it.row == r;
        assert Fits(state.db, it);
        var st := LoadOne(json, state.db, r, it);
        InViews(json, state.items, it);
        OneViewPerId(json, state.items, it);
        out := Some(st);
      } else {
        NotInViews(json, state.items, state.db.entries, id);
        out := None;
      }
    }

    /** `GetLog`: a default log where none is stored. */
    method GetLog(session: string) returns (log: Log)
      ensures log == if session in Logs() then Logs()[session] else Log("1.3", Creator("", "", ""), None, "")
    {
      if session in state.db.logs {
        log := FromLogRow(state.db.logs[session]);
      } else {
        log := Log("1.3", Creator("", "", ""), None, "");
      }
    }

    /** `HasSession`. */
    method HasSession(session: string) returns (has: bool)
      requires Valid()
      ensures has == (SessionList(Entries(), session) != [])
    {
      SessionHasRows(json, state.items, state.db.entries, session);
      var n := |SessionRows(state.db.entries, session)|;
      has := n > 0;
    }

    // ---- writing ----

    /** `PutLog`: one upsert. */
    method PutLog(session: string, log: Log, budget: nat) returns (ok: bool)
      requires Valid()
      modifies this`state
      ensures Valid() && ok == (budget >= 1)
      ensures state.db == old(state.db).(logs := state.db.logs) && state.items == old(state.items)
      ensures Logs() == if ok then old(Logs())[session := NormLog(log)] else old(Logs())
    {
      if budget == 0 {
        return false;
      }
      LogsAfterPut(state.db.logs, session, log);
      state := Contents(state.db.(logs := state.db.logs[session := ToLogRow(log)]), state.items);
      ok := true;
    }

    /**
     * `Insert`, in one transaction: all of the entry or nothing. The new id is
     * above every id ever given out; `gap` ids may have been burnt meanwhile.
     */
    method Insert(session: string, e: Entry, at: int, gap: nat, budget: nat) returns (r: Outcome)
      requires Valid()
      modifies this`state
      ensures Valid() && Logs() == old(Logs())
      ensures r.Done? == (budget > Statements(e)) && r.Failed? == !r.Done?
      ensures r.Done? ==> r.id == old(Next()) + gap
      ensures r.Done? ==> Entries() == old(Entries()) + [Stored(r.id, session, Norm(session, e))] && Next() == r.id + 1
      ensures r.Done? ==> Book() == Apply(old(Book()), StoreBook.Insert(session, at, e), r.id)
      ensures r.Failed? ==> state == old(state)
    {
      var id := state.db.nextEntry + gap;
      var next, ok := InsertTx(json, state, id, session, at, e, budget);
      state := next;
      r := if ok then Done(id) else Failed;
    }

    /** `DeleteSession`, in one transaction. */
    method DeleteSession(session: string, budget: nat) returns (ok: bool)
      requires Valid()
      modifies this`state
      ensures Valid() && ok == (budget >= 8)
      ensures ok ==> Entries() == WithoutSession(old(Entries()), session) && Logs() == old(Logs()) - {session}
      ensures ok ==> Next() == old(Next())
      ensures !ok ==> state == old(state)
    {
      state, ok := DeleteTx(json, state, session, budget);
    }

    /** The check of `RenameSession`, a statement of its own: the empty name stands for every session. */
    method IsTaken(to: string) returns (taken: bool)
      requires Valid()
      ensures taken == (Keep(Entries(), (st: Stored) => to != "" ==> st.session == to) != [])
    {
      var q := Query(to, "", "", 0, "", 0, 0, false);
      var n := Count(q);
      KeepSame(Entries(), (st: Stored) => SelectsEntry(q, eq, st), (st: Stored) => to != "" ==> st.session == to);
      taken := n > 0;
    }

    /** The transaction of `RenameSession`, whatever the new name holds by then. */
    method MoveSession(from: string, to: string, budget: nat) returns (ok: bool)
      requires Valid() && from != to
      modifies this`state
      ensures Valid() && Next() == old(Next()) && ok == (budget >= 4)
      ensures ok ==> Entries() == Renamed(old(Entries()), from, to)
                     && state.db.logs == MoveLog(old(state.db.logs), from, to)
      ensures !ok ==> state == old(state)
    {
      state, ok := RenameTx(json, state, from, to, budget);
    }

    /** `RenameSession`: nothing to do for the same name, refused when the new one counts entries. */
    method RenameSession(from: string, to: string, budget: nat) returns (r: Outcome)
      requires Valid()
      modifies this`state
      ensures Valid() && Next() == old(Next())
      ensures r.Exists? <==> from != to && Keep(old(Entries()), (st: Stored) => to != "" ==> st.session == to) != []
      ensures !r.Exists? ==> r == if from == to || budget >= 4 then Done(0) else Failed
      ensures r.Done? && from != to ==>
                Entries() == Renamed(old(Entries()), from, to) && state.db.logs == MoveLog(old(state.db.logs), from, to)
      ensures !r.Done? || from == to ==> state == old(state)
    {
      if from == to {
        return Done(0);
      }
      var taken := IsTaken(to);
      if taken {
        return Exists;
      }
      var ok := MoveSession(from, to, budget);
      r := if ok then Done(0) else Failed;
    }
  }

  // ---- lemmas for the methods ----

  /** A load of one child list. */
  method LoadList<T(==)>(t: Table<T>, id: int, kind: Kind, ghost vals: seq<T>) returns (out: seq<T>)
    requires Holds(t, id, kind, vals)
    ensures out == vals
  {
    var rows := SelectRows(t, id, kind);
    OrderIsRestored(rows, Tables.Rows(t, id, kind), vals);
    out := [];
    for i := 0 to |rows|
      invariant out == Vals(rows)[..i]
    {
      out := out + [rows[i].val];
    }
  }

  /** `loadChildren`: every list by its own query, parameters only where there is post data. */
  method LoadChildren(json: Json, db: Db, r: EntryRow, ghost kids: Children) returns (c: Children)
    requires HasKids(db, r.id, kids)
    ensures c == if r.hasPost == 1 then kids else kids.(params := [])
  {
    var reqHeaders := LoadList(db.headers, r.id, OfRequest, kids.reqHeaders);
    var respHeaders := LoadList(db.headers, r.id, OfResponse, kids.respHeaders);
    var reqCookies := LoadList(db.cookies, r.id, OfRequest, kids.reqCookies);
    var respCookies := LoadList(db.cookies, r.id, OfResponse, kids.respCookies);
    var query := LoadList(db.queryParams, r.id, Only, kids.query);
    var params := [];
    if r.hasPost == 1 {
      params := LoadList(db.postParams, r.id, Only, kids.params);
    }
    var before := LoadList(db.cacheStates, r.id, Before, kids.before);
    var after := LoadList(db.cacheStates, r.id, After, kids.after);
    c := Children(reqHeaders, respHeaders, reqCookies, respCookies, query, params, before, after);
  }

  /** A scanned row with its child lists. */
  method LoadOne(json: Json, db: Db, r: EntryRow, ghost it: Item) returns (st: Stored)
    requires Fits(db, it) && it.row == r
    ensures st == View(json, it)
  {
    var c := LoadChildren(json, db, r, it.kids);
    st := Stored(r.id, r.session, EntryOf(json, r, c));
  }

  method Load(json: Json, db: Db, rows: seq<EntryRow>, ghost picked: seq<Item>) returns (sts: seq<Stored>)
    requires rows == RowsOf(picked) && AllFit(db, picked)
    ensures sts == Views(json, picked)
  {
    sts := [];
    for i := 0 to |rows|
      invariant sts == Views(json, picked[..i])
    {
      MapAt(picked, (it: Item) => it.row, i);
      var st := LoadOne(json, db, rows[i], picked[i]);
      OneMoreView(json, picked, i, st);
      sts := sts + [st];
    }
    assert picked[..|rows|] == picked;
  }

  lemma OneMoreView(json: Json, picked: seq<Item>, i: nat, st: Stored)
    requires i < |picked| && st == View(json, picked[i])
    ensures Views(json, picked[..i + 1]) == Views(json, picked[..i]) + [st]
  {
    assert picked[..i + 1] == picked[..i] + [picked[i]];
    MapSnoc(picked[..i], picked[i], (it: Item) => View(json, it));
  }

  lemma ItemsFit(db: Db, items: seq<Item>, picked: seq<Item>)
    requires AllFit(db, items) && forall it :: it in picked ==> it in items
    ensures AllFit(db, picked)
  {
  }

  lemma RowsAreDistinct(items: seq<Item>, rows: set<EntryRow>)
    requires Sorted(items) && SameRows(items, rows)
    ensures DistinctIds(rows)
  {
    forall r, s | r in rows && s in rows && r.id == s.id
      ensures r == s
    {
      assert Listed(items, r) && Listed(items, s);
      var x :| x in items && x.row == r;
      var y :| y in items && y.row == s;
      SortedAreDistinct(items, x, y);
    }
  }

  lemma {:induction false} LeastRow(left: set<EntryRow>)
    requires left != {}
    ensures exists r :: r in left && forall s :: s in left ==> r.id <= s.id
    decreases left
  {
    var r :| r in left;
    if exists s :: s in left && s.id < r.id {
      var s :| s in left && s.id < r.id;
      var rest := left - {r};
      assert s in rest;
      LeastRow(rest);
      var m :| m in rest && forall x :: x in rest ==> m.id <= x.id;
      assert forall x :: x in left ==> x == r || x in rest;
    }
  }

  lemma InViews(json: Json, items: seq<Item>, it: Item)
    requires it in items
    ensures View(json, it) in Views(json, items)
  {
    var i :| 0 <= i < |items| && items[i] == it;
    MapAt(items, (x: Item) => View(json, x), i);
    assert Views(json, items)[i] == View(json, it);
  }

  lemma OneViewPerId(json: Json, items: seq<Item>, it: Item)
    requires Sorted(items) && it in items
    ensures forall st :: st in Views(json, items) && st.id == it.row.id ==> st == View(json, it)
  {
    forall st | st in Views(json, items) && st.id == it.row.id
      ensures st == View(json, it)
    {
      var i :| 0 <= i < |items| && Views(json, items)[i] == st;
      MapAt(items, (x: Item) => View(json, x), i);
      SortedAreDistinct(items, items[i], it);
    }
  }

  lemma NotInViews(json: Json, items: seq<Item>, rows: set<EntryRow>, id: int)
    requires SameRows(items, rows) && forall r :: r in rows ==> r.id != id
    ensures forall st :: st in Views(json, items) ==> st.id != id
  {
    forall st | st in Views(json, items)
      ensures st.id != id
    {
      var i :| 0 <= i < |items| && Views(json, items)[i] == st;
      MapAt(items, (x: Item) => View(json, x), i);
      assert items[i].row in rows;
    }
  }

  function SessionRows(rows: set<EntryRow>, session: string): set<EntryRow> {
    set r | r in rows && r.session == session
  }

  lemma SessionHasRows(json: Json, items: seq<Item>, rows: set<EntryRow>, session: string)
    requires SameRows(items, rows)
    ensures |SessionRows(rows, session)| > 0 <==> SessionList(Views(json, items), session) != []
  {
    var log := Views(json, items);
    if SessionRows(rows, session) != {} {
      var r :| r in SessionRows(rows, session);
      assert Listed(items, r);
      var it :| it in items && it.row == r;
      InViews(json, items, it);
      KeepIn(log, (st: Stored) => st.session == session, View(json, it));
    } else {
      forall st | st in log
        ensures st.session != session
      {
        var i :| 0 <= i < |items| && log[i] == st;
        MapAt(items, (x: Item) => View(json, x), i);
        assert items[i].row in rows && items[i].row !in SessionRows(rows, session);
      }
      KeepNone(log, (st: Stored) => st.session == session);
    }
  }
}
