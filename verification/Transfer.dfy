/**
 * Whole sessions between stores: `save` (internal/repl/repl.go) and HAR export
 * and import (internal/store/hario.go). A document is a value: its JSON text is
 * not modelled, a text that does not decode is None.
 */
module Transfer {
  import opened Basics
  import opened EntryRows
  import Glob
  import opened Har
  import opened Listing
  import opened Lists
  import opened Queries
  import opened SqlStore
  import opened StoreBook
  import opened StoreDb
  import opened StoreRun

  /** The entries of one session in order, without their ids. */
  function EntriesIn(book: Book, session: string): seq<Entry> {
    Map(book.List(session), (k: Kept) => k.entry)
  }

  function NormAll(entries: seq<Entry>, session: string): seq<Entry> {
    Map(entries, (e: Entry) => Norm(session, e))
  }

  predicate SameElsewhere(was: Book, now: Book, session: string) {
    now.lists - {session} == was.lists - {session} && now.logs - {session} == was.logs - {session}
  }

  lemma EntriesAfterInsert(book: Book, session: string, at: int, e: Entry, o: Outcome)
    ensures var now := Step(book, Insert(session, at, e), o);
            && EntriesIn(now, session) == EntriesIn(book, session) + (if o.Done? then [Norm(session, e)] else [])
            && SameElsewhere(book, now, session) && now.logs == book.logs
  {
    if o.Done? {
      MapSnoc(book.List(session), Kept(o.id, Norm(session, e)), (k: Kept) => k.entry);
    }
  }

  lemma EntriesAfterPut(book: Book, session: string, log: Log, o: Outcome)
    ensures var now := Step(book, PutLog(session, log), o);
            && EntriesIn(now, session) == EntriesIn(book, session) && SameElsewhere(book, now, session)
            && (o.Done? ==> session in now.logs && now.logs[session] == NormLog(log))
  {
  }

  lemma SameElsewhereTwice(a: Book, b: Book, c: Book, session: string)
    requires SameElsewhere(a, b, session) && SameElsewhere(b, c, session)
    ensures SameElsewhere(a, c, session)
  {
  }

  lemma EntriesAfterClear(book: Book, session: string, log: Log)
    ensures var now := Apply(Apply(book, Delete(session), 0), PutLog(session, log), 0);
            && EntriesIn(now, session) == [] && SameElsewhere(book, now, session)
            && session in now.logs && now.logs[session] == NormLog(log)
    ensures SameElsewhere(book, Apply(book, Delete(session), 0), session)
    ensures EntriesIn(Apply(book, Delete(session), 0), session) == []
  {
  }

  /** What a store reads back is in normal form. */
  lemma ViewsAreNormal(json: Json, items: seq<Item>)
    ensures AllNormal(Views(json, items))
  {
    forall st | st in Views(json, items)
      ensures Norm(st.session, st.entry) == st.entry
    {
      var i :| 0 <= i < |items| && Views(json, items)[i] == st;
      MapAt(items, (it: Item) => View(json, it), i);
      RelabelledRow(json, items[i].row, items[i].kids, "");
    }
  }

  /** Entries read from one session, stored under another, differ in the name `_lebedev` carries and nothing else. */
  lemma NormOnlyRenames(from: string, to: string, e: Entry)
    requires Norm(from, e) == e
    ensures Norm(to, e) == e.(lebedev := if e.lebedev.Some? then Some(e.lebedev.value.(session := to)) else None)
    ensures from == to ==> Norm(to, e) == e
  {
  }

  // ---- the insert loop ----

  method InsertOne(s: Store, session: string, e: Entry, at: int, gap: nat, budget: nat) returns (ok: bool)
    requires s.Valid()
    modifies s`state
    ensures SameElsewhere(old(s.Book()), s.Book(), session) && s.Book().logs == old(s.Book()).logs
    ensures EntriesIn(s.Book(), session) == old(EntriesIn(s.Book(), session)) + if ok then [Norm(session, e)] else []
  {
    ghost var was := s.Book();
    var o := TryInsert(s, session, e, at, gap, budget);
    EntriesAfterInsert(was, session, at, e, o);
    ok := o.Done?;
  }

  /** Inserts in order until one fails; `n` is how many were stored. */
  method InsertEntries(s: Store, session: string, entries: seq<Entry>, gaps: nat -> nat, budgets: nat -> nat)
    returns (n: nat, ok: bool)
    requires s.Valid()
    modifies s`state
    ensures n <= |entries| && (ok <==> n == |entries|)
    ensures SameElsewhere(old(s.Book()), s.Book(), session) && s.Book().logs == old(s.Book()).logs
    ensures EntriesIn(s.Book(), session) == old(EntriesIn(s.Book(), session)) + NormAll(entries[..n], session)
  {
    ghost var book := s.Book();
    ghost var was, now := EntriesIn(book, session), book;
    n, ok := 0, true;
    assert was + NormAll(entries[..0], session) == was;
    while n < |entries|
      invariant n <= |entries| && ok && s.Book() == now
      invariant SameElsewhere(book, now, session) && now.logs == book.logs
      invariant EntriesIn(now, session) == was + NormAll(entries[..n], session)
    {
      ok := InsertOne(s, session, entries[n], n, gaps(n), budgets(n));
      now := s.Book();
      if !ok {
        return;
      }
      OneMoreEntry(was, entries, n, session);
      n := n + 1;
    }
    assert entries[..n] == entries;
  }

  lemma OneMoreEntry(was: seq<Entry>, entries: seq<Entry>, n: nat, session: string)
    requires n < |entries|
    ensures was + NormAll(entries[..n + 1], session)
            == was + NormAll(entries[..n], session) + [Norm(session, entries[n])]
  {
    assert entries[..n + 1] == entries[..n] + [entries[n]];
    MapSnoc(entries[..n], entries[n], (e: Entry) => Norm(session, e));
  }

  /** What an empty list becomes when the first `n` entries are stored. */
  lemma NormOfTaken(entries: seq<Entry>, n: nat, session: string)
    requires n <= |entries|
    ensures [] + NormAll(entries[..n], session) == NormAll(entries[..n], session)
    ensures n == |entries| ==> entries[..n] == entries
  {
  }

  // ---- save ----

  datatype SaveResult = NoEntries | Error | Saved(n: nat)

  const LEBEDEV := Creator("lebedev", "1.3", "")

  const SAVED := Log("1.3", LEBEDEV, None, "")

  function BySession(id: string): Query {
    Query(id, "", "", 0, "", 0, 0, true)
  }

  /** Listing a named session in ascending order gives that session's entries. */
  lemma ListingIsSession(eq: Glob.Equiv, log: seq<Stored>, logs: map<string, Log>, id: string)
    requires id != ""
    ensures Map(WantedEntries(BySession(id), eq, log), (st: Stored) => st.entry) == EntriesIn(BookOf(log, logs), id)
  {
    var q := BySession(id);
    var kept := Keep(log, (st: Stored) => st.session == id);
    KeepSame(log, (st: Stored) => SelectsEntry(q, eq, st), (st: Stored) => st.session == id);
    assert WantedEntries(q, eq, log) == kept;
    MapMap(kept, KeptOf, (k: Kept) => k.entry, (st: Stored) => st.entry);
    BookLists(log, logs, id);
  }

  lemma SessionIsNormal(log: seq<Stored>, logs: map<string, Log>, id: string)
    requires AllNormal(log)
    ensures NormAll(EntriesIn(BookOf(log, logs), id), id) == EntriesIn(BookOf(log, logs), id)
  {
    BookLists(log, logs, id);
    var kept := Keep(log, (st: Stored) => st.session == id);
    MapMap(kept, KeptOf, (k: Kept) => k.entry, (st: Stored) => st.entry);
    var entries := Map(kept, (st: Stored) => st.entry);
    forall st | st in kept
      ensures Norm(id, st.entry) == st.entry
    {
      KeepIn(log, (x: Stored) => x.session == id, st);
    }
    MapMap(kept, (st: Stored) => st.entry, (e: Entry) => Norm(id, e), (st: Stored) => st.entry);
  }

  /** The durable half of `cmdSave`: drop the stored copy, write the log, insert everything. */
  method Overwrite(durable: Store, id: string, entries: seq<Entry>, gaps: nat -> nat, deleteBudget: nat,
                   logBudget: nat, budgets: nat -> nat)
    returns (n: nat, ok: bool)
    requires durable.Valid()
    modifies durable`state
    ensures n <= |entries| && SameElsewhere(old(durable.Book()), durable.Book(), id)
    ensures ok ==> EntriesIn(durable.Book(), id) == NormAll(entries, id)
    ensures ok ==> id in durable.Book().logs && durable.Book().logs[id] == SAVED
    ensures !ok ==> durable.Book() == old(durable.Book())
                    || EntriesIn(durable.Book(), id) == NormAll(entries[..n], id)
  {
    n := 0;
    ghost var book := durable.Book();
    assert NormAll(entries[..0], id) == [];
    ok := Clear(durable, id, deleteBudget, logBudget);
    if !ok {
      return;
    }
    ghost var cleared := durable.Book();
    n, ok := InsertEntries(durable, id, entries, gaps, budgets);
    ghost var now := durable.Book();
    SameElsewhereTwice(book, cleared, now, id);
    NormOfTaken(entries, n, id);
  }

  method Clear(durable: Store, id: string, deleteBudget: nat, logBudget: nat) returns (ok: bool)
    requires durable.Valid()
    modifies durable`state
    ensures SameElsewhere(old(durable.Book()), durable.Book(), id)
    ensures ok ==> EntriesIn(durable.Book(), id) == []
    ensures ok ==> id in durable.Book().logs && durable.Book().logs[id] == SAVED
    ensures !ok ==> durable.Book() == old(durable.Book()) || EntriesIn(durable.Book(), id) == []
  {
    EntriesAfterClear(durable.Book(), id, SAVED);
    var o := Try(durable, Delete(id), 0, deleteBudget);
    if !o.Done? {
      return false;
    }
    o := Try(durable, PutLog(id, SAVED), 0, logBudget);
    ok := o.Done?;
  }

  /**
   * `cmdSave` for the live session `id`. Success makes the durable session equal
   * to the live one whatever it held before, so saving again after more captures
   * gives the longer list; a failure leaves a prefix, or the old copy.
   */
  method Save(id: string, mem: Store, durable: Store, gaps: nat -> nat, deleteBudget: nat, logBudget: nat,
              budgets: nat -> nat)
    returns (r: SaveResult)
    requires mem.Valid() && durable.Valid() && mem != durable && id != ""
    modifies durable`state
    ensures SameElsewhere(old(durable.Book()), durable.Book(), id)
    ensures r.NoEntries? <==> EntriesIn(mem.Book(), id) == []
    ensures r.NoEntries? ==> durable.Book() == old(durable.Book())
    ensures r.Saved? ==> EntriesIn(durable.Book(), id) == EntriesIn(mem.Book(), id)
    ensures r.Saved? ==> r.n == |EntriesIn(mem.Book(), id)|
    ensures r.Saved? ==> id in durable.Book().logs && durable.Book().logs[id] == SAVED
    ensures r.Error? ==> EntriesIn(durable.Book(), id) <= EntriesIn(mem.Book(), id)
                         || durable.Book() == old(durable.Book())
  {
    ghost var live := EntriesIn(mem.Book(), id);
    var entries := Live(id, mem);
    if |entries| == 0 {
      return NoEntries;
    }
    var n, ok := Overwrite(durable, id, entries, gaps, deleteBudget, logBudget, budgets);
    PrefixOfNormal(entries, n, id);
    r := if ok then Saved(|entries|) else Error;
  }

  /** The live half: the session's entries in capture order, already in normal form. */
  method Live(id: string, mem: Store) returns (entries: seq<Entry>)
    requires mem.Valid() && id != ""
    ensures entries == EntriesIn(mem.Book(), id) && NormAll(entries, id) == entries
  {
    var stored := mem.List(BySession(id));
    ListingIsSession(mem.eq, mem.Entries(), mem.Logs(), id);
    ViewsAreNormal(mem.json, mem.state.items);
    SessionIsNormal(mem.Entries(), mem.Logs(), id);
    entries := EntriesFrom(stored.value);
  }

  /** The `st.Entry` of each listed entry. */
  method EntriesFrom(stored: seq<Stored>) returns (entries: seq<Entry>)
    ensures entries == Map(stored, (st: Stored) => st.entry)
  {
    entries := [];
    for i := 0 to |stored|
      invariant entries == Map(stored[..i], (st: Stored) => st.entry)
    {
      assert stored[..i + 1] == stored[..i] + [stored[i]];
      MapSnoc(stored[..i], stored[i], (st: Stored) => st.entry);
      entries := entries + [stored[i].entry];
    }
    assert stored[..|stored|] == stored;
  }

  lemma PrefixOfNormal(entries: seq<Entry>, n: nat, id: string)
    requires n <= |entries| && NormAll(entries, id) == entries
    ensures NormAll(entries[..n], id) == entries[..n]
  {
    assert entries[..n] + entries[n..] == entries;
    MapAppend(entries[..n], entries[n..], (e: Entry) => Norm(id, e));
  }

  // ---- export and import ----

  /** A HAR document, decoded. */
  datatype Document = Document(log: Log, entries: seq<Entry>)

  /** `exportLog`: the stored log, with lebedev as creator where it names none. */
  function ExportLog(logs: map<string, Log>, session: string): Log {
    if session == "" then SAVED
    else if session !in logs then SAVED
    else if logs[session].creator.name != "" then logs[session]
    else logs[session].(creator := LEBEDEV)
  }

  /** `Export`: None where the listing fails. */
  method Export(s: Store, q: Query) returns (doc: Option<Document>)
    requires s.Valid()
    ensures doc.None? <==> !s.postgres && q.limit <= 0 && q.offset > 0
    ensures doc.Some? ==>
              doc.value.entries
              == Map(WantedEntries(q.(ascending := true), s.eq, s.Entries()), (st: Stored) => st.entry)
    ensures doc.Some? ==> doc.value.log == ExportLog(s.Logs(), q.session)
  {
    var stored := s.List(q.(ascending := true));
    if stored.None? {
      return None;
    }
    var log := SAVED;
    if q.session != "" {
      log := s.GetLog(q.session);
      if log.creator.name == "" {
        log := log.(creator := LEBEDEV);
      }
    }
    var entries := EntriesFrom(stored.value);
    doc := Some(Document(log, entries));
  }

  /** `Import`: how many entries were stored, and whether that was all of them. */
  method Import(s: Store, session: string, doc: Option<Document>, gaps: nat -> nat, logBudget: nat, budgets: nat -> nat)
    returns (n: nat, ok: bool)
    requires s.Valid()
    modifies s`state
    ensures SameElsewhere(old(s.Book()), s.Book(), session)
    ensures doc.None? ==> n == 0 && !ok && s.Book() == old(s.Book())
    ensures doc.Some? ==> n <= |doc.value.entries| && (ok ==> n == |doc.value.entries|)
    ensures doc.Some? ==> EntriesIn(s.Book(), session)
                          == old(EntriesIn(s.Book(), session)) + NormAll(doc.value.entries[..n], session)
    ensures ok ==> session in s.Book().logs && s.Book().logs[session] == NormLog(doc.value.log)
  {
    if doc.None? {
      return 0, false;
    }
    ghost var book := s.Book();
    n := 0;
    assert EntriesIn(book, session) + NormAll(doc.value.entries[..0], session) == EntriesIn(book, session);
    ok := ImportLog(s, session, doc.value.log, logBudget);
    if !ok {
      return;
    }
    ghost var logged := s.Book();
    n, ok := InsertEntries(s, session, doc.value.entries, gaps, budgets);
    SameElsewhereTwice(book, logged, s.Book(), session);
  }

  method ImportLog(s: Store, session: string, log: Log, budget: nat) returns (ok: bool)
    requires s.Valid()
    modifies s`state
    ensures SameElsewhere(old(s.Book()), s.Book(), session)
    ensures EntriesIn(s.Book(), session) == old(EntriesIn(s.Book(), session))
    ensures ok ==> session in s.Book().logs && s.Book().logs[session] == NormLog(log)
  {
    ghost var was := s.Book();
    var o := Try(s, PutLog(session, log), 0, budget);
    EntriesAfterPut(was, session, log, o);
    ok := o.Done?;
  }

  /** Exporting one session: its entries in order, each already in normal form. */
  method ExportSession(src: Store, from: string) returns (doc: Document)
    requires src.Valid() && from != ""
    ensures doc.entries == EntriesIn(src.Book(), from) && NormAll(doc.entries, from) == doc.entries
    ensures doc.log == ExportLog(src.Logs(), from)
  {
    ListingIsSession(src.eq, src.Entries(), src.Logs(), from);
    ViewsAreNormal(src.json, src.state.items);
    SessionIsNormal(src.Entries(), src.Logs(), from);
    var exported := Export(src, BySession(from));
    doc := exported.value;
  }

  /**
   * Exporting a session and importing it into an empty one preserves the list of
   * entries but for the session `_lebedev` names, which becomes the new one; under
   * the same name it is preserved exactly.
   */
  method Transfer(src: Store, dst: Store, from: string, to: string, gaps: nat -> nat, logBudget: nat,
                  budgets: nat -> nat)
    returns (ok: bool)
    requires src.Valid() && dst.Valid() && src != dst && from != "" && EntriesIn(dst.Book(), to) == []
    modifies dst`state
    ensures SameElsewhere(old(dst.Book()), dst.Book(), to)
    ensures ok ==> EntriesIn(dst.Book(), to) == NormAll(EntriesIn(src.Book(), from), to)
    ensures ok && from == to ==> EntriesIn(dst.Book(), to) == EntriesIn(src.Book(), from)
    ensures NormAll(EntriesIn(src.Book(), from), from) == EntriesIn(src.Book(), from)
  {
    var doc := ExportSession(src, from);
    ghost var book, entries := src.Book(), doc.entries;
    var n;
    n, ok := Import(dst, to, Some(doc), gaps, logBudget, budgets);
    assert src.Book() == book;
    NormOfTaken(entries, n, to);
  }
}
