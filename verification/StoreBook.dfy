/**
 * What the store is for: a book from session name to an ordered list of entries
 * with their ids, plus one log record per session; and how the log of all
 * entries in id order relates to it (internal/store/store.go, sessions.go).
 */
module StoreBook {
  import opened EntryRows
  import opened Har
  import opened Lists
  import opened StoreDb

  // ---- all entries in id order ----

  function View(json: Json, it: Item): Stored {
    Stored(it.row.id, it.row.session, EntryOf(json, it.row, it.kids))
  }

  function Views(json: Json, items: seq<Item>): seq<Stored> {
    Map(items, (it: Item) => View(json, it))
  }

  function Moved(st: Stored, from: string, to: string): Stored {
    if st.session == from then Stored(st.id, to, Norm(to, st.entry)) else st
  }

  function WithoutSession(log: seq<Stored>, session: string): seq<Stored> {
    Keep(log, (st: Stored) => st.session != session)
  }

  function Renamed(log: seq<Stored>, from: string, to: string): seq<Stored> {
    Map(log, (st: Stored) => Moved(st, from, to))
  }

  lemma ViewOfNew(json: Json, items: seq<Item>, id: int, session: string, at: int, e: Entry)
    requires Lawful(json)
    ensures Views(json, items + [Item(RowOf(json, id, session, at, e), ChildrenOf(e))])
            == Views(json, items) + [Stored(id, session, Norm(session, e))]
  {
    var it := Item(RowOf(json, id, session, at, e), ChildrenOf(e));
    RowsReassemble(json, id, session, at, e);
    MapSnoc(items, it, (x: Item) => View(json, x));
  }

  lemma ViewOfWithout(json: Json, items: seq<Item>, session: string)
    ensures Views(json, Without(items, session)) == WithoutSession(Views(json, items), session)
  {
    KeepOfMap(items, (it: Item) => View(json, it), (st: Stored) => st.session != session,
              (it: Item) => it.row.session != session);
  }

  lemma ViewOfRelabelled(json: Json, items: seq<Item>, from: string, to: string)
    ensures Views(json, Relabelled(items, from, to)) == Renamed(Views(json, items), from, to)
  {
    var view := (it: Item) => View(json, it);
    var both := (it: Item) => View(json, Relabel(it, from, to));
    forall it | it in items
      ensures both(it) == Moved(View(json, it), from, to)
    {
      RelabelledRow(json, it.row, it.kids, to);
    }
    MapMap(items, (it: Item) => Relabel(it, from, to), view, both);
    MapMap(items, view, (st: Stored) => Moved(st, from, to), both);
  }

  // ---- the book ----

  datatype Kept = Kept(id: int, entry: Entry)

  /** Only sessions with entries are in `lists`. */
  datatype Book = Book(lists: map<string, seq<Kept>>, logs: map<string, Log>)
  {
    function List(session: string): seq<Kept> {
      if session in lists then lists[session] else []
    }
  }

  function KeptOf(st: Stored): Kept {
    Kept(st.id, st.entry)
  }

  /** The entries of one session, in id order. */
  function SessionList(log: seq<Stored>, session: string): seq<Kept> {
    Map(Keep(log, (st: Stored) => st.session == session), KeptOf)
  }

  function Sessions(log: seq<Stored>): set<string> {
    set st | st in log :: st.session
  }

  /** The book a log amounts to. */
  function BookOf(log: seq<Stored>, logs: map<string, Log>): Book {
    Book(map s | s in Sessions(log) :: SessionList(log, s), logs)
  }

  /** Every stored entry is in the form it is read back in. */
  ghost predicate AllNormal(log: seq<Stored>) {
    forall st :: st in log ==> Norm(st.session, st.entry) == st.entry
  }

  datatype Op =
    | Insert(session: string, at: int, entry: Entry)
    | PutLog(session: string, log: Log)
    | Delete(session: string)
    | Rename(from: string, to: string)

  /** `RenameSession` refuses a name with entries; the empty name stands for every session at once. */
  predicate Refused(book: Book, to: string) {
    if to == "" then book.lists != map[] else to in book.lists
  }

  function MovedKept(k: Kept, to: string): Kept {
    Kept(k.id, Norm(to, k.entry))
  }

  /** What one operation does to the book; `id` is the one a new entry was given. */
  function Apply(book: Book, op: Op, id: int): Book {
    match op
    case Insert(session, at, e) =>
      book.(lists := book.lists[session := book.List(session) + [Kept(id, Norm(session, e))]])
    case PutLog(session, log) => book.(logs := book.logs[session := NormLog(log)])
    case Delete(session) => Book(book.lists - {session}, book.logs - {session})
    case Rename(from, to) =>
      if from == to then book
      else
        Book(if from in book.lists
             then (book.lists - {from})[to := Map(book.lists[from], (k: Kept) => MovedKept(k, to))] else book.lists,
             if from in book.logs then (book.logs - {from})[to := book.logs[from]] else book.logs - {to})
  }

  lemma ListAfterInsert(log: seq<Stored>, st: Stored, s: string)
    ensures SessionList(log + [st], s)
            == if s == st.session then SessionList(log, s) + [KeptOf(st)] else SessionList(log, s)
  {
    KeepSnoc(log, st, (x: Stored) => x.session == s);
    MapSnoc(Keep(log, (x: Stored) => x.session == s), st, KeptOf);
    assert Keep(log, (x: Stored) => x.session == s) + [] == Keep(log, (x: Stored) => x.session == s);
  }

  lemma ListAfterDelete(log: seq<Stored>, session: string, s: string)
    ensures SessionList(WithoutSession(log, session), s) == if s == session then [] else SessionList(log, s)
  {
    var p := (st: Stored) => st.session != session;
    var q := (st: Stored) => st.session == s;
    KeepKeep(log, p, q, (st: Stored) => st.session != session && st.session == s);
    if s == session {
      KeepNone(log, (st: Stored) => st.session != session && st.session == s);
    } else {
      KeepSame(log, (st: Stored) => st.session != session && st.session == s, q);
    }
  }

  /** Renaming moves one session's list to a name that had none, and no other list changes. */
  lemma ListAfterRename(log: seq<Stored>, from: string, to: string, s: string)
    requires from != to && (s == to ==> SessionList(log, to) == [])
    ensures SessionList(Renamed(log, from, to), s)
            == if s == from then []
               else if s == to then Map(SessionList(log, from), (k: Kept) => MovedKept(k, to))
               else SessionList(log, s)
  {
    var move := (st: Stored) => Moved(st, from, to);
    if s == to {
      NoneUnder(log, to);
    }
    var was := if s == to then from else s;
    var q := (st: Stored) => st.session == was && s != from;
    forall st | st in log
      ensures q(st) <==> move(st).session == s
    {
    }
    KeepOfMap(log, move, (st: Stored) => st.session == s, q);
    if s == from {
      KeepNone(log, q);
    } else {
      var kept := Keep(log, q);
      KeepSame(log, q, (st: Stored) => st.session == was);
      if s == to {
        var both := (st: Stored) => Kept(st.id, Norm(to, st.entry));
        forall st | st in kept
          ensures KeptOf(move(st)) == both(st)
        {
          KeepIn(log, q, st);
        }
        MapMap(kept, move, KeptOf, both);
        MapMap(kept, KeptOf, (k: Kept) => MovedKept(k, to), both);
      } else {
        forall st | st in kept
          ensures KeptOf(move(st)) == KeptOf(st)
        {
          KeepIn(log, q, st);
        }
        MapMap(kept, move, KeptOf, KeptOf);
      }
    }
  }

  lemma NoneUnder(log: seq<Stored>, s: string)
    requires SessionList(log, s) == []
    ensures forall st :: st in log ==> st.session != s
  {
    forall st | st in log
      ensures st.session != s
    {
      KeepIn(log, (x: Stored) => x.session == s, st);
    }
  }

  lemma ListOfSession(log: seq<Stored>, s: string)
    ensures SessionList(log, s) != [] <==> s in Sessions(log)
  {
    if s in Sessions(log) {
      var st :| st in log && st.session == s;
      KeepIn(log, (x: Stored) => x.session == s, st);
    } else {
      KeepNone(log, (x: Stored) => x.session == s);
    }
  }

  /** What the book of a log lists under any name. */
  lemma BookLists(log: seq<Stored>, logs: map<string, Log>, s: string)
    ensures BookOf(log, logs).List(s) == SessionList(log, s)
    ensures s in BookOf(log, logs).lists <==> SessionList(log, s) != []
  {
    ListOfSession(log, s);
  }

  ghost predicate NoEmptyList(book: Book) {
    forall s :: s in book.lists ==> book.lists[s] != []
  }

  lemma BookHasNoEmptyList(log: seq<Stored>, logs: map<string, Log>)
    ensures NoEmptyList(BookOf(log, logs))
  {
    forall s | s in BookOf(log, logs).lists
      ensures BookOf(log, logs).lists[s] != []
    {
      BookLists(log, logs, s);
    }
  }

  /** Books without empty lists are told apart by what they list. */
  lemma SameLists(a: Book, b: Book)
    requires NoEmptyList(a) && NoEmptyList(b) && a.logs == b.logs
    requires forall s :: a.List(s) == b.List(s)
    ensures a == b
  {
    forall s
      ensures s in a.lists <==> s in b.lists
    {
      assert a.List(s) == b.List(s);
    }
    forall s | s in a.lists
      ensures a.lists[s] == b.lists[s]
    {
      assert a.List(s) == b.List(s);
    }
    assert a.lists == b.lists;
  }

  lemma RenameLists(book: Book, from: string, to: string, id: int, s: string)
    requires NoEmptyList(book) && from != to && to !in book.lists
    ensures NoEmptyList(Apply(book, Rename(from, to), id))
    ensures Apply(book, Rename(from, to), id).List(s)
            == if s == from then []
               else if s == to then Map(book.List(from), (k: Kept) => MovedKept(k, to))
               else book.List(s)
  {
  }

  lemma BookAfterInsert(log: seq<Stored>, logs: map<string, Log>, id: int, session: string, at: int, e: Entry)
    ensures BookOf(log + [Stored(id, session, Norm(session, e))], logs)
            == Apply(BookOf(log, logs), Insert(session, at, e), id)
  {
    var st := Stored(id, session, Norm(session, e));
    var now, want := BookOf(log + [st], logs), Apply(BookOf(log, logs), Insert(session, at, e), id);
    BookHasNoEmptyList(log, logs);
    BookHasNoEmptyList(log + [st], logs);
    forall s
      ensures now.List(s) == want.List(s)
    {
      ListAfterInsert(log, st, s);
      BookLists(log, logs, s);
      BookLists(log + [st], logs, s);
    }
    SameLists(now, want);
  }

  lemma BookAfterDelete(log: seq<Stored>, logs: map<string, Log>, session: string, id: int)
    ensures BookOf(WithoutSession(log, session), logs - {session}) == Apply(BookOf(log, logs), Delete(session), id)
  {
    var now := BookOf(WithoutSession(log, session), logs - {session});
    var want := Apply(BookOf(log, logs), Delete(session), id);
    BookHasNoEmptyList(log, logs);
    BookHasNoEmptyList(WithoutSession(log, session), logs - {session});
    forall s
      ensures now.List(s) == want.List(s)
    {
      ListAfterDelete(log, session, s);
      BookLists(log, logs, s);
      BookLists(WithoutSession(log, session), logs - {session}, s);
    }
    SameLists(now, want);
  }

  lemma BookAfterRename(log: seq<Stored>, logs: map<string, Log>, from: string, to: string, moved: map<string, Log>,
                        id: int)
    requires from != to && SessionList(log, to) == []
    requires moved == if from in logs then (logs - {from})[to := logs[from]] else logs - {to}
    ensures BookOf(Renamed(log, from, to), moved) == Apply(BookOf(log, logs), Rename(from, to), id)
  {
    var book, now := BookOf(log, logs), BookOf(Renamed(log, from, to), moved);
    BookHasNoEmptyList(log, logs);
    BookHasNoEmptyList(Renamed(log, from, to), moved);
    BookLists(log, logs, to);
    BookLists(log, logs, from);
    forall s
      ensures now.List(s) == Apply(book, Rename(from, to), id).List(s)
    {
      ListAfterRename(log, from, to, s);
      BookLists(log, logs, s);
      BookLists(Renamed(log, from, to), moved, s);
      RenameLists(book, from, to, id, s);
    }
    RenameLists(book, from, to, id, from);
    SameLists(now, Apply(book, Rename(from, to), id));
  }

  /** A name is refused exactly when the compiled count finds entries under it. */
  lemma RefusedWhenCounted(log: seq<Stored>, logs: map<string, Log>, to: string)
    ensures Refused(BookOf(log, logs), to) <==> Keep(log, (st: Stored) => to != "" ==> st.session == to) != []
    ensures !Refused(BookOf(log, logs), to) ==> SessionList(log, to) == []
  {
    BookLists(log, logs, to);
    if to != "" {
      KeepSame(log, (st: Stored) => to != "" ==> st.session == to, (st: Stored) => st.session == to);
    } else {
      KeepAll(log, (st: Stored) => to != "" ==> st.session == to);
      if log != [] {
        assert log[0].session in Sessions(log);
        assert log[0].session in BookOf(log, logs).lists;
      }
    }
  }

  /** One entry anywhere is enough for the free name "" to be refused. */
  lemma EmptyNameIsRefused(id: int, session: string, e: Entry)
    requires session != ""
    ensures var log := [Stored(id, session, e)]; SessionList(log, "") == [] && Refused(BookOf(log, map[]), "")
  {
    var log := [Stored(id, session, e)];
    KeepNone(log, (st: Stored) => st.session == "");
    assert log[0].session in Sessions(log);
    assert session in BookOf(log, map[]).lists;
  }
}
