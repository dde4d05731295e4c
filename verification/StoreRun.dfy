/**
 * Runs of the store: any sequence of writes, any of them failing at any
 * statement, leaves the tables representing the book those writes describe.
 */
module StoreRun {
  import opened Basics
  import opened EntryRows
  import opened Har
  import opened Lists
  import opened SqlStore
  import opened StoreBook
  import opened StoreDb

  lemma LogsAfterMove(logs: map<string, LogRow>, from: string, to: string)
    requires from != to
    ensures LogView(MoveLog(logs, from, to))
            == if from in LogView(logs)
               then (LogView(logs) - {from})[to := LogView(logs)[from]] else LogView(logs) - {to}
  {
    assert from in logs ==> from in logs - {to};
  }

  // ---- runs ----

  function Step(book: Book, op: Op, o: Outcome): Book {
    if o.Done? then Apply(book, op, o.id) else book
  }

  /** The first id no entry has ever had. */
  function NextStep(next: int, op: Op, o: Outcome): int {
    if op.Insert? && o.Done? then o.id + 1 else next
  }

  /**
   * A rename is refused exactly when the new name has entries, or, for the name "", when any session
   * has; and a new entry's id was never used, not even by a deleted one.
   */
  predicate Expected(book: Book, next: int, op: Op, o: Outcome) {
    && (o.Exists? <==> op.Rename? && op.from != op.to && Refused(book, op.to))
    && (op.Insert? && o.Done? ==> o.id >= next)
  }

  /** Trying `ops` with outcomes `outs` leads from one book and next id to another, every outcome as expected. */
  predicate Explains(book: Book, next: int, ops: seq<Op>, outs: seq<Outcome>, now: Book, due: int)
    decreases |ops|
  {
    if ops == [] || outs == [] then ops == [] && outs == [] && now == book && due == next
    else
      && Expected(book, next, ops[0], outs[0])
      && Explains(Step(book, ops[0], outs[0]), NextStep(next, ops[0], outs[0]), ops[1..], outs[1..], now, due)
  }

  lemma {:induction false} OneMoreOp(book: Book, next: int, ops: seq<Op>, outs: seq<Outcome>, now: Book, due: int,
                                     op: Op, o: Outcome)
    requires Explains(book, next, ops, outs, now, due) && Expected(now, due, op, o)
    ensures Explains(book, next, ops + [op], outs + [o], Step(now, op, o), NextStep(due, op, o))
    decreases |ops|
  {
    if ops == [] {
      assert [op][1..] == [] && [o][1..] == [];
    } else {
      assert (ops + [op])[1..] == ops[1..] + [op] && (outs + [o])[1..] == outs[1..] + [o];
      OneMoreOp(Step(book, ops[0], outs[0]), NextStep(next, ops[0], outs[0]), ops[1..], outs[1..], now, due, op, o);
    }
  }

  /** One write; `budget` statements succeed before the database fails it, `gap` ids are skipped. */
  method Try(s: Store, op: Op, gap: nat, budget: nat) returns (o: Outcome)
    requires s.Valid()
    modifies s`state
    ensures s.Book() == Step(old(s.Book()), op, o) && Expected(old(s.Book()), old(s.Next()), op, o)
    ensures s.Next() == NextStep(old(s.Next()), op, o)
  {
    match op
    case Insert(session, at, e) =>
      o := TryInsert(s, session, e, at, gap, budget);
    case PutLog(session, log) =>
      var ok := s.PutLog(session, log, budget);
      o := if ok then Done(0) else Failed;
    case Delete(session) =>
      BookAfterDelete(s.Entries(), s.Logs(), session, 0);
      var ok := s.DeleteSession(session, budget);
      o := if ok then Done(0) else Failed;
    case Rename(from, to) =>
      o := TryRename(s, from, to, budget);
  }

  method TryInsert(s: Store, session: string, e: Entry, at: int, gap: nat, budget: nat) returns (o: Outcome)
    requires s.Valid()
    modifies s`state
    ensures s.Book() == Step(old(s.Book()), Insert(session, at, e), o) && !o.Exists?
    ensures o.Done? ==> o.id >= old(s.Next())
    ensures s.Next() == if o.Done? then o.id + 1 else old(s.Next())
  {
    o := s.Insert(session, e, at, gap, budget);
  }

  method TryRename(s: Store, from: string, to: string, budget: nat) returns (o: Outcome)
    requires s.Valid()
    modifies s`state
    ensures s.Book() == Step(old(s.Book()), Rename(from, to), o) && s.Next() == old(s.Next())
    ensures o.Exists? <==> from != to && Refused(old(s.Book()), to)
  {
    RefusedWhenCounted(s.Entries(), s.Logs(), to);
    if from != to {
      LogsAfterMove(s.state.db.logs, from, to);
      if !Refused(s.Book(), to) {
        BookAfterRename(s.Entries(), s.Logs(), from, to, LogView(MoveLog(s.state.db.logs, from, to)), 0);
      }
    }
    o := s.RenameSession(from, to, budget);
  }

  /**
   * Over every run of Insert, PutLog, DeleteSession and RenameSession, with any
   * of them failing at any statement, the tables refine the book: they stay a
   * decomposition (the type of the store's state) of exactly the entries the
   * simple operations on the book leave under each session, in order.
   */
  method Replay(s: Store, ops: seq<Op>, gaps: nat -> nat, budgets: nat -> nat) returns (outs: seq<Outcome>)
    requires s.Valid()
    modifies s`state
    ensures Explains(old(s.Book()), old(s.Next()), ops, outs, s.Book(), s.Next())
  {
    outs := [];
    ghost var book, next := s.Book(), s.Next();
    ghost var now, due := book, next;
    for i := 0 to |ops|
      invariant s.Book() == now && s.Next() == due && Explains(book, next, ops[..i], outs, now, due)
    {
      var o := Try(s, ops[i], gaps(i), budgets(i));
      TakeNext(ops, i);
      OneMoreOp(book, next, ops[..i], outs, now, due, ops[i], o);
      outs, now, due := outs + [o], s.Book(), s.Next();
    }
    TakeAll(ops);
  }

  // ---- what the book says about other sessions ----

  /** Every write touches only the sessions it names. */
  lemma OthersUntouched(book: Book, op: Op, id: int, s: string)
    requires match op
             case Insert(session, _, _) => s != session
             case PutLog(_, _) => true
             case Delete(session) => s != session
             case Rename(from, to) => s != from && s != to
    ensures Apply(book, op, id).List(s) == book.List(s)
  {
  }

  /** A rename that is not refused carries the whole list over, ids and order kept, and leaves the old name empty. */
  lemma RenameMovesAll(book: Book, from: string, to: string, id: int)
    requires from != to && !Refused(book, to)
    ensures Apply(book, Rename(from, to), id).List(from) == []
    ensures |Apply(book, Rename(from, to), id).List(to)| == |book.List(from)|
    ensures forall i :: 0 <= i < |book.List(from)| ==>
              Apply(book, Rename(from, to), id).List(to)[i] == MovedKept(book.List(from)[i], to)
  {
    forall i | 0 <= i < |book.List(from)|
      ensures Apply(book, Rename(from, to), id).List(to)[i] == MovedKept(book.List(from)[i], to)
    {
      MapAt(book.List(from), (k: Kept) => MovedKept(k, to), i);
    }
  }
}
