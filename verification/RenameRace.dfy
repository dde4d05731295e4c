/**
 * `RenameSession` with other writers about: its count and its transaction are
 * separate statements (internal/store/sessions.go), and anything may be written
 * in between.
 */
module RenameRace {
  import opened Basics
  import opened Har
  import opened Lists
  import opened SqlStore
  import opened StoreBook
  import opened StoreDb
  import opened StoreRun

  /** What the old name holds, as it reads under the new one. */
  function Carried(kept: seq<Kept>, to: string): seq<Kept> {
    Map(kept, (k: Kept) => MovedKept(k, to))
  }

  /** Both sessions in one list, by id, the moved entries under their new name. */
  function Merged(log: seq<Stored>, from: string, to: string): seq<Kept> {
    Map(Keep(log, (st: Stored) => st.session == from || st.session == to), (st: Stored) => KeptOf(Moved(st, from, to)))
  }

  /** The transaction merges the two lists, whatever they hold, ... */
  lemma TransactionMerges(log: seq<Stored>, from: string, to: string)
    requires from != to
    ensures SessionList(Renamed(log, from, to), to) == Merged(log, from, to)
    ensures |Merged(log, from, to)| == |SessionList(log, from)| + |SessionList(log, to)|
  {
    var move := (st: Stored) => Moved(st, from, to);
    var either := (st: Stored) => st.session == from || st.session == to;
    KeepOfMap(log, move, (st: Stored) => st.session == to, either);
    MapMap(Keep(log, either), move, KeptOf, (st: Stored) => KeptOf(Moved(st, from, to)));
    KeepEither(log, (st: Stored) => st.session == from, (st: Stored) => st.session == to, either);
  }

  /** ... so it moves the old list and no more exactly when the new name is free by then. */
  lemma MovesWhenFree(log: seq<Stored>, from: string, to: string)
    requires from != to
    ensures SessionList(Renamed(log, from, to), to) == Carried(SessionList(log, from), to)
            <==> SessionList(log, to) == []
  {
    TransactionMerges(log, from, to);
    if SessionList(log, to) == [] {
      ListAfterRename(log, from, to, to);
    }
  }

  /** Only entries and logs are written, as by the proxy's recorder; no session is deleted or renamed. */
  predicate OnlyRecords(ops: seq<Op>) {
    forall op :: op in ops ==> op.Insert? || op.PutLog?
  }

  /** One of `ops` stored an entry under `name`. */
  predicate Names(ops: seq<Op>, outs: seq<Outcome>, name: string) {
    exists i: nat :: i < |ops| && i < |outs| && ops[i].Insert? && ops[i].session == name && outs[i].Done?
  }

  lemma NamesHead(ops: seq<Op>, outs: seq<Outcome>, name: string)
    requires ops != [] && outs != []
    ensures Names(ops, outs, name)
            <==> (ops[0].Insert? && ops[0].session == name && outs[0].Done?) || Names(ops[1..], outs[1..], name)
  {
    if Names(ops, outs, name) {
      var i: nat :| i < |ops| && i < |outs| && ops[i].Insert? && ops[i].session == name && outs[i].Done?;
      assert i > 0 ==> ops[1..][i - 1] == ops[i] && outs[1..][i - 1] == outs[i];
    }
    if Names(ops[1..], outs[1..], name) {
      var i: nat :| i < |ops[1..]| && i < |outs[1..]| && ops[1..][i].Insert? && ops[1..][i].session == name
                    && outs[1..][i].Done?;
      assert ops[i + 1] == ops[1..][i] && outs[i + 1] == outs[1..][i];
    }
  }

  lemma RecordStep(book: Book, op: Op, o: Outcome, name: string)
    requires op.Insert? || op.PutLog?
    ensures Step(book, op, o).List(name) == []
            <==> book.List(name) == [] && !(op.Insert? && op.session == name && o.Done?)
  {
  }

  /** While others only record, a name stays free exactly until one of them uses it. */
  lemma {:induction false} FreeUntilNamed(book: Book, next: int, ops: seq<Op>, outs: seq<Outcome>, now: Book, due: int,
                                          name: string)
    requires Explains(book, next, ops, outs, now, due) && OnlyRecords(ops)
    ensures now.List(name) == [] <==> book.List(name) == [] && !Names(ops, outs, name)
    decreases |ops|
  {
    if ops != [] {
      var mid := Step(book, ops[0], outs[0]);
      RecordStep(book, ops[0], outs[0], name);
      NamesHead(ops, outs, name);
      FreeUntilNamed(mid, NextStep(next, ops[0], outs[0]), ops[1..], outs[1..], now, due, name);
    }
  }

  /**
   * What the transaction does to a book. The old list, and no more, ends under
   * the new name exactly when that is free; otherwise no entry is lost and two
   * sessions are one.
   */
  ghost predicate MovedOrMerged(mid: Book, now: Book, from: string, to: string) {
    && now.List(from) == []
    && (now.List(to) == Carried(mid.List(from), to) <==> mid.List(to) == [])
    && |now.List(to)| == |mid.List(from)| + |mid.List(to)|
    && (forall name :: name != from && name != to ==> now.List(name) == mid.List(name))
    && now.logs == Apply(mid, Rename(from, to), 0).logs
  }

  lemma AfterMove(log: seq<Stored>, logs: map<string, Log>, moved: map<string, Log>, from: string, to: string)
    requires from != to && moved == Apply(BookOf(log, logs), Rename(from, to), 0).logs
    ensures MovedOrMerged(BookOf(log, logs), BookOf(Renamed(log, from, to), moved), from, to)
  {
    var mid, now := BookOf(log, logs), BookOf(Renamed(log, from, to), moved);
    ListsOfBoth(log, logs, moved, from, to, from);
    ListsOfBoth(log, logs, moved, from, to, to);
    TransactionMerges(log, from, to);
    MovesWhenFree(log, from, to);
    ListAfterRename(log, from, to, from);
    forall name | name != from && name != to
      ensures now.List(name) == mid.List(name)
    {
      ListsOfBoth(log, logs, moved, from, to, name);
      ListAfterRename(log, from, to, name);
    }
  }

  lemma ListsOfBoth(log: seq<Stored>, logs: map<string, Log>, moved: map<string, Log>, from: string, to: string,
                    name: string)
    ensures BookOf(log, logs).List(name) == SessionList(log, name)
    ensures BookOf(Renamed(log, from, to), moved).List(name) == SessionList(Renamed(log, from, to), name)
  {
    BookLists(log, logs, name);
    BookLists(Renamed(log, from, to), moved, name);
  }

  /** The transaction on its own. */
  method Transaction(s: Store, from: string, to: string, budget: nat) returns (ok: bool)
    requires s.Valid() && from != to
    modifies s`state
    ensures ok == (budget >= 4) && s.Next() == old(s.Next())
    ensures if ok then MovedOrMerged(old(s.Book()), s.Book(), from, to) else s.Book() == old(s.Book())
  {
    ghost var log, logs := s.Entries(), s.Logs();
    LogsAfterMove(s.state.db.logs, from, to);
    ok := s.MoveSession(from, to, budget);
    if ok {
      AfterMove(log, logs, s.Logs(), from, to);
    }
  }

  /** The check on its own. */
  method Check(s: Store, to: string) returns (taken: bool)
    requires s.Valid()
    ensures taken == Refused(s.Book(), to)
    ensures !taken ==> s.Book().List(to) == []
  {
    RefusedWhenCounted(s.Entries(), s.Logs(), to);
    BookLists(s.Entries(), s.Logs(), to);
    taken := s.IsTaken(to);
  }

  /**
   * A rename with `ops` of other writers between its count and its transaction,
   * any of them failing; `mid` is the book the transaction finds. After entries
   * and logs alone the new name is still free exactly when none of them has used
   * it.
   */
  method RenameDuring(s: Store, from: string, to: string, ops: seq<Op>, gaps: nat -> nat, budgets: nat -> nat,
                      budget: nat)
    returns (r: Outcome, outs: seq<Outcome>, ghost mid: Book)
    requires s.Valid() && from != to
    modifies s`state
    ensures r == if Refused(old(s.Book()), to) then Exists else if budget >= 4 then Done(0) else Failed
    ensures Explains(old(s.Book()), old(s.Next()), ops, outs, mid, s.Next())
    ensures if r.Done? then MovedOrMerged(mid, s.Book(), from, to) else s.Book() == mid
    ensures r.Done? && OnlyRecords(ops) ==> (mid.List(to) == [] <==> !Names(ops, outs, to))
  {
    ghost var book, next := s.Book(), s.Next();
    var taken := Check(s, to);
    outs := Replay(s, ops, gaps, budgets);
    mid := s.Book();
    if taken {
      return Exists, outs, mid;
    }
    if OnlyRecords(ops) {
      FreeUntilNamed(book, next, ops, outs, mid, s.Next(), to);
    }
    var ok := Transaction(s, from, to, budget);
    r := if ok then Done(0) else Failed;
  }

  /** A rename of "a" to the free "b", one entry recorded under "b" meanwhile: two sessions become one. */
  lemma RecordedMeanwhile(i: int, e: Entry, j: int, f: Entry)
    requires Norm("b", f) == f
    ensures SessionList([Stored(i, "a", e)], "b") == []
    ensures SessionList(Renamed([Stored(i, "a", e), Stored(j, "b", f)], "a", "b"), "b")
            == [Kept(i, Norm("b", e)), Kept(j, f)]
  {
    var log := [Stored(i, "a", e), Stored(j, "b", f)];
    KeepNone([log[0]], (st: Stored) => st.session == "b");
    TransactionMerges(log, "a", "b");
    KeepAll(log, (st: Stored) => st.session == "a" || st.session == "b");
    TwoMerged(log);
  }

  lemma TwoMerged(log: seq<Stored>)
    requires |log| == 2 && Keep(log, (st: Stored) => st.session == "a" || st.session == "b") == log
    ensures Merged(log, "a", "b") == [KeptOf(Moved(log[0], "a", "b")), KeptOf(Moved(log[1], "a", "b"))]
  {
    MapAt(log, (st: Stored) => KeptOf(Moved(st, "a", "b")), 0);
    MapAt(log, (st: Stored) => KeptOf(Moved(st, "a", "b")), 1);
  }
}
