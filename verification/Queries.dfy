/**
 * `Query` and the SQL it compiles to (internal/store/query.go), run by a
 * database over the entry rows in id order.
 */
module Queries {
  import opened Basics
  import opened Glob
  import opened EntryRows
  import opened Lists
  import opened Sql

  /** A zero-valued field imposes no constraint. */
  datatype Query = Query(
    session: string, httpMethod: string, urlGlob: string, status: int, mimeType: string, limit: int, offset: int,
    ascending: bool)

  datatype Value = Text(s: string) | Int(n: int)

  // ---- what the store writes ----

  /** The clauses and arguments of the non-zero fields, in order. */
  method Clauses(q: Query) returns (clauses: seq<string>, args: seq<Value>)
    ensures clauses == ClauseTexts(Filters(q)) && args == FilterArgs(Filters(q))
  {
    clauses, args := [], [];
    ghost var fs := [];
    if q.session != "" {
      clauses := clauses + [ColumnText(Session) + " = ?"];
      args := args + [Text(q.session)];
    }
    fs := Clause(fs, q.session != "", Filter(Session, false, Text(q.session)));
    assert clauses == ClauseTexts(fs) && args == FilterArgs(fs);
    if q.httpMethod != "" {
      clauses := clauses + [ColumnText(ReqMethod) + " = ?"];
      args := args + [Text(q.httpMethod)];
    }
    fs := Clause(fs, q.httpMethod != "", Filter(ReqMethod, false, Text(q.httpMethod)));
    assert clauses == ClauseTexts(fs) && args == FilterArgs(fs);
    if q.status != 0 {
      clauses := clauses + [ColumnText(RespStatus) + " = ?"];
      args := args + [Int(q.status)];
    }
    fs := Clause(fs, q.status != 0, Filter(RespStatus, false, Int(q.status)));
    assert clauses == ClauseTexts(fs) && args == FilterArgs(fs);
    if q.mimeType != "" {
      clauses := clauses + [ColumnText(MimeType) + " = ?"];
      args := args + [Text(q.mimeType)];
    }
    fs := Clause(fs, q.mimeType != "", Filter(MimeType, false, Text(q.mimeType)));
    assert clauses == ClauseTexts(fs) && args == FilterArgs(fs);
    if q.urlGlob != "" {
      var pattern := GlobToLike(q.urlGlob);
      clauses := clauses + [ColumnText(ReqUrl) + " LIKE ? ESCAPE '\\'"];
      args := args + [Text(pattern)];
    }
    fs := Clause(fs, q.urlGlob != "", Filter(ReqUrl, true, Text(LikePattern(q.urlGlob))));
    FiltersFromNothing(q);
  }

  /** `where`: the clause text and its arguments, from the non-zero fields. */
  method Where(q: Query) returns (text: string, args: seq<Value>)
    ensures args == FilterArgs(Filters(q))
    ensures text == WhereText(Filters(q))
  {
    var clauses;
    clauses, args := Clauses(q);
    if |clauses| == 0 {
      return "", [];
    }
    text := " WHERE " + Join(clauses, " AND ");
  }

  lemma {:induction false} Clause(fs: seq<Filter>, on: bool, f: Filter) returns (more: seq<Filter>)
    ensures more == fs + If(on, f)
    ensures ClauseTexts(more) == if on then ClauseTexts(fs) + [ClauseText(f)] else ClauseTexts(fs)
    ensures FilterArgs(more) == if on then FilterArgs(fs) + [f.arg] else FilterArgs(fs)
  {
    more := fs + If(on, f);
    if fs == [] {
      assert more == If(on, f);
    } else {
      var rest := Clause(fs[1..], on, f);
      assert more[1..] == rest;
    }
  }

  /** One condition: the column, LIKE or equality, and the argument bound to it. */
  datatype Filter = Filter(column: FilterColumn, like: bool, arg: Value)

  datatype FilterColumn = Session | ReqMethod | RespStatus | MimeType | ReqUrl

  function ColumnText(c: FilterColumn): string {
    match c
    case Session => "session"
    case ReqMethod => "req_method"
    case RespStatus => "resp_status"
    case MimeType => "content_mime_type"
    case ReqUrl => "req_url"
  }

  lemma ColumnTextIsName(c: FilterColumn)
    ensures ColumnName(ColumnText(c))
  {
  }

  function If(on: bool, f: Filter): seq<Filter> {
    if on then [f] else []
  }

  function Filters(q: Query): seq<Filter> {
    If(q.session != "", Filter(Session, false, Text(q.session)))
    + If(q.httpMethod != "", Filter(ReqMethod, false, Text(q.httpMethod)))
    + If(q.status != 0, Filter(RespStatus, false, Int(q.status)))
    + If(q.mimeType != "", Filter(MimeType, false, Text(q.mimeType)))
    + If(q.urlGlob != "", Filter(ReqUrl, true, Text(LikePattern(q.urlGlob))))
  }

  lemma FiltersFromNothing(q: Query)
    ensures [] + If(q.session != "", Filter(Session, false, Text(q.session)))
            + If(q.httpMethod != "", Filter(ReqMethod, false, Text(q.httpMethod)))
            + If(q.status != 0, Filter(RespStatus, false, Int(q.status)))
            + If(q.mimeType != "", Filter(MimeType, false, Text(q.mimeType)))
            + If(q.urlGlob != "", Filter(ReqUrl, true, Text(LikePattern(q.urlGlob)))) == Filters(q)
  {
  }

  function FilterArgs(fs: seq<Filter>): (args: seq<Value>)
    ensures |args| == |fs|
  {
    if fs == [] then [] else [fs[0].arg] + FilterArgs(fs[1..])
  }

  function ClauseText(f: Filter): string {
    ColumnText(f.column) + (if f.like then " LIKE ? ESCAPE '\\'" else " = ?")
  }

  function ClauseTexts(fs: seq<Filter>): (texts: seq<string>)
    ensures |texts| == |fs|
  {
    if fs == [] then [] else [ClauseText(fs[0])] + ClauseTexts(fs[1..])
  }

  function WhereText(fs: seq<Filter>): string {
    WordAndClauses(" WHERE ", fs)
  }

  function WordAndClauses(word: string, fs: seq<Filter>): string {
    if fs == [] then "" else word + Join(ClauseTexts(fs), " AND ")
  }

  /** The rest of the statement `List` builds: order, then LIMIT and OFFSET where they are positive. */
  method PageText(q: Query, args0: seq<Value>) returns (text: string, args: seq<Value>)
    ensures text == OrderWord(!q.ascending) + CountsText(q.limit, q.offset)
    ensures args == args0 + CountArg(q.limit) + CountArg(q.offset)
  {
    args := args0;
    var order := " ORDER BY id DESC";
    if q.ascending {
      order := " ORDER BY id ASC";
    }
    var limit := "";
    if q.limit > 0 {
      limit := " LIMIT ?";
      args := args + [Int(q.limit)];
    }
    if q.offset > 0 {
      limit := limit + " OFFSET ?";
      args := args + [Int(q.offset)];
    }
    text := order + limit;
  }

  function CountText(word: string, n: int): string {
    if n > 0 then word else ""
  }

  function CountArg(n: int): seq<Value> {
    if n > 0 then [Int(n)] else []
  }

  // ---- what the database does with a statement ----

  function Column(row: EntryRow, name: string): Option<Value> {
    match name
    case "id" => Some(Int(row.id))
    case "session" => Some(Text(row.session))
    case "req_method" => Some(Text(row.reqMethod))
    case "resp_status" => Some(Int(row.respStatus))
    case "content_mime_type" => Some(Text(row.contentMimeType))
    case "req_url" => Some(Text(row.reqUrl))
    case _ => None
  }

  predicate Compares(like: bool, field: Value, arg: Value, eq: Equiv) {
    if like then field.Text? && arg.Text? && Like(arg.s, field.s, eq) else field == arg
  }

  predicate CondHolds(cond: Cond, args: seq<Value>, row: EntryRow, eq: Equiv) {
    && 1 <= cond.arg <= |args|
    && match Column(row, cond.column)
       case None => false
       case Some(field) => Compares(cond.LikeCond?, field, args[cond.arg - 1], eq)
  }

  predicate Bound(conds: seq<Cond>, args: seq<Value>) {
    conds == [] || (1 <= conds[0].arg <= |args| && Bound(conds[1..], args))
  }

  predicate AllHold(conds: seq<Cond>, args: seq<Value>, row: EntryRow, eq: Equiv) {
    conds == [] || (CondHolds(conds[0], args, row, eq) && AllHold(conds[1..], args, row, eq))
  }

  predicate BoundCount(n: Option<nat>, args: seq<Value>) {
    n.Some? ==> 1 <= n.value <= |args| && args[n.value - 1].Int? && args[n.value - 1].n >= 0
  }

  function CountOf(n: Option<nat>, args: seq<Value>): Option<nat>
    requires BoundCount(n, args)
  {
    if n.Some? then Some(args[n.value - 1].n) else None
  }

  /**
   * The rows a statement selects from `order`, the table in id order; None is an
   * error from the database: no parse, or a placeholder without its argument.
   */
  function Execute(postgres: bool, eq: Equiv, text: string, args: seq<Value>, order: seq<EntryRow>)
    : Option<seq<EntryRow>>
  {
    match ParseTail(postgres, Lex(postgres, text))
    case None => None
    case Some(t) => Run(t, eq, args, order)
  }

  function Run(t: Tail, eq: Equiv, args: seq<Value>, order: seq<EntryRow>): Option<seq<EntryRow>> {
    if !Bound(t.conds, args) || !BoundCount(t.limit, args) || !BoundCount(t.offset, args) then None
    else
      var kept := Keep(order, row => AllHold(t.conds, args, row, eq));
      var offset := CountOf(t.offset, args);
      Some(Page(if t.descending then Reverse(kept) else kept, CountOf(t.limit, args),
                if offset.Some? then offset.value else 0))
  }

  // ---- what the Query says ----

  predicate Selects(q: Query, eq: Equiv, row: EntryRow) {
    && (q.session != "" ==> row.session == q.session)
    && (q.httpMethod != "" ==> row.reqMethod == q.httpMethod)
    && (q.status != 0 ==> row.respStatus == q.status)
    && (q.mimeType != "" ==> row.contentMimeType == q.mimeType)
    && (q.urlGlob != "" ==> Matches(q.urlGlob, row.reqUrl, eq))
  }

  function Selected(q: Query, eq: Equiv, order: seq<EntryRow>): seq<EntryRow> {
    Keep(order, row => Selects(q, eq, row))
  }

  function Wanted(q: Query, eq: Equiv, order: seq<EntryRow>): seq<EntryRow> {
    var kept := Selected(q, eq, order);
    Page(if q.ascending then kept else Reverse(kept), if q.limit > 0 then Some(q.limit) else None,
         if q.offset > 0 then q.offset else 0)
  }

  // ---- the text as the database lexes it ----

  predicate Plain(s: string) {
    '?' !in s
  }

  lemma {:induction false} LexMarksAppend(a: string, b: string, n: nat)
    ensures LexMarks(a + b, n) == LexMarks(a, n) + LexMarks(b, n + Marks(a))
    decreases |a|
  {
    if a == [] {
      assert a + b == b;
    } else {
      assert (a + b)[1..] == a[1..] + b;
      LexMarksAppend(a[1..], b, n + if a[0] == '?' then 1 else 0);
    }
  }

  lemma {:induction false} NoMarks(s: string)
    requires Plain(s)
    ensures Marks(s) == 0
  {
    if s != [] { NoMarks(s[1..]); }
  }

  lemma {:induction false} PlainLexes(s: string, n: nat)
    requires Plain(s)
    ensures LexMarks(s, n) == Lit(s)
  {
    if s != [] {
      PlainLexes(s[1..], n);
      assert Lit(s) == [Ch(s[0])] + Lit(s[1..]);
    }
  }

  lemma PlainText(s: string, n: nat)
    requires Plain(s)
    ensures LexMarks(s, n) == Lit(s) && Marks(s) == 0
  {
    NoMarks(s);
    PlainLexes(s, n);
  }

  /** `word ? more` with no other placeholder. */
  lemma OneMark(word: string, more: string, n: nat)
    requires Plain(word) && Plain(more)
    ensures LexMarks(word + ("?" + more), n) == Lit(word) + ([Bind(n + 1)] + Lit(more))
    ensures Marks(word + ("?" + more)) == 1
  {
    LexMarksAppend(word, "?" + more, n);
    PlainText(word, n);
    PlainText(more, n + 1);
    assert ("?" + more)[1..] == more;
    MarksAppend(word, "?" + more);
  }

  function CondOf(f: Filter, n: nat): Cond {
    if f.like then LikeCond(ColumnText(f.column), n + 1) else Equals(ColumnText(f.column), n + 1)
  }

  /** The conditions of `fs`, bound to the arguments after the n-th. */
  function CondsOf(fs: seq<Filter>, n: nat): seq<Cond> {
    if fs == [] then [] else [CondOf(fs[0], n)] + CondsOf(fs[1..], n + 1)
  }

  lemma ClauseLexes(f: Filter, n: nat)
    ensures LexMarks(ClauseText(f), n) == CondSyms(CondOf(f, n)) && Marks(ClauseText(f)) == 1
  {
    var name := ColumnText(f.column);
    ColumnTextIsName(f.column);
    if f.like {
      LikeLexes(name, n);
    } else {
      EqualsLexes(name, n);
    }
  }

  /** `name op ? more` with no other placeholder. */
  lemma OperatorLexes(name: string, op: string, more: string, text: string, n: nat)
    requires Plain(name) && Plain(op) && Plain(more) && text == (name + op) + ("?" + more)
    ensures LexMarks(text, n) == Lit(name) + (Lit(op) + ([Bind(n + 1)] + Lit(more))) && Marks(text) == 1
  {
    OneMark(name + op, more, n);
    LitAppend(name, op);
    Associate(Lit(name), Lit(op), [Bind(n + 1)] + Lit(more));
  }

  lemma LikeLexes(name: string, n: nat)
    requires ColumnName(name)
    ensures LexMarks(name + " LIKE ? ESCAPE '\\'", n) == CondSyms(LikeCond(name, n + 1))
    ensures Marks(name + " LIKE ? ESCAPE '\\'") == 1
  {
    LikeTextSplits(name);
    OperatorLexes(name, " LIKE ", " ESCAPE '\\'", name + " LIKE ? ESCAPE '\\'", n);
  }

  lemma LikeTextSplits(name: string)
    requires ColumnName(name)
    ensures Plain(name) && Plain(" LIKE ") && Plain(" ESCAPE '\\'")
    ensures name + " LIKE ? ESCAPE '\\'" == (name + " LIKE ") + ("?" + " ESCAPE '\\'")
  {
  }

  lemma EqualsLexes(name: string, n: nat)
    requires ColumnName(name)
    ensures LexMarks(name + " = ?", n) == CondSyms(Equals(name, n + 1)) && Marks(name + " = ?") == 1
  {
    EqualsTextSplits(name);
    OperatorLexes(name, " = ", "", name + " = ?", n);
    assert [Bind(n + 1)] + Lit("") == [Bind(n + 1)];
  }

  lemma EqualsTextSplits(name: string)
    requires ColumnName(name)
    ensures Plain(name) && Plain(" = ") && Plain("") && name + " = ?" == (name + " = ") + ("?" + "")
  {
  }

  lemma LitAppend(a: string, b: string)
    ensures Lit(a + b) == Lit(a) + Lit(b)
  {
  }

  lemma AndLexes(first: string, others: string, n: nat)
    requires Marks(first) == 1
    ensures LexMarks(first + (" AND " + others), n)
            == LexMarks(first, n) + (Lit(" AND ") + LexMarks(others, n + 1))
    ensures Marks(first + (" AND " + others)) == 1 + Marks(others)
  {
    LexMarksAppend(first, " AND " + others, n);
    LexMarksAppend(" AND ", others, n + 1);
    PlainText(" AND ", n + 1);
    MarksAppend(first, " AND " + others);
    MarksAppend(" AND ", others);
  }

  lemma JoinSplits(fs: seq<Filter>)
    requires |fs| > 1
    ensures Join(ClauseTexts(fs), " AND ") == ClauseText(fs[0]) + (" AND " + Join(ClauseTexts(fs[1..]), " AND "))
  {
    assert ClauseTexts(fs)[1..] == ClauseTexts(fs[1..]);
  }

  lemma {:induction false} ClausesLex(fs: seq<Filter>, n: nat)
    requires fs != []
    ensures LexMarks(Join(ClauseTexts(fs), " AND "), n) == CondsSyms(CondsOf(fs, n))
    ensures Marks(Join(ClauseTexts(fs), " AND ")) == |fs|
    decreases |fs|
  {
    ClauseLexes(fs[0], n);
    if |fs| > 1 {
      JoinSplits(fs);
      AndLexes(ClauseText(fs[0]), Join(ClauseTexts(fs[1..]), " AND "), n);
      ClausesLex(fs[1..], n + 1);
      CondsSplits(fs, n);
    }
  }

  lemma CondsSplits(fs: seq<Filter>, n: nat)
    requires |fs| > 1
    ensures CondsOf(fs, n) != [] && CondsOf(fs[1..], n + 1) != []
    ensures CondsSyms(CondsOf(fs, n))
            == CondSyms(CondOf(fs[0], n)) + (Lit(" AND ") + CondsSyms(CondsOf(fs[1..], n + 1)))
  {
    assert CondsOf(fs, n)[1..] == CondsOf(fs[1..], n + 1);
  }

  lemma {:induction false} CondsAreColumns(fs: seq<Filter>, n: nat)
    ensures ColumnNames(CondsOf(fs, n))
  {
    if fs != [] {
      ColumnTextIsName(fs[0].column);
      CondsAreColumns(fs[1..], n + 1);
    }
  }

  // ---- the whole statement ----

  /** The compiled text of a listing, as `PageText` and `Where` build it. */
  function ListText(q: Query): string {
    TextOf(Filters(q), !q.ascending, q.limit, q.offset)
  }

  function TextOf(fs: seq<Filter>, descending: bool, limit: int, offset: int): string {
    WhereText(fs) + (OrderWord(descending) + CountsText(limit, offset))
  }

  function CountsText(limit: int, offset: int): string {
    CountText(" LIMIT ?", limit) + CountText(" OFFSET ?", offset)
  }

  function ListArgs(q: Query): seq<Value> {
    FilterArgs(Filters(q)) + CountArg(q.limit) + CountArg(q.offset)
  }

  function CountBind(n: int, at: nat): Option<nat> {
    if n > 0 then Some(at) else None
  }

  /** The statement the text stands for. */
  function TailOf(q: Query): Tail {
    TailOfParts(Filters(q), !q.ascending, q.limit, q.offset)
  }

  function TailOfParts(fs: seq<Filter>, descending: bool, limit: int, offset: int): Tail {
    Tail(CondsOf(fs, 0), descending, CountBind(limit, |fs| + 1),
         CountBind(offset, |fs| + (if limit > 0 then 2 else 1)))
  }

  lemma PlainThen(word: string, rest: string, n: nat)
    requires Plain(word)
    ensures LexMarks(word + rest, n) == Lit(word) + LexMarks(rest, n) && Marks(word + rest) == Marks(rest)
  {
    PlainText(word, n);
    LexMarksAppend(word, rest, n);
    MarksAppend(word, rest);
  }

  lemma WhereLexes(fs: seq<Filter>)
    ensures LexMarks(WhereText(fs), 0) == WhereSyms(CondsOf(fs, 0)) && Marks(WhereText(fs)) == |fs|
  {
    WhereIsPlain();
    WordLexes(" WHERE ", fs);
  }

  lemma WhereIsPlain()
    ensures Plain(" WHERE ")
  {
  }

  lemma WordLexes(word: string, fs: seq<Filter>)
    requires Plain(word)
    ensures LexMarks(WordAndClauses(word, fs), 0) == WordAndConds(word, CondsOf(fs, 0))
    ensures Marks(WordAndClauses(word, fs)) == |fs|
  {
    if fs != [] {
      ClausesLex(fs, 0);
      PlainThen(word, Join(ClauseTexts(fs), " AND "), 0);
    }
  }

  lemma CountLexes(word: string, n: int, at: nat)
    requires Plain(word)
    ensures LexMarks(CountText(word + "?", n), at) == CountSyms(word, CountBind(n, at + 1))
    ensures Marks(CountText(word + "?", n)) == if n > 0 then 1 else 0
  {
    if n > 0 {
      OneMark(word, "", at);
      assert "?" + "" == "?" && Lit("") == [];
    }
  }

  lemma CountWords()
    ensures Plain(" LIMIT ") && " LIMIT " + "?" == " LIMIT ?"
    ensures Plain(" OFFSET ") && " OFFSET " + "?" == " OFFSET ?"
  {
  }

  lemma CountsLex(first: string, second: string, limit: int, offset: int, at: nat)
    requires Plain(first) && Plain(second)
    ensures LexMarks(CountText(first + "?", limit) + CountText(second + "?", offset), at)
            == CountSyms(first, CountBind(limit, at + 1))
               + CountSyms(second, CountBind(offset, at + (if limit > 0 then 2 else 1)))
  {
    CountLexes(first, limit, at);
    LexMarksAppend(CountText(first + "?", limit), CountText(second + "?", offset), at);
    CountLexes(second, offset, at + (if limit > 0 then 1 else 0));
  }

  lemma PageLexes(limit: int, offset: int, at: nat)
    ensures LexMarks(CountsText(limit, offset), at)
            == PageSyms(CountBind(limit, at + 1), CountBind(offset, at + (if limit > 0 then 2 else 1)))
  {
    CountWords();
    CountsLex(" LIMIT ", " OFFSET ", limit, offset, at);
  }

  lemma OrderIsPlain(descending: bool)
    ensures Plain(OrderWord(descending))
  {
  }

  lemma PartsLex(where: string, order: string, page: string)
    requires Plain(order)
    ensures LexMarks(where + (order + page), 0)
            == LexMarks(where, 0) + (Lit(order) + LexMarks(page, Marks(where)))
  {
    LexMarksAppend(where, order + page, 0);
    PlainThen(order, page, Marks(where));
  }

  lemma WhereThenPage(fs: seq<Filter>, descending: bool, page: string)
    ensures LexMarks(WhereText(fs) + (OrderWord(descending) + page), 0)
            == WhereSyms(CondsOf(fs, 0)) + (Lit(OrderWord(descending)) + LexMarks(page, |fs|))
  {
    OrderIsPlain(descending);
    PartsLex(WhereText(fs), OrderWord(descending), page);
    WhereLexes(fs);
  }

  lemma TextParts(fs: seq<Filter>, descending: bool, limit: int, offset: int)
    ensures LexMarks(TextOf(fs, descending, limit, offset), 0)
            == WhereSyms(CondsOf(fs, 0)) + (Lit(OrderWord(descending)) + LexMarks(CountsText(limit, offset), |fs|))
  {
    WhereThenPage(fs, descending, CountsText(limit, offset));
  }

  lemma PartsSyms(t: Tail, page: seq<Sym>)
    requires page == PageSyms(t.limit, t.offset)
    ensures TailSyms(t) == WhereSyms(t.conds) + (Lit(OrderWord(t.descending)) + page)
  {
  }

  lemma TailParts(fs: seq<Filter>, descending: bool, limit: int, offset: int)
    ensures TailSyms(TailOfParts(fs, descending, limit, offset))
            == WhereSyms(CondsOf(fs, 0)) + (Lit(OrderWord(descending)) + LexMarks(CountsText(limit, offset), |fs|))
  {
    PageLexes(limit, offset, |fs|);
    PartsSyms(TailOfParts(fs, descending, limit, offset), LexMarks(CountsText(limit, offset), |fs|));
  }

  lemma TextLexes(fs: seq<Filter>, descending: bool, limit: int, offset: int)
    ensures LexMarks(TextOf(fs, descending, limit, offset), 0) == TailSyms(TailOfParts(fs, descending, limit, offset))
  {
    TextParts(fs, descending, limit, offset);
    TailParts(fs, descending, limit, offset);
  }

  lemma ListLexes(q: Query)
    ensures LexMarks(ListText(q), 0) == TailSyms(TailOf(q))
  {
    TextLexes(Filters(q), !q.ascending, q.limit, q.offset);
  }

  // ---- no digit follows a placeholder: `rebind` keeps the meaning ----

  predicate NoDigit(s: string) {
    forall c :: c in s ==> !IsDigit(c)
  }

  lemma NoDigitIsRebindable(s: string)
    requires NoDigit(s)
    ensures Rebindable(s)
  {
  }

  lemma ClauseHasNoDigit(f: Filter)
    ensures NoDigit(ClauseText(f))
  {
    ColumnTextIsName(f.column);
    assert NoDigit(ColumnText(f.column));
    assert NoDigit(" LIKE ? ESCAPE '\\'") && NoDigit(" = ?");
  }

  lemma {:induction false} JoinHasNoDigit(fs: seq<Filter>)
    ensures NoDigit(Join(ClauseTexts(fs), " AND "))
  {
    if fs != [] {
      ClauseHasNoDigit(fs[0]);
      if |fs| > 1 {
        JoinSplits(fs);
        JoinHasNoDigit(fs[1..]);
        assert NoDigit(" AND ");
      }
    }
  }

  lemma NoDigitAppend(a: string, b: string)
    requires NoDigit(a) && NoDigit(b)
    ensures NoDigit(a + b)
  {
  }

  lemma WhereHasNoDigit(fs: seq<Filter>)
    ensures NoDigit(WhereText(fs))
  {
    if fs != [] {
      JoinHasNoDigit(fs);
      assert NoDigit(" WHERE ");
      NoDigitAppend(" WHERE ", Join(ClauseTexts(fs), " AND "));
    }
  }

  lemma LimitHasNoDigit()
    ensures NoDigit(" LIMIT ?")
  {
  }

  lemma OffsetHasNoDigit()
    ensures NoDigit(" OFFSET ?")
  {
  }

  lemma OrderHasNoDigit(descending: bool)
    ensures NoDigit(OrderWord(descending))
  {
  }

  lemma CountHasNoDigit(word: string, n: int)
    requires NoDigit(word)
    ensures NoDigit(CountText(word, n))
  {
  }

  lemma PageHasNoDigit(descending: bool, limit: int, offset: int)
    ensures NoDigit(OrderWord(descending) + CountsText(limit, offset))
  {
    LimitHasNoDigit();
    OffsetHasNoDigit();
    OrderHasNoDigit(descending);
    CountHasNoDigit(" LIMIT ?", limit);
    CountHasNoDigit(" OFFSET ?", offset);
    NoDigitAppend(CountText(" LIMIT ?", limit), CountText(" OFFSET ?", offset));
    NoDigitAppend(OrderWord(descending), CountsText(limit, offset));
  }

  lemma ListHasNoDigit(q: Query)
    ensures NoDigit(ListText(q))
  {
    var page := OrderWord(!q.ascending) + CountsText(q.limit, q.offset);
    WhereHasNoDigit(Filters(q));
    PageHasNoDigit(!q.ascending, q.limit, q.offset);
    NoDigitAppend(WhereText(Filters(q)), page);
  }

  /** The text the driver is given. */
  function Sent(postgres: bool, text: string): string {
    if postgres then Rebound(text, 0) else text
  }

  lemma SentLexes(postgres: bool, text: string)
    requires NoDigit(text)
    ensures Lex(postgres, Sent(postgres, text)) == LexMarks(text, 0)
  {
    NoDigitIsRebindable(text);
    RebindKeepsMeaning(text, 0);
  }

  // ---- the conditions mean the filters ----

  /** The arguments of `fs` stand from position n on. */
  ghost predicate ArgsFrom(args: seq<Value>, fs: seq<Filter>, n: nat) {
    n + |fs| <= |args| && forall i :: 0 <= i < |fs| ==> args[n + i] == fs[i].arg
  }

  function Field(row: EntryRow, c: FilterColumn): Value {
    match c
    case Session => Text(row.session)
    case ReqMethod => Text(row.reqMethod)
    case RespStatus => Int(row.respStatus)
    case MimeType => Text(row.contentMimeType)
    case ReqUrl => Text(row.reqUrl)
  }

  lemma FieldIsColumn(row: EntryRow, c: FilterColumn)
    ensures Column(row, ColumnText(c)) == Some(Field(row, c))
  {
  }

  predicate Passes(f: Filter, row: EntryRow, eq: Equiv) {
    Compares(f.like, Field(row, f.column), f.arg, eq)
  }

  predicate AllPass(fs: seq<Filter>, row: EntryRow, eq: Equiv) {
    fs == [] || (Passes(fs[0], row, eq) && AllPass(fs[1..], row, eq))
  }

  lemma CondMeans(f: Filter, args: seq<Value>, n: nat, row: EntryRow, eq: Equiv)
    requires n < |args| && args[n] == f.arg
    ensures CondHolds(CondOf(f, n), args, row, eq) == Passes(f, row, eq)
  {
    FieldIsColumn(row, f.column);
  }

  lemma ArgsFromTail(args: seq<Value>, fs: seq<Filter>, n: nat)
    requires fs != [] && ArgsFrom(args, fs, n)
    ensures args[n] == fs[0].arg && ArgsFrom(args, fs[1..], n + 1)
  {
    assert args[n + 0] == fs[0].arg;
    forall i | 0 <= i < |fs[1..]|
      ensures args[n + 1 + i] == fs[1..][i].arg
    {
      assert args[n + (i + 1)] == fs[i + 1].arg;
    }
  }

  lemma {:induction false} CondsAreBound(fs: seq<Filter>, args: seq<Value>, n: nat)
    requires ArgsFrom(args, fs, n)
    ensures Bound(CondsOf(fs, n), args)
    decreases |fs|
  {
    if fs != [] {
      ArgsFromTail(args, fs, n);
      CondsAreBound(fs[1..], args, n + 1);
    }
  }

  lemma {:induction false} CondsMean(fs: seq<Filter>, args: seq<Value>, n: nat, row: EntryRow, eq: Equiv)
    requires ArgsFrom(args, fs, n)
    ensures AllHold(CondsOf(fs, n), args, row, eq) == AllPass(fs, row, eq)
    decreases |fs|
  {
    if fs != [] {
      ArgsFromTail(args, fs, n);
      CondMeans(fs[0], args, n, row, eq);
      CondsMean(fs[1..], args, n + 1, row, eq);
    }
  }

  lemma {:induction false} AllPassAppend(a: seq<Filter>, b: seq<Filter>, row: EntryRow, eq: Equiv)
    ensures AllPass(a + b, row, eq) == (AllPass(a, row, eq) && AllPass(b, row, eq))
  {
    if a == [] {
      assert a + b == b;
    } else {
      assert (a + b)[1..] == a[1..] + b;
      AllPassAppend(a[1..], b, row, eq);
    }
  }

  lemma OnePasses(fs: seq<Filter>, on: bool, f: Filter, row: EntryRow, eq: Equiv)
    ensures AllPass(fs + If(on, f), row, eq) == (AllPass(fs, row, eq) && (on ==> Passes(f, row, eq)))
  {
    AllPassAppend(fs, If(on, f), row, eq);
    if on { assert If(on, f)[1..] == []; }
  }

  lemma FiltersPass(q: Query, row: EntryRow, eq: Equiv)
    ensures AllPass(Filters(q), row, eq)
            <==> && (q.session != "" ==> Passes(Filter(Session, false, Text(q.session)), row, eq))
                 && (q.httpMethod != "" ==> Passes(Filter(ReqMethod, false, Text(q.httpMethod)), row, eq))
                 && (q.status != 0 ==> Passes(Filter(RespStatus, false, Int(q.status)), row, eq))
                 && (q.mimeType != "" ==> Passes(Filter(MimeType, false, Text(q.mimeType)), row, eq))
                 && (q.urlGlob != "" ==> Passes(Filter(ReqUrl, true, Text(LikePattern(q.urlGlob))), row, eq))
  {
    var s1 := [] + If(q.session != "", Filter(Session, false, Text(q.session)));
    var s2 := s1 + If(q.httpMethod != "", Filter(ReqMethod, false, Text(q.httpMethod)));
    var s3 := s2 + If(q.status != 0, Filter(RespStatus, false, Int(q.status)));
    var s4 := s3 + If(q.mimeType != "", Filter(MimeType, false, Text(q.mimeType)));
    FiltersFromNothing(q);
    OnePasses([], q.session != "", Filter(Session, false, Text(q.session)), row, eq);
    OnePasses(s1, q.httpMethod != "", Filter(ReqMethod, false, Text(q.httpMethod)), row, eq);
    OnePasses(s2, q.status != 0, Filter(RespStatus, false, Int(q.status)), row, eq);
    OnePasses(s3, q.mimeType != "", Filter(MimeType, false, Text(q.mimeType)), row, eq);
    OnePasses(s4, q.urlGlob != "", Filter(ReqUrl, true, Text(LikePattern(q.urlGlob))), row, eq);
  }

  lemma FiltersMeanQuery(q: Query, row: EntryRow, eq: Equiv)
    ensures AllPass(Filters(q), row, eq) == Selects(q, eq, row)
  {
    FiltersPass(q, row, eq);
    LikeMeansGlob(q.urlGlob, row.reqUrl, eq);
  }

  lemma {:induction false} ArgsOfFilters(fs: seq<Filter>, i: nat)
    requires i < |fs|
    ensures FilterArgs(fs)[i] == fs[i].arg
  {
    if i > 0 { ArgsOfFilters(fs[1..], i - 1); }
  }

  lemma FilterArgsStand(fs: seq<Filter>, more: seq<Value>)
    ensures ArgsFrom(FilterArgs(fs) + more, fs, 0)
  {
    forall i | 0 <= i < |fs|
      ensures FilterArgs(fs)[i] == fs[i].arg
    {
      ArgsOfFilters(fs, i);
    }
  }

  /** The conditions of the statement keep exactly the rows the Query asks for. */
  lemma ConditionsMeanQuery(q: Query, more: seq<Value>, eq: Equiv, order: seq<EntryRow>)
    ensures Bound(CondsOf(Filters(q), 0), FilterArgs(Filters(q)) + more)
    ensures Keep(order, row => AllHold(CondsOf(Filters(q), 0), FilterArgs(Filters(q)) + more, row, eq))
            == Selected(q, eq, order)
  {
    var fs, args := Filters(q), FilterArgs(Filters(q)) + more;
    FilterArgsStand(fs, more);
    CondsAreBound(fs, args, 0);
    forall row | row in order
      ensures AllHold(CondsOf(fs, 0), args, row, eq) == Selects(q, eq, row)
    {
      CondsMean(fs, args, 0, row, eq);
      FiltersMeanQuery(q, row, eq);
    }
    KeepSame(order, row => AllHold(CondsOf(fs, 0), args, row, eq), row => Selects(q, eq, row));
  }

  /**
   * For every query, dialect, LIKE equivalence and table: the compiled statement
   * returns the rows the query selects, in the order and page it asks for. The
   * one exception is SQLite's refusal of an OFFSET without a LIMIT.
   */
  lemma ListMeansQuery(postgres: bool, eq: Equiv, q: Query, order: seq<EntryRow>)
    ensures Execute(postgres, eq, Sent(postgres, ListText(q)), ListArgs(q), order)
            == if !postgres && q.limit <= 0 && q.offset > 0 then None else Some(Wanted(q, eq, order))
  {
    ListParses(postgres, q);
    RunMeansQuery(eq, q, order);
  }

  /** An offset without a limit: SQLite refuses the statement that PostgreSQL answers. */
  lemma BareOffsetFails(eq: Equiv, order: seq<EntryRow>)
    ensures var q := Query("", "", "", 0, "", 0, 1, true);
            && Execute(false, eq, Sent(false, ListText(q)), ListArgs(q), order) == None
            && Execute(true, eq, Sent(true, ListText(q)), ListArgs(q), order) == Some(Wanted(q, eq, order))
  {
    var q := Query("", "", "", 0, "", 0, 1, true);
    ListMeansQuery(false, eq, q, order);
    ListMeansQuery(true, eq, q, order);
  }

  lemma RunIsPage(t: Tail, eq: Equiv, args: seq<Value>, order: seq<EntryRow>, kept: seq<EntryRow>, limit: Option<nat>,
                  offset: nat)
    requires Bound(t.conds, args) && Keep(order, row => AllHold(t.conds, args, row, eq)) == kept
    requires BoundCount(t.limit, args) && CountOf(t.limit, args) == limit
    requires BoundCount(t.offset, args) && CountOf(t.offset, args) == if offset > 0 then Some(offset) else None
    ensures Run(t, eq, args, order) == Some(Page(if t.descending then Reverse(kept) else kept, limit, offset))
  {
  }

  lemma RunMeansQuery(eq: Equiv, q: Query, order: seq<EntryRow>)
    ensures Run(TailOf(q), eq, ListArgs(q), order) == Some(Wanted(q, eq, order))
  {
    var fs, counts := Filters(q), CountArg(q.limit) + CountArg(q.offset);
    Associate(FilterArgs(fs), CountArg(q.limit), CountArg(q.offset));
    ConditionsMeanQuery(q, counts, eq, order);
    CountsAreBound(FilterArgs(fs), q);
    RunIsPage(TailOf(q), eq, ListArgs(q), order, Selected(q, eq, order), if q.limit > 0 then Some(q.limit) else None,
              if q.offset > 0 then q.offset else 0);
  }

  lemma ListParses(postgres: bool, q: Query)
    ensures ParseTail(postgres, Lex(postgres, Sent(postgres, ListText(q))))
            == if !postgres && q.limit <= 0 && q.offset > 0 then None else Some(TailOf(q))
  {
    ListHasNoDigit(q);
    SentLexes(postgres, ListText(q));
    ListLexes(q);
    CondsAreColumns(Filters(q), 0);
    TailRoundTrip(postgres, TailOf(q));
  }

  lemma CountsAreBound(args0: seq<Value>, q: Query)
    ensures var args, m := args0 + CountArg(q.limit) + CountArg(q.offset), |args0|;
            var limit, offset := CountBind(q.limit, m + 1), CountBind(q.offset, m + (if q.limit > 0 then 2 else 1));
            && BoundCount(limit, args) && CountOf(limit, args) == (if q.limit > 0 then Some(q.limit) else None)
            && BoundCount(offset, args) && CountOf(offset, args) == (if q.offset > 0 then Some(q.offset) else None)
  {
  }

  /** The compiled count keeps the same rows and ignores order, limit and offset. */
  lemma CountMeansQuery(postgres: bool, eq: Equiv, q: Query, order: seq<EntryRow>)
    ensures Execute(postgres, eq, Sent(postgres, WhereText(Filters(q))), FilterArgs(Filters(q)), order)
            == Some(Selected(q, eq, order))
  {
    var fs := Filters(q);
    WhereHasNoDigit(fs);
    SentLexes(postgres, WhereText(fs));
    WhereLexes(fs);
    CondsAreColumns(fs, 0);
    BareWhereRoundTrip(postgres, CondsOf(fs, 0));
    ConditionsMeanQuery(q, [], eq, order);
    assert FilterArgs(fs) + [] == FilterArgs(fs);
  }

  lemma BareWhereRoundTrip(postgres: bool, conds: seq<Cond>)
    requires ColumnNames(conds)
    ensures ParseTail(postgres, WhereSyms(conds)) == Some(Tail(conds, false, None, None))
  {
    EatMiss([], " WHERE ", 0);
    EatMiss([], " AND ", 0);
    WhereRoundTrip(conds, []);
    assert WhereSyms(conds) + [] == WhereSyms(conds);
    EatMiss([], " ORDER BY id DESC", 0);
    EatMiss([], " ORDER BY id ASC", 0);
    EatMiss([], " LIMIT ", 0);
    EatMiss([], " OFFSET ", 0);
  }

  /** `Count` is the length of the listing without limit and offset. */
  lemma CountIsUnpagedLength(eq: Equiv, q: Query, order: seq<EntryRow>)
    ensures |Wanted(q.(limit := 0, offset := 0), eq, order)| == |Selected(q, eq, order)|
  {
    SameSelection(q.(limit := 0, offset := 0), q, eq, order);
    ReverseLength(Selected(q, eq, order));
  }

  lemma SameSelection(p: Query, q: Query, eq: Equiv, order: seq<EntryRow>)
    requires p == q.(limit := p.limit, offset := p.offset)
    ensures Selected(p, eq, order) == Selected(q, eq, order)
  {
    KeepSame(order, row => Selects(p, eq, row), row => Selects(q, eq, row));
  }

  /** The listings of `q` with limit n, from `offset` on, page after page until one starts past the end. */
  function PagesFrom(q: Query, eq: Equiv, order: seq<EntryRow>, n: int, offset: int): seq<EntryRow>
    requires n > 0 && offset >= 0
    decreases |Selected(q, eq, order)| - offset
  {
    if offset >= |Selected(q, eq, order)| then []
    else Wanted(q.(limit := n, offset := offset), eq, order) + PagesFrom(q, eq, order, n, offset + n)
  }

  lemma {:induction false} PagesOf(q: Query, eq: Equiv, order: seq<EntryRow>, n: int, offset: int, all: seq<EntryRow>)
    requires n > 0 && 0 <= offset <= |all| == |Selected(q, eq, order)|
    requires all == Wanted(q.(limit := 0, offset := 0), eq, order)
    ensures PagesFrom(q, eq, order, n, offset) == all[offset..]
    decreases |all| - offset
  {
    PageOfAll(q, eq, order, n, offset);
    PageThenRest(all, n, offset);
    if offset + n <= |all| {
      PagesOf(q, eq, order, n, offset + n, all);
    }
  }

  /** Consecutive pages of any size concatenate to the whole listing. */
  lemma PagesConcatenate(q: Query, eq: Equiv, order: seq<EntryRow>, n: int, offset: int)
    requires n > 0 && 0 <= offset <= |Selected(q, eq, order)|
    ensures |Wanted(q.(limit := 0, offset := 0), eq, order)| == |Selected(q, eq, order)|
    ensures PagesFrom(q, eq, order, n, offset) == Wanted(q.(limit := 0, offset := 0), eq, order)[offset..]
  {
    CountIsUnpagedLength(eq, q, order);
    PagesOf(q, eq, order, n, offset, Wanted(q.(limit := 0, offset := 0), eq, order));
  }

  lemma PageThenRest<T>(all: seq<T>, n: nat, offset: nat)
    requires offset <= |all|
    ensures Page(all, Some(n), offset) + (if offset + n <= |all| then all[offset + n..] else []) == all[offset..]
    ensures offset == |all| ==> all[offset..] == []
  {
  }

  lemma PageOfAll(q: Query, eq: Equiv, order: seq<EntryRow>, n: int, offset: int)
    requires n > 0 && offset >= 0
    ensures Wanted(q.(limit := n, offset := offset), eq, order)
            == Page(Wanted(q.(limit := 0, offset := 0), eq, order), Some(n), offset)
  {
    SameSelection(q.(limit := n, offset := offset), q, eq, order);
    SameSelection(q.(limit := 0, offset := 0), q, eq, order);
  }
}
