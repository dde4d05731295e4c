/**
 * The SQL text the store compiles a Query to (internal/store/query.go,
 * internal/store/schema.go), and what that text means to the database: a lexer
 * for either placeholder style, a parser, and an evaluator over entry rows.
 * The text modelled is what follows the constant `SELECT ... FROM entries`.
 */
module Sql {
  import opened Basics

  // ---- placeholders ----

  /** A character of SQL text, or a placeholder for the n-th argument. */
  datatype Sym = Ch(c: char) | Bind(n: nat)

  function Lit(s: string): seq<Sym> {
    seq(|s|, i requires 0 <= i < |s| => Ch(s[i]))
  }

  function Marks(query: string): nat {
    if query == [] then 0 else (if query[0] == '?' then 1 else 0) + Marks(query[1..])
  }

  /** SQLite: each '?' binds the next argument after `n`. */
  function LexMarks(text: string, n: nat): seq<Sym> {
    if text == [] then []
    else if text[0] == '?' then [Bind(n + 1)] + LexMarks(text[1..], n + 1)
    else [Ch(text[0])] + LexMarks(text[1..], n)
  }

  function LeadingDigits(s: string): (ds: string)
    ensures |ds| <= |s| && ds == s[..|ds|]
    ensures forall c :: c in ds ==> IsDigit(c)
    ensures |ds| < |s| ==> !IsDigit(s[|ds|])
  {
    if s == [] || !IsDigit(s[0]) then [] else [s[0]] + LeadingDigits(s[1..])
  }

  /** PostgreSQL: '$' followed by digits binds that argument, any other '$' is a character. */
  function LexDollars(text: string): seq<Sym>
    decreases |text|
  {
    if text == [] then []
    else if text[0] == '$' && LeadingDigits(text[1..]) != [] then
      var ds := LeadingDigits(text[1..]);
      [Bind(NumberOf(ds))] + LexDollars(text[1 + |ds|..])
    else [Ch(text[0])] + LexDollars(text[1..])
  }

  /** `rebind` for PostgreSQL with `n` placeholders already numbered. */
  function Rebound(query: string, n: nat): string {
    if query == [] then []
    else if query[0] == '?' then "$" + Decimal(n + 1) + Rebound(query[1..], n + 1)
    else [query[0]] + Rebound(query[1..], n)
  }

  lemma {:induction false} MarksAppend(a: string, b: string)
    ensures Marks(a + b) == Marks(a) + Marks(b)
    decreases |a|
  {
    if a == [] {
      assert a + b == b;
    } else {
      assert (a + b)[1..] == a[1..] + b;
      MarksAppend(a[1..], b);
    }
  }

  lemma {:induction false} ReboundSnoc(a: string, c: char, n: nat)
    ensures Rebound(a + [c], n)
            == Rebound(a, n) + if c == '?' then "$" + Decimal(n + Marks(a) + 1) else [c]
    decreases |a|
  {
    if a == [] {
      assert a + [c] == [c] && [c][1..] == [];
    } else {
      assert (a + [c])[1..] == a[1..] + [c];
      var k := if a[0] == '?' then 1 else 0;
      ReboundSnoc(a[1..], c, n + k);
      var head := if a[0] == '?' then "$" + Decimal(n + 1) else [a[0]];
      Associate(head, Rebound(a[1..], n + k), if c == '?' then "$" + Decimal(n + Marks(a) + 1) else [c]);
    }
  }

  /** `rebind`: SQLite text is kept, PostgreSQL gets $1, $2, ... in order. */
  method Rebind(postgres: bool, query: string) returns (b: string)
    ensures b == if postgres then Rebound(query, 0) else query
  {
    if !postgres {
      return query;
    }
    b := "";
    var n := 0;
    for i := 0 to |query|
      invariant n == Marks(query[..i]) && b == Rebound(query[..i], 0)
    {
      assert query[..i + 1] == query[..i] + [query[i]];
      MarksAppend(query[..i], [query[i]]);
      assert [query[i]][1..] == [];
      ReboundSnoc(query[..i], query[i], 0);
      if query[i] == '?' {
        n := n + 1;
        b := b + "$";
        b := b + Decimal(n);
      } else {
        b := b + [query[i]];
      }
    }
    assert query[..|query|] == query;
  }

  /** No '?' and no '$' is immediately followed by a digit. */
  predicate Rebindable(text: string) {
    forall i :: 0 <= i < |text| - 1 && (text[i] == '?' || text[i] == '$') ==> !IsDigit(text[i + 1])
  }

  lemma LeadingDigitsHead(c: char, rest: string)
    requires IsDigit(c)
    ensures LeadingDigits([c] + rest) == [c] + LeadingDigits(rest)
  {
    assert ([c] + rest)[1..] == rest;
  }

  lemma {:induction false} LeadingDigitsOf(ds: string, rest: string)
    requires forall c :: c in ds ==> IsDigit(c)
    ensures LeadingDigits(ds + rest) == ds + LeadingDigits(rest)
    decreases |ds|
  {
    if ds == [] {
      assert ds + rest == rest;
    } else {
      var c, more := ds[0], ds[1..];
      assert ds == [c] + more;
      LeadingDigitsOf(more, rest);
      Associate([c], more, rest);
      Associate([c], more, LeadingDigits(rest));
      LeadingDigitsHead(c, more + rest);
    }
  }

  lemma {:induction false} LongerIsLarger(ds: string, more: string)
    requires forall c :: c in ds + more ==> IsDigit(c)
    ensures (forall c :: c in ds ==> IsDigit(c)) && (forall c :: c in more ==> IsDigit(c))
    ensures NumberOf(ds + more) >= NumberOf(ds)
    ensures more != [] ==> NumberOf(ds + more) >= 10 * NumberOf(ds)
    decreases |more|
  {
    assert forall c :: c in ds ==> c in ds + more;
    assert forall c :: c in more ==> c in ds + more;
    if more == [] {
      assert ds + more == ds;
    } else {
      assert (ds + more)[..|ds + more| - 1] == ds + more[..|more| - 1];
      assert forall c :: c in ds + more[..|more| - 1] ==> c in ds + more;
      LongerIsLarger(ds, more[..|more| - 1]);
    }
  }

  lemma ReboundHead(text: string, n: nat)
    requires text != []
    ensures Rebound(text, n) != []
    ensures Rebound(text, n)[0] == (if text[0] == '?' then '$' else text[0])
  {
  }

  /**
   * The rebound text means to PostgreSQL what the original means to SQLite,
   * placeholder by placeholder and character by character, exactly when no '?'
   * or '$' in it is followed by a digit.
   */
  lemma {:induction false} RebindKeepsMeaning(text: string, n: nat)
    ensures LexDollars(Rebound(text, n)) == LexMarks(text, n) <==> Rebindable(text)
    decreases |text|
  {
    if text != [] {
      var rest := text[1..];
      RebindableTail(text);
      if text[0] == '?' {
        RebindKeepsMeaning(rest, n + 1);
        RebindMark(text, n);
        SameHead(Bind(n + 1), LexDollars(Rebound(rest, n + 1)), LexMarks(rest, n + 1));
      } else {
        RebindKeepsMeaning(rest, n);
        RebindOther(text, n);
        SameHead(Ch(text[0]), LexDollars(Rebound(rest, n)), LexMarks(rest, n));
      }
    }
  }

  lemma SameHead(x: Sym, a: seq<Sym>, b: seq<Sym>)
    ensures [x] + a == [x] + b <==> a == b
  {
    assert ([x] + a)[1..] == a && ([x] + b)[1..] == b;
  }

  lemma RebindableTail(text: string)
    requires text != []
    ensures Rebindable(text)
            <==> Rebindable(text[1..]) && !(|text| > 1 && (text[0] == '?' || text[0] == '$') && IsDigit(text[1]))
  {
    var rest := text[1..];
    assert forall i :: 0 <= i < |rest| ==> rest[i] == text[i + 1];
    if Rebindable(rest) && !(|text| > 1 && (text[0] == '?' || text[0] == '$') && IsDigit(text[1])) {
      forall i | 0 <= i < |text| - 1 && (text[i] == '?' || text[i] == '$')
        ensures !IsDigit(text[i + 1])
      {
        if i > 0 { assert rest[i - 1] == text[i]; }
      }
    }
  }

  lemma DollarHead(all: string, ds: string, rest: string)
    requires all != [] && all[0] == '$' && LeadingDigits(all[1..]) == ds != [] && all[1 + |ds|..] == rest
    ensures LexDollars(all) == [Bind(NumberOf(ds))] + LexDollars(rest)
  {
  }

  lemma DollarParts(ds: string, lead: string, tail: string)
    requires |lead| <= |tail|
    ensures var all := ['$'] + (ds + tail);
            all[0] == '$' && all[1..] == ds + tail && all[1 + |ds + lead|..] == tail[|lead|..]
  {
  }

  /** A '$' in front of digits takes those that follow as well. */
  lemma DollarLexes(ds: string, lead: string, tail: string)
    requires ds != [] && lead == LeadingDigits(tail) && forall c :: c in ds ==> IsDigit(c)
    ensures forall c :: c in ds + lead ==> IsDigit(c)
    ensures LexDollars(['$'] + (ds + tail)) == [Bind(NumberOf(ds + lead))] + LexDollars(tail[|lead|..])
  {
    DollarParts(ds, lead, tail);
    LeadingDigitsOf(ds, tail);
    DollarHead(['$'] + (ds + tail), ds + lead, tail[|lead|..]);
  }

  lemma RebindMark(text: string, n: nat)
    requires text != [] && text[0] == '?'
    ensures var rest, bound := text[1..], Rebound(text[1..], n + 1);
            if |text| > 1 && IsDigit(text[1]) then LexDollars(Rebound(text, n)) != LexMarks(text, n)
            else LexDollars(Rebound(text, n)) == [Bind(n + 1)] + LexDollars(bound)
  {
    var rest, ds := text[1..], Decimal(n + 1);
    var bound := Rebound(rest, n + 1);
    var lead := LeadingDigits(bound);
    assert Rebound(text, n) == ['$'] + (ds + bound);
    DollarLexes(ds, lead, bound);
    NumberOfDecimal(n + 1);
    if rest != [] { ReboundHead(rest, n + 1); }
    if |text| > 1 && IsDigit(text[1]) {
      LongerIsLarger(ds, lead);
      assert LexDollars(Rebound(text, n))[0] != LexMarks(text, n)[0];
    } else {
      assert ds + lead == ds && bound[|lead|..] == bound;
    }
  }

  lemma RebindOther(text: string, n: nat)
    requires text != [] && text[0] != '?'
    ensures if |text| > 1 && text[0] == '$' && IsDigit(text[1]) then LexDollars(Rebound(text, n)) != LexMarks(text, n)
            else LexDollars(Rebound(text, n)) == [Ch(text[0])] + LexDollars(Rebound(text[1..], n))
  {
    var all := Rebound(text, n);
    assert all[1..] == Rebound(text[1..], n);
    if |text| > 1 { ReboundHead(text[1..], n); }
    if text[0] == '$' && |text| > 1 && IsDigit(text[1]) {
      assert LexDollars(all)[0].Bind? && LexMarks(text, n)[0] == Ch('$');
    }
  }

  /** What the database reads: the text after `rebind`, lexed in its own placeholder style. */
  function Lex(postgres: bool, text: string): seq<Sym> {
    if postgres then LexDollars(text) else LexMarks(text, 0)
  }

  // ---- statements ----

  datatype Cond = Equals(column: string, arg: nat) | LikeCond(column: string, arg: nat)

  datatype Tail = Tail(conds: seq<Cond>, descending: bool, limit: Option<nat>, offset: Option<nat>)

  function Eat(syms: seq<Sym>, word: string): Option<seq<Sym>> {
    if |word| <= |syms| && syms[..|word|] == Lit(word) then Some(syms[|word|..]) else None
  }

  predicate IsNameChar(c: char) {
    'a' <= c <= 'z' || c == '_'
  }

  /** The longest column name at the front. */
  function Name(syms: seq<Sym>): (name: string)
    ensures |name| <= |syms|
  {
    if syms != [] && syms[0].Ch? && IsNameChar(syms[0].c) then [syms[0].c] + Name(syms[1..]) else []
  }

  function EatBind(syms: seq<Sym>): Option<(nat, seq<Sym>)> {
    if syms != [] && syms[0].Bind? then Some((syms[0].n, syms[1..])) else None
  }

  /** `column = ?` or `column LIKE ? ESCAPE '\'`. */
  function ParseCond(syms: seq<Sym>): (r: Option<(Cond, seq<Sym>)>)
    ensures r.Some? ==> |r.value.1| < |syms|
  {
    var name := Name(syms);
    var rest := syms[|name|..];
    match Eat(rest, " = ")
    case Some(after) =>
      (match EatBind(after) case None => None case Some((n, end)) => Some((Equals(name, n), end)))
    case None =>
      match Eat(rest, " LIKE ")
      case None => None
      case Some(after) =>
        match EatBind(after)
        case None => None
        case Some((n, then')) =>
          match Eat(then', " ESCAPE '\\'")
          case None => None
          case Some(end) => Some((LikeCond(name, n), end))
  }

  /** Conditions joined by AND. */
  function ParseConds(syms: seq<Sym>): Option<(seq<Cond>, seq<Sym>)>
    decreases |syms|
  {
    match ParseCond(syms)
    case None => None
    case Some((cond, rest)) =>
      match Eat(rest, " AND ")
      case None => Some(([cond], rest))
      case Some(more) =>
        match ParseConds(more)
        case None => None
        case Some((conds, end)) => Some(([cond] + conds, end))
  }

  function ParseWhere(syms: seq<Sym>): Option<(seq<Cond>, seq<Sym>)> {
    match Eat(syms, " WHERE ")
    case None => Some(([], syms))
    case Some(rest) => ParseConds(rest)
  }

  function ParseOrder(syms: seq<Sym>): (bool, seq<Sym>) {
    match Eat(syms, " ORDER BY id DESC")
    case Some(rest) => (true, rest)
    case None =>
      match Eat(syms, " ORDER BY id ASC")
      case Some(rest) => (false, rest)
      case None => (false, syms)
  }

  function ParseCount(syms: seq<Sym>, word: string): Option<(Option<nat>, seq<Sym>)> {
    match Eat(syms, word)
    case None => Some((None, syms))
    case Some(rest) =>
      match EatBind(rest)
      case None => None
      case Some((n, end)) => Some((Some(n), end))
  }

  /** The whole tail, or None where the database reports a syntax error: SQLite has no OFFSET without LIMIT. */
  function ParseTail(postgres: bool, syms: seq<Sym>): Option<Tail> {
    match ParseWhere(syms)
    case None => None
    case Some((conds, afterWhere)) =>
      var (descending, afterOrder) := ParseOrder(afterWhere);
      match ParseCount(afterOrder, " LIMIT ")
      case None => None
      case Some((limit, afterLimit)) =>
        match ParseCount(afterLimit, " OFFSET ")
        case None => None
        case Some((offset, end)) =>
          if end != [] || (!postgres && limit.None? && offset.Some?) then None
          else Some(Tail(conds, descending, limit, offset))
  }

  // ---- reading back what was written ----

  lemma EatHit(word: string, rest: seq<Sym>)
    ensures Eat(Lit(word) + rest, word) == Some(rest)
  {
    var all := Lit(word) + rest;
    assert all[..|word|] == Lit(word) && all[|word|..] == rest;
  }

  lemma EatMiss(syms: seq<Sym>, word: string, i: nat)
    requires i < |word| && (i >= |syms| || syms[i] != Ch(word[i]))
    ensures Eat(syms, word) == None
  {
    if |word| <= |syms| {
      assert syms[..|word|][i] != Lit(word)[i];
    }
  }

  lemma {:induction false} NameHit(name: string, rest: seq<Sym>)
    requires forall c :: c in name ==> IsNameChar(c)
    requires rest == [] || rest[0].Bind? || !IsNameChar(rest[0].c)
    ensures Name(Lit(name) + rest) == name
  {
    var all := Lit(name) + rest;
    if name == [] {
      assert all == rest;
    } else {
      assert all[1..] == Lit(name[1..]) + rest;
      NameHit(name[1..], rest);
      assert [name[0]] + name[1..] == name;
    }
  }

  function CondSyms(cond: Cond): seq<Sym> {
    match cond
    case Equals(column, arg) => Lit(column) + (Lit(" = ") + [Bind(arg)])
    case LikeCond(column, arg) => Lit(column) + (Lit(" LIKE ") + ([Bind(arg)] + Lit(" ESCAPE '\\'")))
  }

  predicate ColumnName(s: string) {
    forall c :: c in s ==> IsNameChar(c)
  }

  lemma CondRoundTrip(cond: Cond, rest: seq<Sym>)
    requires ColumnName(cond.column)
    ensures ParseCond(CondSyms(cond) + rest) == Some((cond, rest))
  {
    match cond
    case Equals(column, arg) =>
      var after := [Bind(arg)] + rest;
      assert CondSyms(cond) + rest == Lit(column) + (Lit(" = ") + after);
      NameHit(column, Lit(" = ") + after);
      EatHit(" = ", after);
      assert (CondSyms(cond) + rest)[|column|..] == Lit(" = ") + after;
    case LikeCond(column, arg) =>
      var esc := Lit(" ESCAPE '\\'") + rest;
      var after := [Bind(arg)] + esc;
      assert CondSyms(cond) + rest == Lit(column) + (Lit(" LIKE ") + after);
      NameHit(column, Lit(" LIKE ") + after);
      assert (CondSyms(cond) + rest)[|column|..] == Lit(" LIKE ") + after;
      EatMiss(Lit(" LIKE ") + after, " = ", 1);
      EatHit(" LIKE ", after);
      assert after[1..] == esc;
      EatHit(" ESCAPE '\\'", rest);
  }

  function CondsSyms(conds: seq<Cond>): seq<Sym>
    requires conds != []
  {
    if |conds| == 1 then CondSyms(conds[0]) else CondSyms(conds[0]) + (Lit(" AND ") + CondsSyms(conds[1..]))
  }

  lemma OneMoreCond(syms: seq<Sym>, cond: Cond, more: seq<Sym>, conds: seq<Cond>, end: seq<Sym>)
    requires ParseCond(syms) == Some((cond, Lit(" AND ") + more))
    requires ParseConds(more) == Some((conds, end))
    ensures ParseConds(syms) == Some(([cond] + conds, end))
  {
    EatHit(" AND ", more);
  }

  lemma OneCondRoundTrip(cond: Cond, rest: seq<Sym>)
    requires ColumnName(cond.column) && Eat(rest, " AND ") == None
    ensures ParseConds(CondSyms(cond) + rest) == Some(([cond], rest))
  {
    CondRoundTrip(cond, rest);
  }

  lemma Regroup<T>(a: seq<T>, b: seq<T>, c: seq<T>, d: seq<T>)
    ensures (a + (b + c)) + d == a + (b + (c + d))
  {
  }

  /** Where a list of conditions splits: after the first one comes AND and the others. */
  lemma CondsSplit(conds: seq<Cond>, rest: seq<Sym>)
    requires |conds| > 1 && ColumnName(conds[0].column)
    ensures ParseCond(CondsSyms(conds) + rest)
            == Some((conds[0], Lit(" AND ") + (CondsSyms(conds[1..]) + rest)))
  {
    var others := CondsSyms(conds[1..]);
    Regroup(CondSyms(conds[0]), Lit(" AND "), others, rest);
    CondRoundTrip(conds[0], Lit(" AND ") + (others + rest));
  }

  predicate ColumnNames(conds: seq<Cond>) {
    conds == [] || (ColumnName(conds[0].column) && ColumnNames(conds[1..]))
  }

  lemma {:induction false} CondsRoundTrip(conds: seq<Cond>, rest: seq<Sym>)
    requires conds != [] && ColumnNames(conds) && Eat(rest, " AND ") == None
    ensures ParseConds(CondsSyms(conds) + rest) == Some((conds, rest))
    decreases |conds|
  {
    var first, more := conds[0], conds[1..];
    assert [first] + more == conds;
    if |conds| == 1 {
      assert more == [] && conds == [first];
      OneCondRoundTrip(first, rest);
    } else {
      CondsRoundTrip(more, rest);
      CondsSplit(conds, rest);
      OneMoreCond(CondsSyms(conds) + rest, first, CondsSyms(more) + rest, more, rest);
    }
  }

  function CountSyms(word: string, n: Option<nat>): seq<Sym> {
    if n.Some? then Lit(word) + [Bind(n.value)] else []
  }

  function OrderWord(descending: bool): string {
    if descending then " ORDER BY id DESC" else " ORDER BY id ASC"
  }

  function WhereSyms(conds: seq<Cond>): seq<Sym> {
    WordAndConds(" WHERE ", conds)
  }

  function WordAndConds(word: string, conds: seq<Cond>): seq<Sym> {
    if conds == [] then [] else Lit(word) + CondsSyms(conds)
  }

  function TailSyms(t: Tail): seq<Sym> {
    WhereSyms(t.conds)
    + (Lit(OrderWord(t.descending)) + PageSyms(t.limit, t.offset))
  }

  function PageSyms(limit: Option<nat>, offset: Option<nat>): seq<Sym> {
    CountSyms(" LIMIT ", limit) + CountSyms(" OFFSET ", offset)
  }

  lemma CountRoundTrip(word: string, n: Option<nat>, rest: seq<Sym>)
    requires n.None? ==> Eat(rest, word) == None
    ensures ParseCount(CountSyms(word, n) + rest, word) == Some((n, rest))
  {
    if n.Some? {
      assert CountSyms(word, n) + rest == Lit(word) + ([Bind(n.value)] + rest);
      EatHit(word, [Bind(n.value)] + rest);
      assert ([Bind(n.value)] + rest)[1..] == rest;
    } else {
      assert [] + rest == rest;
    }
  }

  lemma WhereRoundTrip(conds: seq<Cond>, rest: seq<Sym>)
    requires ColumnNames(conds)
    requires Eat(rest, " WHERE ") == None && Eat(rest, " AND ") == None
    ensures ParseWhere(WhereSyms(conds) + rest) == Some((conds, rest))
  {
    if conds == [] {
      assert [] + rest == rest;
    } else {
      assert WhereSyms(conds) + rest == Lit(" WHERE ") + (CondsSyms(conds) + rest);
      EatHit(" WHERE ", CondsSyms(conds) + rest);
      CondsRoundTrip(conds, rest);
    }
  }

  lemma OrderRoundTrip(descending: bool, rest: seq<Sym>)
    ensures ParseOrder(Lit(OrderWord(descending)) + rest) == (descending, rest)
  {
    var all := Lit(OrderWord(descending)) + rest;
    EatHit(OrderWord(descending), rest);
    if !descending {
      assert all[13] == Ch('A');
      EatMiss(all, " ORDER BY id DESC", 13);
    }
  }

  lemma OrderStops(descending: bool, rest: seq<Sym>)
    ensures Eat(Lit(OrderWord(descending)) + rest, " WHERE ") == None
    ensures Eat(Lit(OrderWord(descending)) + rest, " AND ") == None
  {
    var all := Lit(OrderWord(descending)) + rest;
    assert all[1] == Ch('O');
    EatMiss(all, " WHERE ", 1);
    EatMiss(all, " AND ", 1);
  }

  lemma LimitStops(offset: Option<nat>)
    ensures Eat(CountSyms(" OFFSET ", offset), " LIMIT ") == None
  {
    EatMiss(CountSyms(" OFFSET ", offset), " LIMIT ", 1);
  }

  /** Every tail with an ORDER clause is read back as itself, but for SQLite's bare OFFSET. */
  lemma TailRoundTrip(postgres: bool, t: Tail)
    requires ColumnNames(t.conds)
    ensures ParseTail(postgres, TailSyms(t))
            == if !postgres && t.limit.None? && t.offset.Some? then None else Some(t)
  {
    var offset := CountSyms(" OFFSET ", t.offset);
    var counts := CountSyms(" LIMIT ", t.limit) + offset;
    var order := Lit(OrderWord(t.descending)) + counts;
    OrderStops(t.descending, counts);
    WhereRoundTrip(t.conds, order);
    OrderRoundTrip(t.descending, counts);
    LimitStops(t.offset);
    CountRoundTrip(" LIMIT ", t.limit, offset);
    EatMiss([], " OFFSET ", 0);
    CountRoundTrip(" OFFSET ", t.offset, []);
    assert offset + [] == offset;
  }
}
