/**
 * What a header block says, by the positions of its fields (`captureHeaders` in
 * internal/capture/http2.go): the same as the functions of `Http2Model`, without
 * them.
 */
module Http2Blocks {
  import opened Basics
  import opened Http2Model

  /** The name starts with a colon. */
  predicate StartsWithColon(h: Header) {
    h.name != "" && h.name[0] == ':'
  }

  /** `at` lists, in rising order, exactly the positions of the fields that are pseudo-headers or that are not. */
  ghost predicate Positions(at: seq<nat>, fields: seq<Header>, pseudo: bool) {
    Rising(at) && forall i: nat :: i in at <==> i < |fields| && StartsWithColon(fields[i]) == pseudo
  }

  /** Field `i` is the last one called `name`. */
  ghost predicate LastNamed(fields: seq<Header>, name: string, i: nat) {
    i < |fields| && fields[i].name == name && forall j :: i < j < |fields| ==> fields[j].name != name
  }

  /** `value` is that of the last field called `name`, and "" where there is none. */
  ghost predicate IsLast(fields: seq<Header>, name: string, value: string) {
    && ((forall i :: 0 <= i < |fields| ==> fields[i].name != name) ==> value == "")
    && (forall i: nat :: LastNamed(fields, name, i) ==> value == fields[i].value)
  }

  ghost predicate TakenFrom(fields: seq<Header>, at: seq<nat>, headers: seq<Header>) {
    |headers| == |at| && forall k :: 0 <= k < |at| ==> at[k] < |fields| && headers[k] == fields[at[k]]
  }

  ghost predicate NamedFrom(fields: seq<Header>, at: seq<nat>, names: seq<string>) {
    |names| == |at| && forall k :: 0 <= k < |at| ==> at[k] < |fields| && names[k] == fields[at[k]].name
  }

  /** `names` are those of the fields of one kind, in order. */
  ghost predicate NamesOf(fields: seq<Header>, pseudo: bool, names: seq<string>) {
    exists at :: Positions(at, fields, pseudo) && NamedFrom(fields, at, names)
  }

  /** `headers` are the fields that are no pseudo-headers, name and value, in order. */
  ghost predicate HeadersOf(fields: seq<Header>, headers: seq<Header>) {
    exists at :: Positions(at, fields, false) && TakenFrom(fields, at, headers)
  }

  /** The request a header block amounts to, but for its body. */
  ghost predicate ReadsAs(fields: seq<Header>, r: Request) {
    && IsLast(fields, ":method", r.httpMethod) && IsLast(fields, ":path", r.target)
    && IsLast(fields, ":scheme", r.scheme) && IsLast(fields, ":authority", r.authority)
    && HeadersOf(fields, r.headers) && NamesOf(fields, true, r.pseudoOrder) && r.proto == "HTTP/2.0"
  }

  // ---- the functions of the model say that ----

  lemma {:induction false} LastValueIsLast(fields: seq<Header>, name: string)
    ensures IsLast(fields, name, LastValue(fields, name))
  {
    if fields != [] {
      var n := |fields| - 1;
      LastValueIsLast(fields[..n], name);
      forall i: nat | LastNamed(fields, name, i) && i < n
        ensures LastNamed(fields[..n], name, i) && fields[n].name != name
      {
      }
    }
  }

  lemma PseudoByCharacter(h: Header)
    ensures IsPseudo(h) <==> StartsWithColon(h)
  {
    if h.name != "" { assert h.name[..1] == [h.name[0]]; }
  }

  /** One more field is one more position, or none. */
  lemma OneMorePosition(at: seq<nat>, fields: seq<Header>, h: Header, pseudo: bool)
    requires Positions(at, fields, pseudo)
    ensures Positions(if StartsWithColon(h) == pseudo then at + [|fields|] else at, fields + [h], pseudo)
  {
    var now := if StartsWithColon(h) == pseudo then at + [|fields|] else at;
    forall i: nat
      ensures i in now <==> i < |fields + [h]| && StartsWithColon((fields + [h])[i]) == pseudo
    {
      assert i in now <==> i in at || (StartsWithColon(h) == pseudo && i == |fields|);
    }
    forall a, b | 0 <= a < b < |now|
      ensures now[a] < now[b]
    {
      assert now[a] == at[a] && at[a] in at;
    }
  }

  lemma RegularSnoc(at: seq<nat>, fields: seq<Header>, h: Header, headers: seq<Header>)
    requires Positions(at, fields, false) && TakenFrom(fields, at, headers)
    ensures HeadersOf(fields + [h], if StartsWithColon(h) then headers else headers + [h])
  {
    OneMorePosition(at, fields, h, false);
    if StartsWithColon(h) {
      assert TakenFrom(fields + [h], at, headers);
    } else {
      assert TakenFrom(fields + [h], at + [|fields|], headers + [h]);
    }
  }

  lemma NamesSnoc(at: seq<nat>, fields: seq<Header>, h: Header, pseudo: bool, names: seq<string>)
    requires Positions(at, fields, pseudo) && NamedFrom(fields, at, names)
    ensures NamesOf(fields + [h], pseudo, if StartsWithColon(h) == pseudo then names + [h.name] else names)
  {
    OneMorePosition(at, fields, h, pseudo);
    if StartsWithColon(h) == pseudo {
      assert NamedFrom(fields + [h], at + [|fields|], names + [h.name]);
    } else {
      assert NamedFrom(fields + [h], at, names);
    }
  }

  lemma SplitNext(fields: seq<Header>, h: Header)
    ensures Regular(fields + [h]) == if StartsWithColon(h) then Regular(fields) else Regular(fields) + [h]
    ensures PseudoNames(fields + [h])
            == if StartsWithColon(h) then PseudoNames(fields) + [h.name] else PseudoNames(fields)
  {
    PseudoByCharacter(h);
    assert (fields + [h])[..|fields|] == fields;
  }

  lemma RegularNext(fields: seq<Header>, h: Header)
    requires HeadersOf(fields, Regular(fields))
    ensures HeadersOf(fields + [h], Regular(fields + [h]))
  {
    var at :| Positions(at, fields, false) && TakenFrom(fields, at, Regular(fields));
    SplitNext(fields, h);
    RegularSnoc(at, fields, h, Regular(fields));
  }

  lemma PseudoNext(fields: seq<Header>, h: Header)
    requires NamesOf(fields, true, PseudoNames(fields))
    ensures NamesOf(fields + [h], true, PseudoNames(fields + [h]))
  {
    var at :| Positions(at, fields, true) && NamedFrom(fields, at, PseudoNames(fields));
    SplitNext(fields, h);
    NamesSnoc(at, fields, h, true, PseudoNames(fields));
  }

  lemma NothingIn(pseudo: bool)
    ensures HeadersOf([], []) && NamesOf([], pseudo, [])
  {
    assert Positions([], [], false) && TakenFrom([], [], []);
    assert Positions([], [], pseudo) && NamedFrom([], [], []);
  }

  lemma {:induction false} BlockIsSplit(fields: seq<Header>)
    ensures HeadersOf(fields, Regular(fields)) && NamesOf(fields, true, PseudoNames(fields))
  {
    if fields == [] {
      NothingIn(true);
    } else {
      var init, h := fields[..|fields| - 1], fields[|fields| - 1];
      BlockIsSplit(init);
      RegularNext(init, h);
      PseudoNext(init, h);
      assert fields == init + [h];
    }
  }

  lemma RegularAreNamed(fields: seq<Header>)
    ensures NamesOf(fields, false, Names(Regular(fields)))
  {
    BlockIsSplit(fields);
    var at :| Positions(at, fields, false) && TakenFrom(fields, at, Regular(fields));
    assert NamedFrom(fields, at, Names(Regular(fields)));
  }

  /** What a block opens reads as the block does. */
  lemma BlockIsRead(id: nat, fields: seq<Header>, body: Bytes)
    ensures ReadsAs(fields, RequestOf(OpenedBy(id, fields).(body := body)))
  {
    BlockIsSplit(fields);
    LastValueIsLast(fields, ":method");
    LastValueIsLast(fields, ":path");
    LastValueIsLast(fields, ":scheme");
    LastValueIsLast(fields, ":authority");
  }

  // ---- and that fixes the request ----

  lemma NamesAreFixed(fields: seq<Header>, pseudo: bool, a: seq<string>, b: seq<string>)
    requires NamesOf(fields, pseudo, a) && NamesOf(fields, pseudo, b)
    ensures a == b
  {
    var at :| Positions(at, fields, pseudo) && NamedFrom(fields, at, a);
    var bt :| Positions(bt, fields, pseudo) && NamedFrom(fields, bt, b);
    RisingIsUnique(at, bt);
  }

  lemma HeadersAreFixed(fields: seq<Header>, a: seq<Header>, b: seq<Header>)
    requires HeadersOf(fields, a) && HeadersOf(fields, b)
    ensures a == b
  {
    var at :| Positions(at, fields, false) && TakenFrom(fields, at, a);
    var bt :| Positions(bt, fields, false) && TakenFrom(fields, bt, b);
    RisingIsUnique(at, bt);
  }

  lemma {:induction false} SomeLast(fields: seq<Header>, name: string) returns (i: nat)
    requires exists h :: h in fields && h.name == name
    ensures LastNamed(fields, name, i)
  {
    var n := |fields| - 1;
    if fields[n].name == name {
      i := n;
    } else {
      assert forall h :: h in fields ==> h in fields[..n] || h == fields[n];
      i := SomeLast(fields[..n], name);
    }
  }

  lemma LastIsFixed(fields: seq<Header>, name: string, a: string, b: string)
    requires IsLast(fields, name, a) && IsLast(fields, name, b)
    ensures a == b
  {
    if exists h :: h in fields && h.name == name {
      var i := SomeLast(fields, name);
    } else {
      assert forall i :: 0 <= i < |fields| ==> fields[i] in fields;
    }
  }

  /** A request reads as the block exactly when it is the one the block opens. */
  lemma ReadsAsIsExact(id: nat, fields: seq<Header>, r: Request)
    ensures ReadsAs(fields, r) <==> r == RequestOf(OpenedBy(id, fields).(body := r.body))
  {
    var q := RequestOf(OpenedBy(id, fields).(body := r.body));
    BlockIsRead(id, fields, r.body);
    if ReadsAs(fields, r) {
      LastIsFixed(fields, ":method", r.httpMethod, q.httpMethod);
      LastIsFixed(fields, ":path", r.target, q.target);
      LastIsFixed(fields, ":scheme", r.scheme, q.scheme);
      LastIsFixed(fields, ":authority", r.authority, q.authority);
      HeadersAreFixed(fields, r.headers, q.headers);
      NamesAreFixed(fields, true, r.pseudoOrder, q.pseudoOrder);
    }
  }
}
