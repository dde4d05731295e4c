/**
 * `Mirror.buildRequest` (internal/upstream/upstream.go): a captured header list
 * becomes a map of exact-cased names to values plus a lowercased order key.
 */
module Replay {
  import opened Basics
  import opened Lists

  /** A captured request as `buildRequest` reads it. */
  datatype Captured = Captured(
    httpMethod: string, scheme: string, authority: string, target: string,
    headers: seq<Header>, pseudoOrder: Option<seq<string>>, body: Option<Bytes>, chunked: bool)

  datatype Framing = ByLength(length: nat) | Chunked

  datatype HttpRequest = HttpRequest(
    httpMethod: string, url: string, host: string, body: Option<Bytes>, framing: Framing,
    header: map<string, seq<string>>, order: seq<string>, pseudoOrder: Option<seq<string>>)

  /** Headers whose value the transport writes itself. */
  predicate FramedByTransport(usedH2: bool, name: string) {
    Lower(name) == "host" || Lower(name) == "transfer-encoding" || (Lower(name) == "content-length" && !usedH2)
  }

  /** The order key: every header's lowercased name at its captured position. */
  function Order(headers: seq<Header>): seq<string> {
    seq(|headers|, i requires 0 <= i < |headers| => Lower(headers[i].name))
  }

  /** The headers that go into the map, in captured order. */
  function Kept(usedH2: bool, headers: seq<Header>): seq<Header> {
    if headers == [] then []
    else
      var init, last := Kept(usedH2, headers[..|headers| - 1]), headers[|headers| - 1];
      if FramedByTransport(usedH2, last.name) then init else init + [last]
  }

  /** The values of the headers with exactly this name, in captured order. */
  function ValuesOf(headers: seq<Header>, name: string): seq<string> {
    if headers == [] then []
    else
      var init, last := ValuesOf(headers[..|headers| - 1], name), headers[|headers| - 1];
      if last.name == name then init + [last.value] else init
  }

  function Add(m: map<string, seq<string>>, h: Header): map<string, seq<string>> {
    m[h.name := (if h.name in m then m[h.name] else []) + [h.value]]
  }

  function HeaderMap(usedH2: bool, headers: seq<Header>): map<string, seq<string>> {
    if headers == [] then map[]
    else
      var init, last := HeaderMap(usedH2, headers[..|headers| - 1]), headers[|headers| - 1];
      if FramedByTransport(usedH2, last.name) then init else Add(init, last)
  }

  // ---- which headers are stored, by their names ----

  /** The name, in any casing. */
  predicate Folds(name: string, to: string) {
    IsLowered(name, to)
  }

  /** Headers with such a name are left to the transport: Content-Length only where it frames the body. */
  predicate LeftOut(usedH2: bool, name: string) {
    Folds(name, "host") || Folds(name, "transfer-encoding") || (!usedH2 && Folds(name, "content-length"))
  }

  /** `at` lists the positions of the headers with exactly this name, in rising order. */
  ghost predicate At(headers: seq<Header>, name: string, at: seq<nat>) {
    Rising(at) && forall i: nat :: i in at <==> i < |headers| && headers[i].name == name
  }

  /** `values` are those of the headers with exactly this name, in captured order. */
  ghost predicate ValuesInOrder(headers: seq<Header>, name: string, values: seq<string>) {
    exists at :: At(headers, name, at) && ValuesAt(headers, at, values)
  }

  ghost predicate ValuesAt(headers: seq<Header>, at: seq<nat>, values: seq<string>) {
    |values| == |at| && forall k :: 0 <= k < |at| ==> at[k] < |headers| && values[k] == headers[at[k]].value
  }

  ghost function LeftOutAt(usedH2: bool, headers: seq<Header>): set<nat> {
    set i: nat | i < |headers| && LeftOut(usedH2, headers[i].name)
  }

  /** Every captured name is a key with its values in order, but for those left out; the rest are counted. */
  ghost predicate Stores(usedH2: bool, headers: seq<Header>, stored: map<string, seq<string>>) {
    && (forall name :: name in stored
          <==> !LeftOut(usedH2, name) && exists i :: 0 <= i < |headers| && headers[i].name == name)
    && (forall name :: name in stored ==> ValuesInOrder(headers, name, stored[name]))
    && |headers| == TotalValues(stored) + |LeftOutAt(usedH2, headers)|
  }

  method BuildRequest(usedH2: bool, req: Captured) returns (hr: HttpRequest)
    ensures Stores(usedH2, req.headers, hr.header)
    ensures |hr.order| == |req.headers|
    ensures forall i :: 0 <= i < |hr.order| ==> IsLowered(req.headers[i].name, hr.order[i])
    ensures hr.header == HeaderMap(usedH2, req.headers) && hr.order == Order(req.headers)
    ensures hr.pseudoOrder == req.pseudoOrder && hr.body == req.body && hr.httpMethod == req.httpMethod
    ensures hr.url == req.scheme + "://" + req.authority + req.target && hr.host == req.authority
    ensures hr.framing == if !usedH2 && req.chunked then Chunked
                          else ByLength(if req.body.Some? then |req.body.value| else 0)
  {
    HeaderMapStores(usedH2, req.headers);
    OrderIsLowered(req.headers);
    var framing := Chunked;
    if usedH2 || !req.chunked {
      framing := ByLength(match req.body case Some(b) => |b| case None => 0);
    }
    var header, order := StoreHeaders(usedH2, req.headers);
    hr := HttpRequest(req.httpMethod, req.scheme + "://" + req.authority + req.target, req.authority, req.body,
                      framing, header, order, req.pseudoOrder);
  }

  /** The header loop: the map the transport writes from, and the order key. */
  method StoreHeaders(usedH2: bool, headers: seq<Header>) returns (header: map<string, seq<string>>, order: seq<string>)
    ensures header == HeaderMap(usedH2, headers) && order == Order(headers)
  {
    header, order := map[], [];
    for i := 0 to |headers|
      invariant order == Order(headers)[..i]
      invariant header == HeaderMap(usedH2, headers[..i])
    {
      var h := headers[i];
      HeaderMapNext(usedH2, headers, i);
      TakeNext(Order(headers), i);
      order := order + [Lower(h.name)];
      if !FramedByTransport(usedH2, h.name) {
        header := header[h.name := (if h.name in header then header[h.name] else []) + [h.value]];
      }
    }
    TakeAll(headers);
    TakeAll(Order(headers));
  }

  lemma HeaderMapNext(usedH2: bool, headers: seq<Header>, i: nat)
    requires i < |headers|
    ensures var h, m := headers[i], HeaderMap(usedH2, headers[..i]);
            HeaderMap(usedH2, headers[..i + 1]) == if FramedByTransport(usedH2, h.name) then m else Add(m, h)
  {
    assert headers[..i + 1][..i] == headers[..i];
  }

  // ---- no header is lost ----

  /** Each exact-cased name maps to its own values in captured order; transport-framed names do not occur. */
  lemma {:induction false} HeaderMapIs(usedH2: bool, headers: seq<Header>, name: string)
    ensures var m := HeaderMap(usedH2, headers);
            && (name in m <==> !FramedByTransport(usedH2, name) && ValuesOf(headers, name) != [])
            && (name in m ==> m[name] == ValuesOf(headers, name))
  {
    if headers != [] {
      HeaderMapIs(usedH2, headers[..|headers| - 1], name);
    }
  }

  ghost function TotalValues(m: map<string, seq<string>>): nat
    decreases |m|
  {
    if m == map[] then 0
    else
      var n :| n in m;
      |m[n]| + TotalValues(m - {n})
  }

  lemma {:induction false} TotalWithout(m: map<string, seq<string>>, name: string)
    requires name in m
    ensures TotalValues(m) == |m[name]| + TotalValues(m - {name})
    decreases |m|
  {
    var n :| n in m && TotalValues(m) == |m[n]| + TotalValues(m - {n});
    if n != name {
      TotalWithout(m - {n}, name);
      TotalWithout(m - {name}, n);
      assert (m - {n}) - {name} == (m - {name}) - {n};
    }
  }

  lemma TotalAdd(m: map<string, seq<string>>, h: Header)
    ensures TotalValues(Add(m, h)) == TotalValues(m) + 1
  {
    TotalWithout(Add(m, h), h.name);
    if h.name in m {
      TotalWithout(m, h.name);
      assert Add(m, h) - {h.name} == m - {h.name};
    } else {
      assert Add(m, h) - {h.name} == m;
    }
  }

  function CountFramed(usedH2: bool, headers: seq<Header>): nat {
    if headers == [] then 0
    else
      CountFramed(usedH2, headers[..|headers| - 1])
      + if FramedByTransport(usedH2, headers[|headers| - 1].name) then 1 else 0
  }

  /** Stored values and transport-framed headers together count up to the captured list. */
  lemma {:induction false} NoHeaderIsLost(usedH2: bool, headers: seq<Header>)
    ensures TotalValues(HeaderMap(usedH2, headers)) + CountFramed(usedH2, headers) == |headers|
    ensures TotalValues(HeaderMap(usedH2, headers)) == |Kept(usedH2, headers)|
  {
    if headers != [] {
      var init, h := headers[..|headers| - 1], headers[|headers| - 1];
      NoHeaderIsLost(usedH2, init);
      TotalAdd(HeaderMap(usedH2, init), h);
    }
  }

  // ---- the map holds what it should ----

  lemma LoweredIsLower(name: string, low: string)
    ensures IsLowered(name, low) <==> low == Lower(name)
  {
    LowerIsLowered(name);
  }

  lemma OrderIsLowered(headers: seq<Header>)
    ensures forall i :: 0 <= i < |headers| ==> IsLowered(headers[i].name, Order(headers)[i])
  {
    forall i | 0 <= i < |headers|
      ensures IsLowered(headers[i].name, Order(headers)[i])
    {
      LowerIsLowered(headers[i].name);
    }
  }

  lemma FramedIsLeftOut(usedH2: bool, name: string)
    ensures FramedByTransport(usedH2, name) <==> LeftOut(usedH2, name)
  {
    LoweredIsLower(name, "host");
    LoweredIsLower(name, "transfer-encoding");
    LoweredIsLower(name, "content-length");
  }

  lemma OneMoreAt(init: seq<Header>, h: Header, name: string, at: seq<nat>)
    requires At(init, name, at)
    ensures At(init + [h], name, if h.name == name then at + [|init|] else at)
  {
    var now := if h.name == name then at + [|init|] else at;
    forall i: nat
      ensures i in now <==> i < |init + [h]| && (init + [h])[i].name == name
    {
      assert i in now <==> i in at || (h.name == name && i == |init|);
    }
    forall a, b | 0 <= a < b < |now|
      ensures now[a] < now[b]
    {
      assert now[a] == at[a] && at[a] in at;
    }
  }

  lemma OneMoreValue(init: seq<Header>, h: Header, name: string, at: seq<nat>, values: seq<string>)
    requires At(init, name, at) && ValuesAt(init, at, values)
    ensures ValuesInOrder(init + [h], name, if h.name == name then values + [h.value] else values)
  {
    OneMoreAt(init, h, name, at);
    if h.name == name {
      assert ValuesAt(init + [h], at + [|init|], values + [h.value]);
    } else {
      assert ValuesAt(init + [h], at, values);
    }
  }

  lemma ValuesNext(init: seq<Header>, h: Header, name: string)
    requires ValuesInOrder(init, name, ValuesOf(init, name))
    ensures ValuesInOrder(init + [h], name, ValuesOf(init + [h], name))
  {
    var at :| At(init, name, at) && ValuesAt(init, at, ValuesOf(init, name));
    OneMoreValue(init, h, name, at, ValuesOf(init, name));
    assert (init + [h])[..|init|] == init;
  }

  lemma {:induction false} ValuesAreInOrder(headers: seq<Header>, name: string)
    ensures ValuesInOrder(headers, name, ValuesOf(headers, name))
  {
    if headers == [] {
      assert At([], name, []) && ValuesAt([], [], []);
    } else {
      var init, h := headers[..|headers| - 1], headers[|headers| - 1];
      ValuesAreInOrder(init, name);
      ValuesNext(init, h, name);
      assert headers == init + [h];
    }
  }

  lemma {:induction false} ValuesWhenCaptured(headers: seq<Header>, name: string)
    ensures ValuesOf(headers, name) != [] <==> exists i :: 0 <= i < |headers| && headers[i].name == name
  {
    if headers != [] {
      var n := |headers| - 1;
      ValuesWhenCaptured(headers[..n], name);
      assert forall i :: 0 <= i < n ==> headers[..n][i] == headers[i];
    }
  }

  lemma {:induction false} FramedAreLeftOut(usedH2: bool, headers: seq<Header>)
    ensures CountFramed(usedH2, headers) == |LeftOutAt(usedH2, headers)|
  {
    if headers == [] {
      assert LeftOutAt(usedH2, headers) == {};
    } else {
      var n := |headers| - 1;
      FramedAreLeftOut(usedH2, headers[..n]);
      FramedIsLeftOut(usedH2, headers[n].name);
      var was: set<nat> := LeftOutAt(usedH2, headers[..n]);
      assert LeftOutAt(usedH2, headers) == if LeftOut(usedH2, headers[n].name) then was + {n} else was;
    }
  }

  lemma HeaderMapStores(usedH2: bool, headers: seq<Header>)
    ensures Stores(usedH2, headers, HeaderMap(usedH2, headers))
  {
    var m := HeaderMap(usedH2, headers);
    forall name
      ensures name in m <==> !LeftOut(usedH2, name) && exists i :: 0 <= i < |headers| && headers[i].name == name
      ensures name in m ==> ValuesInOrder(headers, name, m[name])
    {
      HeaderMapIs(usedH2, headers, name);
      FramedIsLeftOut(usedH2, name);
      ValuesWhenCaptured(headers, name);
      ValuesAreInOrder(headers, name);
    }
    NoHeaderIsLost(usedH2, headers);
    FramedAreLeftOut(usedH2, headers);
  }

  // ---- walking the order key rebuilds the list ----

  function Fields(name: string, values: seq<string>): seq<Header> {
    seq(|values|, i requires 0 <= i < |values| => Header(name, values[i]))
  }

  /** What the ordered writer emits for one entry of the order key. */
  ghost function Emit(o: string, m: map<string, seq<string>>): seq<Header> {
    if exists n :: n in m && Lower(n) == o then
      var n :| n in m && Lower(n) == o;
      Fields(n, m[n])
    else []
  }

  /** What is emitted entry by entry, each entry of the key counting only where it first occurs. */
  function Walk(order: seq<string>, emits: string -> seq<Header>): seq<Header> {
    if order == [] then []
    else
      var init, o := order[..|order| - 1], order[|order| - 1];
      if o in init then Walk(init, emits) else Walk(init, emits) + emits(o)
  }

  /** The ordered writer: each key once, at the first place its lowercased name has in the order key. */
  ghost function Write(order: seq<string>, m: map<string, seq<string>>): seq<Header> {
    Walk(order, o => Emit(o, m))
  }

  /** No two stored names differ in casing only. */
  ghost predicate OneCasing(usedH2: bool, headers: seq<Header>) {
    forall i, j :: 0 <= i < |headers| && 0 <= j < |headers|
                   && !FramedByTransport(usedH2, headers[i].name)
                   && Lower(headers[i].name) == Lower(headers[j].name)
      ==> headers[i].name == headers[j].name
  }

  /** Between two stored headers of one name, every stored header has that name. */
  ghost predicate Contiguous(usedH2: bool, headers: seq<Header>) {
    forall i, j, k :: 0 <= i < j < k < |headers|
                      && !FramedByTransport(usedH2, headers[i].name) && !FramedByTransport(usedH2, headers[j].name)
                      && Lower(headers[i].name) == Lower(headers[k].name)
      ==> Lower(headers[j].name) == Lower(headers[i].name)
  }

  lemma FramedByLower(usedH2: bool, a: string, b: string)
    requires Lower(a) == Lower(b)
    ensures FramedByTransport(usedH2, a) == FramedByTransport(usedH2, b)
  {
  }

  lemma {:induction false} KeyHasHeader(usedH2: bool, headers: seq<Header>, name: string) returns (i: nat)
    requires name in HeaderMap(usedH2, headers)
    ensures i < |headers| && headers[i].name == name && !FramedByTransport(usedH2, name)
  {
    var n := |headers| - 1;
    if headers[n].name == name && !FramedByTransport(usedH2, name) {
      i := n;
    } else {
      i := KeyHasHeader(usedH2, headers[..n], name);
    }
  }

  ghost predicate OneKey(m: map<string, seq<string>>) {
    forall a, b :: a in m && b in m && Lower(a) == Lower(b) ==> a == b
  }

  lemma OneKeyPerLower(usedH2: bool, headers: seq<Header>)
    requires OneCasing(usedH2, headers)
    ensures OneKey(HeaderMap(usedH2, headers))
  {
    forall a, b | a in HeaderMap(usedH2, headers) && b in HeaderMap(usedH2, headers) && Lower(a) == Lower(b)
      ensures a == b
    {
      var i := KeyHasHeader(usedH2, headers, a);
      var j := KeyHasHeader(usedH2, headers, b);
    }
  }

  lemma EmitOf(m: map<string, seq<string>>, name: string)
    requires OneKey(m) && name in m
    ensures Emit(Lower(name), m) == Fields(name, m[name])
  {
  }

  /** Adding a header leaves what other order entries emit unchanged. */
  lemma EmitOther(m: map<string, seq<string>>, h: Header, o: string)
    requires OneKey(m) && OneKey(Add(m, h)) && o != Lower(h.name)
    ensures Emit(o, Add(m, h)) == Emit(o, m)
  {
    if exists n :: n in m && Lower(n) == o {
      var n :| n in m && Lower(n) == o;
      EmitOf(m, n);
      EmitOf(Add(m, h), n);
    }
  }

  /** Its own entry emits one field more. */
  lemma EmitOwn(m: map<string, seq<string>>, h: Header)
    requires OneKey(m) && OneKey(Add(m, h))
    ensures Emit(Lower(h.name), Add(m, h)) == Emit(Lower(h.name), m) + [h]
  {
    EmitOf(Add(m, h), h.name);
    if h.name in m {
      EmitOf(m, h.name);
      assert Fields(h.name, m[h.name] + [h.value]) == Fields(h.name, m[h.name]) + [h];
    } else {
      forall n | n in m
        ensures Lower(n) != Lower(h.name)
      {
        assert n in Add(m, h) && h.name in Add(m, h);
      }
      assert Fields(h.name, [h.value]) == [h];
    }
  }

  lemma EmitFramed(usedH2: bool, headers: seq<Header>, name: string)
    requires FramedByTransport(usedH2, name)
    ensures Emit(Lower(name), HeaderMap(usedH2, headers)) == []
  {
    forall n | n in HeaderMap(usedH2, headers)
      ensures Lower(n) != Lower(name)
    {
      var i := KeyHasHeader(usedH2, headers, n);
      if Lower(n) == Lower(name) { FramedByLower(usedH2, n, name); }
    }
  }

  lemma OrderSnoc(headers: seq<Header>, h: Header)
    ensures Order(headers + [h]) == Order(headers) + [Lower(h.name)]
    ensures Order(headers + [h])[..|headers|] == Order(headers)
  {
  }

  /** After the first `l` in the key, other entries emit nothing. */
  ghost predicate EndsWith(order: seq<string>, emits: string -> seq<Header>, l: string) {
    forall i, j :: 0 <= i < j < |order| && order[i] == l && order[j] != l ==> emits(order[j]) == []
  }

  /** One entry emits one field more, and nothing else is emitted after it. */
  lemma {:induction false} WalkWithOneMore(order: seq<string>, old': string -> seq<Header>, new': string -> seq<Header>,
                                           l: string, h: Header)
    requires forall o :: o != l ==> new'(o) == old'(o)
    requires new'(l) == old'(l) + [h] && EndsWith(order, old', l)
    ensures Walk(order, new') == Walk(order, old') + if l in order then [h] else []
  {
    if order != [] {
      var init, o := order[..|order| - 1], order[|order| - 1];
      WalkWithOneMore(init, old', new', l, h);
      assert order == init + [o];
      if o !in init {
        if o == l {
          assert Walk(init, new') + (old'(l) + [h]) == (Walk(init, old') + old'(l)) + [h];
        } else if l in init {
          QuietAfter(init, o, old', l);
          assert Walk(order, new') == Walk(init, new') + [];
        }
      }
    }
  }

  lemma QuietAfter(init: seq<string>, o: string, emits: string -> seq<Header>, l: string)
    requires EndsWith(init + [o], emits, l) && l in init && o != l
    ensures emits(o) == []
  {
    var i :| 0 <= i < |init| && init[i] == l;
    assert (init + [o])[i] == l && (init + [o])[|init|] == o;
  }

  lemma EndsWithIfContiguous(usedH2: bool, headers: seq<Header>, h: Header)
    requires Contiguous(usedH2, headers + [h]) && !FramedByTransport(usedH2, h.name)
    ensures EndsWith(Order(headers), o => Emit(o, HeaderMap(usedH2, headers)), Lower(h.name))
  {
    var all, l := headers + [h], Lower(h.name);
    forall i, j | 0 <= i < j < |headers| && Lower(headers[i].name) == l && Lower(headers[j].name) != l
      ensures Emit(Lower(headers[j].name), HeaderMap(usedH2, headers)) == []
    {
      assert all[i] == headers[i] && all[j] == headers[j] && all[|headers|] == h;
      FramedByLower(usedH2, headers[i].name, h.name);
      EmitFramed(usedH2, headers, headers[j].name);
    }
  }

  lemma PrefixIsContiguous(usedH2: bool, headers: seq<Header>, h: Header)
    requires OneCasing(usedH2, headers + [h]) && Contiguous(usedH2, headers + [h])
    ensures OneCasing(usedH2, headers) && Contiguous(usedH2, headers)
  {
    assert forall i :: 0 <= i < |headers| ==> (headers + [h])[i] == headers[i];
  }

  /** Contiguous names are written back exactly as captured, minus the transport-framed headers. */
  lemma {:induction false} ContiguousIsRebuilt(usedH2: bool, headers: seq<Header>)
    requires OneCasing(usedH2, headers) && Contiguous(usedH2, headers)
    ensures Write(Order(headers), HeaderMap(usedH2, headers)) == Kept(usedH2, headers)
  {
    if headers != [] {
      var init, h := headers[..|headers| - 1], headers[|headers| - 1];
      assert headers == init + [h];
      PrefixIsContiguous(usedH2, init, h);
      ContiguousIsRebuilt(usedH2, init);
      OrderSnoc(init, h);
      WriteSnoc(Order(init), Lower(h.name), HeaderMap(usedH2, headers));
      if FramedByTransport(usedH2, h.name) {
        EmitFramed(usedH2, init, h.name);
      } else {
        OneKeyPerLower(usedH2, init);
        OneKeyPerLower(usedH2, headers);
        RebuiltStep(usedH2, init, h);
      }
    }
  }

  /** Adding a header adds it to what its own entry emits. */
  lemma EmitsOneMore(m: map<string, seq<string>>, h: Header)
    requires OneKey(m) && OneKey(Add(m, h))
    ensures Emit(Lower(h.name), Add(m, h)) == Emit(Lower(h.name), m) + [h]
    ensures forall o :: o != Lower(h.name) ==> Emit(o, Add(m, h)) == Emit(o, m)
  {
    EmitOwn(m, h);
    forall o | o != Lower(h.name)
      ensures Emit(o, Add(m, h)) == Emit(o, m)
    {
      EmitOther(m, h, o);
    }
  }

  lemma WriteWithOneMore(usedH2: bool, init: seq<Header>, h: Header)
    requires OneKey(HeaderMap(usedH2, init)) && OneKey(Add(HeaderMap(usedH2, init), h))
    requires Contiguous(usedH2, init + [h]) && !FramedByTransport(usedH2, h.name)
    ensures var m, order := HeaderMap(usedH2, init), Order(init);
            Write(order, Add(m, h)) == Write(order, m) + if Lower(h.name) in order then [h] else []
  {
    var m := HeaderMap(usedH2, init);
    EndsWithIfContiguous(usedH2, init, h);
    EmitsOneMore(m, h);
    WalkWithOneMore(Order(init), o => Emit(o, m), o => Emit(o, Add(m, h)), Lower(h.name), h);
  }

  lemma RebuiltStep(usedH2: bool, init: seq<Header>, h: Header)
    requires OneKey(HeaderMap(usedH2, init)) && OneKey(Add(HeaderMap(usedH2, init), h))
    requires Contiguous(usedH2, init + [h]) && !FramedByTransport(usedH2, h.name)
    ensures var m := HeaderMap(usedH2, init);
            Write(Order(init) + [Lower(h.name)], Add(m, h)) == Write(Order(init), m) + [h]
  {
    var m, order, l := HeaderMap(usedH2, init), Order(init), Lower(h.name);
    WriteWithOneMore(usedH2, init, h);
    WriteSnoc(order, l, Add(m, h));
    if l !in order {
      NoEmitBefore(usedH2, init, l);
      EmitOwn(m, h);
      assert Emit(l, Add(m, h)) == [h];
      assert Write(order, Add(m, h)) == Write(order, m);
    }
  }

  lemma WriteSnoc(order: seq<string>, o: string, m: map<string, seq<string>>)
    ensures Write(order + [o], m) == if o in order then Write(order, m) else Write(order, m) + Emit(o, m)
  {
    assert (order + [o])[..|order|] == order;
  }

  lemma NoEmitBefore(usedH2: bool, headers: seq<Header>, o: string)
    requires o !in Order(headers)
    ensures Emit(o, HeaderMap(usedH2, headers)) == []
  {
    forall n | n in HeaderMap(usedH2, headers)
      ensures Lower(n) != o
    {
      var i := KeyHasHeader(usedH2, headers, n);
      assert Order(headers)[i] == Lower(n);
    }
  }

  // ---- and only contiguous names are ----

  predicate Grouped(fields: seq<Header>) {
    forall i, j, k :: 0 <= i < j < k < |fields| && Lower(fields[i].name) == Lower(fields[k].name) ==>
      Lower(fields[j].name) == Lower(fields[i].name)
  }

  lemma EmitNames(o: string, m: map<string, seq<string>>)
    ensures forall f :: f in Emit(o, m) ==> Lower(f.name) == o
  {
  }

  /** A new name's fields behind grouped ones. */
  lemma GroupedAppend(a: seq<Header>, b: seq<Header>, o: string)
    requires Grouped(a) && (forall f :: f in a ==> Lower(f.name) != o) && (forall f :: f in b ==> Lower(f.name) == o)
    ensures Grouped(a + b)
  {
    var s := a + b;
    forall i, j, k | 0 <= i < j < k < |s| && Lower(s[i].name) == Lower(s[k].name)
      ensures Lower(s[j].name) == Lower(s[i].name)
    {
      assert s[i] in if i < |a| then a else b;
      assert s[j] in if j < |a| then a else b;
      assert s[k] in if k < |a| then a else b;
    }
  }

  lemma {:induction false} WalkIsGrouped(order: seq<string>, emits: string -> seq<Header>)
    requires forall o, f :: f in emits(o) ==> Lower(f.name) == o
    ensures Grouped(Walk(order, emits))
    ensures forall f :: f in Walk(order, emits) ==> Lower(f.name) in order
  {
    if order != [] {
      var init, o := order[..|order| - 1], order[|order| - 1];
      WalkIsGrouped(init, emits);
      if o !in init {
        GroupedAppend(Walk(init, emits), emits(o), o);
      }
    }
  }

  lemma {:induction false} KeptAt(usedH2: bool, headers: seq<Header>, i: nat)
    requires i < |headers| && !FramedByTransport(usedH2, headers[i].name)
    ensures |Kept(usedH2, headers[..i])| < |Kept(usedH2, headers)|
    ensures Kept(usedH2, headers)[|Kept(usedH2, headers[..i])|] == headers[i]
  {
    var n := |headers| - 1;
    if i < n {
      KeptAt(usedH2, headers[..n], i);
      assert headers[..n][..i] == headers[..i];
    }
  }

  /** Three kept headers keep their order. */
  lemma KeptThree(usedH2: bool, headers: seq<Header>, i: nat, j: nat, k: nat) returns (p: nat, q: nat, r: nat)
    requires i < j < k < |headers| && !FramedByTransport(usedH2, headers[i].name)
    requires !FramedByTransport(usedH2, headers[j].name) && !FramedByTransport(usedH2, headers[k].name)
    ensures var kept := Kept(usedH2, headers);
            p < q < r < |kept| && kept[p] == headers[i] && kept[q] == headers[j] && kept[r] == headers[k]
  {
    p, q, r := |Kept(usedH2, headers[..i])|, |Kept(usedH2, headers[..j])|, |Kept(usedH2, headers[..k])|;
    KeptAt(usedH2, headers, i);
    KeptAt(usedH2, headers, j);
    KeptAt(usedH2, headers, k);
    assert headers[..j][..i] == headers[..i] && headers[..k][..j] == headers[..j];
    KeptAt(usedH2, headers[..j], i);
    KeptAt(usedH2, headers[..k], j);
  }

  lemma GroupedIsContiguous(usedH2: bool, headers: seq<Header>)
    requires Grouped(Kept(usedH2, headers))
    ensures Contiguous(usedH2, headers)
  {
    forall i, j, k | 0 <= i < j < k < |headers|
        && !FramedByTransport(usedH2, headers[i].name) && !FramedByTransport(usedH2, headers[j].name)
        && Lower(headers[i].name) == Lower(headers[k].name)
      ensures Lower(headers[j].name) == Lower(headers[i].name)
    {
      FramedByLower(usedH2, headers[i].name, headers[k].name);
      var p, q, r := KeptThree(usedH2, headers, i, j, k);
    }
  }

  lemma RebuiltIsContiguous(usedH2: bool, headers: seq<Header>)
    requires Write(Order(headers), HeaderMap(usedH2, headers)) == Kept(usedH2, headers)
    ensures Contiguous(usedH2, headers)
  {
    var m := HeaderMap(usedH2, headers);
    forall o
      ensures forall f :: f in Emit(o, m) ==> Lower(f.name) == o
    {
      EmitNames(o, m);
    }
    WalkIsGrouped(Order(headers), o => Emit(o, m));
    GroupedIsContiguous(usedH2, headers);
  }

  lemma FaithfulWithOneCasing(usedH2: bool, headers: seq<Header>)
    requires OneCasing(usedH2, headers)
    ensures Write(Order(headers), HeaderMap(usedH2, headers)) == Kept(usedH2, headers) <==> Contiguous(usedH2, headers)
  {
    if Contiguous(usedH2, headers) {
      ContiguousIsRebuilt(usedH2, headers);
    }
    if Write(Order(headers), HeaderMap(usedH2, headers)) == Kept(usedH2, headers) {
      RebuiltIsContiguous(usedH2, headers);
    }
  }

  // ---- names that differ in casing only: every order the writer may take them in ----

  /** The order in which a writer takes the stored names of one entry of the key. */
  type Ties = string -> seq<string>

  function Casings(m: map<string, seq<string>>, o: string): set<string> {
    set n | n in m && Lower(n) == o
  }

  /** Each stored name once, under its own entry of the key. */
  ghost predicate Breaks(ties: Ties, m: map<string, seq<string>>) {
    forall o :: multiset(ties(o)) == multiset(Casings(m, o))
  }

  function EmitAll(names: seq<string>, m: map<string, seq<string>>): seq<Header> {
    if names == [] then []
    else Fields(names[0], if names[0] in m then m[names[0]] else []) + EmitAll(names[1..], m)
  }

  /** The ordered writer, taking names that differ in casing only as `ties` says. */
  ghost function WriteBy(order: seq<string>, m: map<string, seq<string>>, ties: Ties): seq<Header> {
    Walk(order, o => EmitAll(ties(o), m))
  }

  ghost predicate EveryWriterIsFaithful(usedH2: bool, headers: seq<Header>) {
    var m := HeaderMap(usedH2, headers);
    forall ties: Ties :: Breaks(ties, m) ==> WriteBy(Order(headers), m, ties) == Kept(usedH2, headers)
  }

  lemma TiesAre(m: map<string, seq<string>>, ties: Ties, o: string)
    requires Breaks(ties, m)
    ensures forall n :: n in ties(o) <==> n in m && Lower(n) == o
  {
    forall n
      ensures n in ties(o) <==> n in m && Lower(n) == o
    {
      assert n in ties(o) <==> n in multiset(ties(o));
      assert n in Casings(m, o) <==> n in multiset(Casings(m, o));
    }
  }

  /** With one casing there is nothing to break. */
  lemma OneNameEmits(m: map<string, seq<string>>, ties: Ties, o: string)
    requires OneKey(m) && Breaks(ties, m)
    ensures EmitAll(ties(o), m) == Emit(o, m)
  {
    TiesAre(m, ties, o);
    if n :| n in m && Lower(n) == o {
      assert Casings(m, o) == {n};
      assert |ties(o)| == |multiset(ties(o))| == 1;
      assert ties(o)[0] in ties(o) && ties(o)[1..] == [];
      EmitOf(m, n);
      assert EmitAll(ties(o), m) == Fields(n, m[n]) + [];
    } else {
      assert Casings(m, o) == {} && |ties(o)| == |multiset(ties(o))|;
    }
  }

  lemma {:induction false} WalkSame(order: seq<string>, a: string -> seq<Header>, b: string -> seq<Header>)
    requires forall o :: a(o) == b(o)
    ensures Walk(order, a) == Walk(order, b)
  {
    if order != [] {
      WalkSame(order[..|order| - 1], a, b);
    }
  }

  lemma OneCasingOneWriter(usedH2: bool, headers: seq<Header>, ties: Ties)
    requires OneCasing(usedH2, headers) && Breaks(ties, HeaderMap(usedH2, headers))
    ensures var m := HeaderMap(usedH2, headers); WriteBy(Order(headers), m, ties) == Write(Order(headers), m)
  {
    var m := HeaderMap(usedH2, headers);
    OneKeyPerLower(usedH2, headers);
    forall o
      ensures EmitAll(ties(o), m) == Emit(o, m)
    {
      OneNameEmits(m, ties, o);
    }
    WalkSame(Order(headers), o => EmitAll(ties(o), m), o => Emit(o, m));
  }

  lemma {:induction false} EmitAllNames(names: seq<string>, m: map<string, seq<string>>, o: string)
    requires forall n :: n in names ==> Lower(n) == o
    ensures forall f :: f in EmitAll(names, m) ==> Lower(f.name) == o
  {
    if names != [] {
      EmitAllNames(names[1..], m, o);
    }
  }

  /** What is written under one lowercased name is what its entry of the key emits. */
  lemma {:induction false} WalkShows(order: seq<string>, emits: string -> seq<Header>, o: string)
    requires (forall x, f :: f in emits(x) ==> Lower(f.name) == x) && o in order
    ensures Keep(Walk(order, emits), (f: Header) => Lower(f.name) == o) == emits(o)
  {
    var init, last := order[..|order| - 1], order[|order| - 1];
    var p := (f: Header) => Lower(f.name) == o;
    assert o in init || o == last;
    if last in init {
      WalkShows(init, emits, o);
    } else {
      KeepAppend(Walk(init, emits), emits(last), p);
      if o == last {
        WalkIsGrouped(init, emits);
        KeepNone(Walk(init, emits), p);
        KeepAll(emits(o), p);
      } else {
        WalkShows(init, emits, o);
        KeepNone(emits(last), p);
      }
    }
  }

  ghost function Listed(names: set<string>): (l: seq<string>)
    ensures multiset(l) == multiset(names)
  {
    if names == {} then []
    else
      var n :| n in names;
      assert names == {n} + (names - {n});
      [n] + Listed(names - {n})
  }

  /** A writer that takes `name` first. */
  ghost function Favouring(m: map<string, seq<string>>, name: string): Ties {
    o => if o == Lower(name) then [name] + Listed(Casings(m, o) - {name}) else Listed(Casings(m, o))
  }

  lemma FavouringBreaks(m: map<string, seq<string>>, name: string)
    requires name in m
    ensures Breaks(Favouring(m, name), m)
  {
    var o := Lower(name);
    assert Casings(m, o) == {name} + (Casings(m, o) - {name});
  }

  /** What a writer that takes `name` first writes first under its lowercased name. */
  lemma FavouredIsFirst(usedH2: bool, headers: seq<Header>, name: string)
    requires name in HeaderMap(usedH2, headers)
    ensures var m := HeaderMap(usedH2, headers);
            var all := WriteBy(Order(headers), m, Favouring(m, name));
            var out := Keep(all, (f: Header) => Lower(f.name) == Lower(name));
            out != [] && out[0].name == name
  {
    var m := HeaderMap(usedH2, headers);
    var ties, o := Favouring(m, name), Lower(name);
    FavouringBreaks(m, name);
    HeaderMapIs(usedH2, headers, name);
    var i := KeyHasHeader(usedH2, headers, name);
    assert Order(headers)[i] == o;
    forall x
      ensures forall f :: f in EmitAll(ties(x), m) ==> Lower(f.name) == x
    {
      TiesAre(m, ties, x);
      EmitAllNames(ties(x), m, x);
    }
    WalkShows(Order(headers), x => EmitAll(ties(x), m), o);
    assert ties(o)[0] == name;
  }

  lemma FaithfulToOneCasing(usedH2: bool, headers: seq<Header>)
    requires EveryWriterIsFaithful(usedH2, headers)
    ensures OneCasing(usedH2, headers)
  {
    var m := HeaderMap(usedH2, headers);
    forall i, j | 0 <= i < |headers| && 0 <= j < |headers| && !FramedByTransport(usedH2, headers[i].name)
                  && Lower(headers[i].name) == Lower(headers[j].name)
      ensures headers[i].name == headers[j].name
    {
      var a, b := headers[i].name, headers[j].name;
      FramedByLower(usedH2, a, b);
      ValuesWhenCaptured(headers, a);
      ValuesWhenCaptured(headers, b);
      HeaderMapIs(usedH2, headers, a);
      HeaderMapIs(usedH2, headers, b);
      FavouringBreaks(m, a);
      FavouringBreaks(m, b);
      FavouredIsFirst(usedH2, headers, a);
      FavouredIsFirst(usedH2, headers, b);
    }
  }

  /**
   * Writing the map in the order of the key gives back the captured list minus the
   * transport-framed headers, whatever order the writer takes names in that differ
   * in casing only, exactly when there are no such names and equal names stand
   * together. Every header, framed or not, keeps its position in the key.
   */
  lemma ReplayIsFaithful(usedH2: bool, headers: seq<Header>)
    ensures EveryWriterIsFaithful(usedH2, headers) <==> OneCasing(usedH2, headers) && Contiguous(usedH2, headers)
    ensures forall i :: 0 <= i < |headers| ==> Order(headers)[i] == Lower(headers[i].name)
  {
    var m := HeaderMap(usedH2, headers);
    if EveryWriterIsFaithful(usedH2, headers) {
      FaithfulToOneCasing(usedH2, headers);
      SomeWriter(m);
    }
    forall ties: Ties | OneCasing(usedH2, headers) && Breaks(ties, m)
      ensures WriteBy(Order(headers), m, ties) == Write(Order(headers), m)
    {
      OneCasingOneWriter(usedH2, headers, ties);
    }
    if OneCasing(usedH2, headers) {
      FaithfulWithOneCasing(usedH2, headers);
    }
  }

  lemma SomeWriter(m: map<string, seq<string>>)
    ensures exists ties: Ties :: Breaks(ties, m)
  {
    assert Breaks(o => Listed(Casings(m, o)), m);
  }

  /** A name that stands on both sides of another is moved together. */
  lemma InterleavedIsRegrouped(usedH2: bool, x: string, y: string, z: string)
    ensures var headers := [Header("a", x), Header("b", y), Header("a", z)];
            OneCasing(usedH2, headers) && !EveryWriterIsFaithful(usedH2, headers)
  {
    var headers := [Header("a", x), Header("b", y), Header("a", z)];
    OneLetter("a");
    OneLetter("b");
    assert |headers| == 3 && !Contiguous(usedH2, headers) by {
      assert Lower(headers[0].name) == Lower(headers[2].name) != Lower(headers[1].name);
    }
    ReplayIsFaithful(usedH2, headers);
  }

  lemma OneLetter(name: string)
    requires name == "a" || name == "b"
    ensures Lower(name) == name && forall usedH2 :: !FramedByTransport(usedH2, name)
  {
    assert |"host"| == 4 && |"transfer-encoding"| == 17 && |"content-length"| == 14;
  }

  /** In particular when no two headers share a name. */
  lemma DistinctNamesAreReplayed(usedH2: bool, headers: seq<Header>)
    requires forall i, j :: 0 <= i < j < |headers| ==> Lower(headers[i].name) != Lower(headers[j].name)
    ensures Write(Order(headers), HeaderMap(usedH2, headers)) == Kept(usedH2, headers)
    ensures EveryWriterIsFaithful(usedH2, headers)
  {
    ContiguousIsRebuilt(usedH2, headers);
    ReplayIsFaithful(usedH2, headers);
  }
}
