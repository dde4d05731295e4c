/**
 * The objects of the capture (internal/capture/http2.go): a stream while it is
 * open and the connection's live fingerprint, with their slices and backing arrays.
 */
module Http2Objects {
  import opened Basics
  import opened Http2Blocks
  import opened Http2Model
  import opened Slices

  /** A request as `st.request()` builds it: it shares the stream's backing arrays. */
  datatype SharedRequest = SharedRequest(
    httpMethod: string, path: string, scheme: string, authority: string, headers: Slice<Header>,
    pseudoOrder: Slice<string>, body: Slice<Byte>)
  {
    ghost predicate Ok() {
      headers.Ok() && pseudoOrder.Ok() && body.Ok()
    }

    ghost function Value(): Request
      requires Ok()
      reads headers.arr, pseudoOrder.arr, body.arr
    {
      Request(httpMethod, path, "HTTP/2.0", scheme, authority, headers.Elems(), pseudoOrder.Elems(), body.Elems())
    }
  }

  class H2Stream {
    const id: nat
    var httpMethod: string
    var path: string
    var scheme: string
    var authority: string
    var headers: Slice<Header>
    var pseudoOrder: Slice<string>
    var body: Slice<Byte>

    ghost function Repr(): set<object>
      reads this
    {
      {this, headers.arr, pseudoOrder.arr, body.arr}
    }

    ghost predicate Valid()
      reads this
    {
      headers.Ok() && pseudoOrder.Ok() && body.Ok()
    }

    ghost function Value(): Stream
      requires Valid()
      reads this, Repr()
    {
      Stream(id, httpMethod, path, scheme, authority, headers.Elems(), pseudoOrder.Elems(), body.Elems())
    }

    constructor (id: nat)
      ensures Valid() && fresh(Repr()) && this.id == id && Value() == Stream(id, "", "", "", "", [], [], [])
    {
      this.id := id;
      httpMethod, path, scheme, authority := "", "", "", "";
      var hs, names, bytes := new Header[0], new string[0], new Byte[0];
      headers, pseudoOrder, body := Slice(hs, 0), Slice(names, 0), Slice(bytes, 0);
    }

    /** One field of a header block. */
    method TakeField(h: Header)
      requires Valid()
      modifies Repr()
      ensures Valid() && fresh(Repr() - old(Repr())) && Value() == WithField(old(Value()), h)
    {
      if IsPseudo(h) {
        pseudoOrder := Append(pseudoOrder, [h.name]);
        if h.name == ":method" {
          httpMethod := h.value;
        } else if h.name == ":path" {
          path := h.value;
        } else if h.name == ":scheme" {
          scheme := h.value;
        } else if h.name == ":authority" {
          authority := h.value;
        }
      } else {
        headers := Append(headers, [h]);
      }
    }

    method TakeBlock(fields: seq<Header>)
      requires Valid() && Value() == Stream(id, "", "", "", "", [], [], [])
      modifies Repr()
      ensures Valid() && fresh(Repr() - old(Repr())) && Value() == OpenedBy(id, fields)
    {
      for i := 0 to |fields|
        invariant Valid() && fresh(Repr() - old(Repr())) && Value() == OpenedBy(id, fields[..i])
      {
        OpenedByNext(id, fields, i);
        TakeField(fields[i]);
      }
      assert fields[..|fields|] == fields;
    }

    method TakeData(data: Bytes)
      requires Valid()
      modifies Repr()
      ensures Valid() && fresh(Repr() - old(Repr()))
      ensures Value() == old(Value()).(body := old(Value()).body + data)
    {
      body := Append(body, data);
    }

    /** `request`: the slices themselves, not copies. */
    method MakeRequest() returns (req: SharedRequest)
      requires Valid()
      ensures IsRequest(req) && req.Value() == RequestOf(Value())
    {
      req := SharedRequest(httpMethod, path, scheme, authority, headers, pseudoOrder, body);
    }

    ghost predicate IsRequest(req: SharedRequest)
      reads this
    {
      req == SharedRequest(httpMethod, path, scheme, authority, headers, pseudoOrder, body)
    }
  }

  /** A stream after one more field of its header block. */
  function WithField(st: Stream, h: Header): Stream {
    if !IsPseudo(h) then st.(headers := st.headers + [h])
    else st.(pseudoOrder := st.pseudoOrder + [h.name],
             httpMethod := if h.name == ":method" then h.value else st.httpMethod,
             path := if h.name == ":path" then h.value else st.path,
             scheme := if h.name == ":scheme" then h.value else st.scheme,
             authority := if h.name == ":authority" then h.value else st.authority)
  }

  lemma PseudoNamesStart(h: Header)
    requires h.name in [":method", ":path", ":scheme", ":authority"]
    ensures IsPseudo(h)
  {
    assert h.name[..1] == ":";
  }

  lemma OpenedByNext(id: nat, fields: seq<Header>, n: nat)
    requires n < |fields|
    ensures OpenedBy(id, fields[..n + 1]) == WithField(OpenedBy(id, fields[..n]), fields[n])
  {
    var h := fields[n];
    assert fields[..n + 1] == fields[..n] + [h] && fields[..n + 1][..n] == fields[..n];
    if h.name in [":method", ":path", ":scheme", ":authority"] {
      PseudoNamesStart(h);
    }
  }

  class LiveFingerprint {
    var settings: Slice<Setting>
    var connectionFlow: nat
    var priorities: Slice<Priority>
    var pseudoOrder: Slice<string>
    var headerOrder: Slice<string>

    ghost function Repr(): set<object>
      reads this
    {
      {this, settings.arr, priorities.arr, pseudoOrder.arr, headerOrder.arr}
    }

    ghost predicate Valid()
      reads this
    {
      settings.Ok() && priorities.Ok() && pseudoOrder.Ok() && headerOrder.Ok() && pseudoOrder.arr != headerOrder.arr
    }

    ghost function Value(): Fingerprint
      requires Valid()
      reads this, Repr()
    {
      Fingerprint(settings.Elems(), connectionFlow, priorities.Elems(), pseudoOrder.Elems(), headerOrder.Elems())
    }

    constructor ()
      ensures Valid() && fresh(Repr()) && Value() == NO_FINGERPRINT
    {
      var ss, ps, names, more := new Setting[0], new Priority[0], new string[0], new string[0];
      settings, connectionFlow, priorities := Slice(ss, 0), 0, Slice(ps, 0);
      pseudoOrder, headerOrder := Slice(names, 0), Slice(more, 0);
    }

    constructor Of(settings: Slice<Setting>, connectionFlow: nat, priorities: Slice<Priority>,
                   pseudoOrder: Slice<string>, headerOrder: Slice<string>)
      ensures this.settings == settings && this.connectionFlow == connectionFlow && this.priorities == priorities
      ensures this.pseudoOrder == pseudoOrder && this.headerOrder == headerOrder
    {
      this.settings, this.connectionFlow, this.priorities := settings, connectionFlow, priorities;
      this.pseudoOrder, this.headerOrder := pseudoOrder, headerOrder;
    }

    /** A copy that shares no object and no backing array with the live fingerprint. */
    method Clone() returns (copy: LiveFingerprint)
      requires Valid()
      ensures fresh(copy) && copy.Valid() && fresh(copy.Repr()) && copy.Value() == Value()
    {
      var ss := Copy(settings);
      var ps := Copy(priorities);
      var names := Copy(pseudoOrder);
      var more := Copy(headerOrder);
      copy := new LiveFingerprint.Of(ss, connectionFlow, ps, names, more);
    }

    method AddSettings(ss: seq<Setting>)
      requires Valid()
      modifies Repr()
      ensures Valid() && fresh(Repr() - old(Repr()))
      ensures Value() == old(Value()).(settings := old(Value()).settings + ss)
    {
      for i := 0 to |ss|
        invariant Valid() && fresh(Repr() - old(Repr()))
        invariant Value() == old(Value()).(settings := old(Value()).settings + ss[..i])
      {
        settings := Append(settings, [ss[i]]);
        assert ss[..i + 1] == ss[..i] + [ss[i]];
      }
      assert ss[..|ss|] == ss;
    }

    method AddPriority(p: Priority)
      requires Valid()
      modifies Repr()
      ensures Valid() && fresh(Repr() - old(Repr()))
      ensures Value() == old(Value()).(priorities := old(Value()).priorities + [p])
    {
      priorities := Append(priorities, [p]);
    }

    method AddName(name: string)
      requires Valid()
      modifies Repr()
      ensures Valid() && fresh(Repr() - old(Repr()))
      ensures Value() == old(Value()).(headerOrder := old(Value()).headerOrder + [name])
    {
      headerOrder := Append(headerOrder, [name]);
    }

    method AddFlow(increment: nat)
      requires Valid()
      modifies this`connectionFlow
      ensures Valid() && Repr() == old(Repr())
      ensures Value()
              == old(Value()).(connectionFlow := (old(Value()).connectionFlow + increment) % 0x1_0000_0000)
    {
      connectionFlow := (connectionFlow + increment) % 0x1_0000_0000;
    }

    /** The first block that has any fixes each order, in arrays of the fingerprint's own. */
    method NoteStream(st: H2Stream)
      requires Valid() && st.Valid() && st.Repr() !! Repr()
      modifies Repr()
      ensures Valid() && fresh(Repr() - old(Repr())) && Value() == NoteOrders(old(Value()), st.Value())
    {
      if pseudoOrder.len == 0 {
        pseudoOrder := Copy(st.pseudoOrder);
      }
      if headerOrder.len == 0 {
        NoteNames(st);
      }
    }

    method NoteNames(st: H2Stream)
      requires Valid() && st.Valid() && st.Repr() !! Repr() && headerOrder.len == 0
      modifies Repr()
      ensures Valid() && fresh(Repr() - old(Repr()))
      ensures Value() == old(Value()).(headerOrder := Names(st.Value().headers))
    {
      ghost var hs := st.Value().headers;
      assert headerOrder.Elems() == [] == Names(hs)[..0];
      for i := 0 to st.headers.len
        invariant Valid() && fresh(Repr() - old(Repr())) && st.Repr() !! Repr() && hs == st.headers.Elems()
        invariant Value() == old(Value()).(headerOrder := Names(hs)[..i])
      {
        assert st.headers.arr[i] == hs[i];
        TakeNext(Names(hs), i);
        AddName(st.headers.arr[i].name);
      }
    }
  }

  /** `captureHeaders`: split the block in order, and note the connection's first orders. */
  method CaptureHeaders(st: H2Stream, fields: seq<Header>, fp: LiveFingerprint)
    requires st.Valid() && fp.Valid() && st.Repr() !! fp.Repr()
    requires st.Value() == Stream(st.id, "", "", "", "", [], [], [])
    modifies st.Repr(), fp.Repr()
    ensures st.Valid() && fresh(st.Repr() - old(st.Repr())) && st.Value() == OpenedBy(st.id, fields)
    ensures fp.Valid() && fresh(fp.Repr() - old(fp.Repr()))
    ensures fp.Value() == NoteOrders(old(fp.Value()), OpenedBy(st.id, fields))
    ensures st.Repr() !! fp.Repr()
  {
    st.TakeBlock(fields);
    fp.NoteStream(st);
  }

  /** What the object holds after a block, by the positions of the block's fields. */
  lemma CapturedShows(st: H2Stream, fields: seq<Header>)
    requires st.Valid() && st.Value() == OpenedBy(st.id, fields)
    ensures IsLast(fields, ":method", st.httpMethod) && IsLast(fields, ":path", st.path)
    ensures IsLast(fields, ":scheme", st.scheme) && IsLast(fields, ":authority", st.authority)
    ensures HeadersOf(fields, st.headers.Elems()) && NamesOf(fields, true, st.pseudoOrder.Elems())
  {
    BlockIsRead(st.id, fields, []);
  }

  /** And what the fingerprint holds: the block's orders where it had none. */
  lemma NotedShows(fp: LiveFingerprint, was: Fingerprint, id: nat, fields: seq<Header>)
    requires fp.Valid() && fp.Value() == NoteOrders(was, OpenedBy(id, fields))
    ensures if was.pseudoOrder != [] then fp.pseudoOrder.Elems() == was.pseudoOrder
            else NamesOf(fields, true, fp.pseudoOrder.Elems())
    ensures if was.headerOrder != [] then fp.headerOrder.Elems() == was.headerOrder
            else NamesOf(fields, false, fp.headerOrder.Elems())
  {
    BlockIsSplit(fields);
    RegularAreNamed(fields);
  }
}
