/** The HAR object model with lebedev's extension (har/har.go, model/model.go). */
module Har {
  import opened Basics

  /** A Go slice: nil is distinct from empty. */
  datatype List<T> = Nil | Of(elems: seq<T>)
  {
    function Elems(): seq<T> {
      if Nil? then [] else elems
    }
  }

  datatype NVP = NVP(name: string, value: string, comment: string)

  datatype Cookie = Cookie(
    name: string, value: string, path: string, domain: string, expires: string,
    httpOnly: Option<bool>, secure: Option<bool>, comment: string)

  datatype Param = Param(
    name: string, value: string, fileName: string, contentType: string, encoding: string, comment: string)

  datatype PostData = PostData(mimeType: string, params: List<Param>, text: string, encoding: string, comment: string)

  datatype Request = Request(
    httpMethod: string, url: string, httpVersion: string, cookies: List<Cookie>, headers: List<NVP>,
    queryString: List<NVP>, postData: Option<PostData>, headersSize: int, headersCompression: Option<int>,
    bodySize: int, comment: string)

  datatype Content = Content(
    size: int, compression: Option<int>, mimeType: string, text: string, encoding: string, comment: string)

  datatype Response = Response(
    status: int, statusText: string, httpVersion: string, cookies: List<Cookie>, headers: List<NVP>,
    content: Content, redirectUrl: string, headersSize: int, headersCompression: Option<int>, bodySize: int,
    comment: string)

  datatype CacheState = CacheState(expires: string, lastAccess: string, etag: string, hitCount: int, comment: string)

  datatype Cache = Cache(beforeRequest: Option<CacheState>, afterRequest: Option<CacheState>, comment: string)

  datatype Timings = Timings(
    blocked: Option<real>, dns: Option<real>, connect: Option<real>, send: real, wait: real, receive: real,
    ssl: Option<real>, comment: string)

  datatype Setting = Setting(id: nat, value: nat)

  datatype Http2 = Http2(
    settings: seq<Setting>, connectionFlow: nat, pseudoOrder: seq<string>, headerOrder: seq<string>)

  datatype Lebedev = Lebedev(session: string, clientHelloHex: string, upstreamProto: string, http2: Option<Http2>)

  datatype Entry = Entry(
    pageref: string, startedDateTime: string, time: real, request: Request, response: Response, cache: Cache,
    timings: Timings, serverIpAddress: string, connection: string, comment: string, lebedev: Option<Lebedev>)

  datatype Creator = Creator(name: string, version: string, comment: string)

  datatype Browser = Browser(name: string, version: string, comment: string)

  /** Log-level metadata; entries are kept apart, as the store keeps them. */
  datatype Log = Log(version: string, creator: Creator, browser: Option<Browser>, comment: string)

  /** One persisted entry with its row id and owning session. */
  datatype Stored = Stored(id: int, session: string, entry: Entry)

  /**
   * How `encoding/json` writes and reads the HTTP/2 fingerprint. All the store
   * relies on is that reading gives back what was written and that nothing is
   * written as the empty string.
   */
  datatype Json = Json(marshal: Http2 -> string, unmarshal: string -> Option<Http2>)

  ghost predicate Lawful(json: Json) {
    forall h :: json.marshal(h) != "" && json.unmarshal(json.marshal(h)) == Some(h)
  }

  // ---- what a read gives back for what was stored ----

  function NonNil<T>(l: List<T>): List<T> {
    Of(l.Elems())
  }

  function NilIfEmpty<T>(l: List<T>): List<T> {
    if l.Elems() == [] then Nil else l
  }

  function NormLebedev(session: string, lb: Option<Lebedev>): Option<Lebedev> {
    match lb
    case None => None
    case Some(l) =>
      if l.clientHelloHex == "" && l.upstreamProto == "" && l.http2.None? then None else Some(l.(session := session))
  }

  function NormPost(post: Option<PostData>): Option<PostData> {
    match post
    case None => None
    case Some(p) => Some(p.(params := NilIfEmpty(p.params)))
  }

  /**
   * The form an entry stored under `session` has when read back: header, cookie
   * and query lists are non-nil, an empty parameter list is nil, and `_lebedev`
   * names the row's session, or is absent when it carries nothing.
   */
  function Norm(session: string, e: Entry): Entry {
    e.(request := e.request.(cookies := NonNil(e.request.cookies), headers := NonNil(e.request.headers),
                             queryString := NonNil(e.request.queryString), postData := NormPost(e.request.postData)),
       response := e.response.(cookies := NonNil(e.response.cookies), headers := NonNil(e.response.headers)),
       lebedev := NormLebedev(session, e.lebedev))
  }

  /** The same values in the same order, and never nil. */
  predicate SameValues<T(==)>(l: List<T>, m: List<T>) {
    m.Of? && m.Elems() == l.Elems()
  }

  /** Every field as it was; of the parameters only whether an empty list is nil. */
  predicate SamePost(post: Option<PostData>, back: Option<PostData>) {
    match (post, back)
    case (None, None) => true
    case (Some(p), Some(b)) =>
      && b.mimeType == p.mimeType && b.text == p.text && b.encoding == p.encoding && b.comment == p.comment
      && b.params.Elems() == p.params.Elems() && (p.params.Elems() == [] ==> b.params.Nil?)
    case _ => false
  }

  predicate SameRequest(r: Request, b: Request) {
    && b.httpMethod == r.httpMethod && b.url == r.url && b.httpVersion == r.httpVersion && b.comment == r.comment
    && b.headersSize == r.headersSize && b.headersCompression == r.headersCompression && b.bodySize == r.bodySize
    && SameValues(r.cookies, b.cookies) && SameValues(r.headers, b.headers)
    && SameValues(r.queryString, b.queryString) && SamePost(r.postData, b.postData)
  }

  predicate SameResponse(r: Response, b: Response) {
    && b.status == r.status && b.statusText == r.statusText && b.httpVersion == r.httpVersion
    && b.redirectUrl == r.redirectUrl && b.headersSize == r.headersSize && b.bodySize == r.bodySize
    && b.headersCompression == r.headersCompression && b.comment == r.comment && b.content == r.content
    && SameValues(r.cookies, b.cookies) && SameValues(r.headers, b.headers)
  }

  /** The extension is there if it carries anything, with everything it carries and the row's session. */
  predicate SameExtension(session: string, lb: Option<Lebedev>, back: Option<Lebedev>) {
    if lb.Some? && (lb.value.clientHelloHex != "" || lb.value.upstreamProto != "" || lb.value.http2.Some?)
    then back == Some(Lebedev(session, lb.value.clientHelloHex, lb.value.upstreamProto, lb.value.http2))
    else back == None
  }

  /** `back` is what `e`, stored under `session`, reads back as, field by field. */
  predicate ReadsBackAs(session: string, e: Entry, back: Entry) {
    && back.pageref == e.pageref && back.startedDateTime == e.startedDateTime && back.time == e.time
    && back.serverIpAddress == e.serverIpAddress && back.connection == e.connection && back.comment == e.comment
    && back.cache == e.cache && back.timings == e.timings
    && SameRequest(e.request, back.request) && SameResponse(e.response, back.response)
    && SameExtension(session, e.lebedev, back.lebedev)
  }

  lemma SameListIsOne<T>(l: List<T>, m: List<T>)
    requires SameValues(l, m)
    ensures m == NonNil(l)
  {
  }

  /** The normal form keeps every column and every list, and nothing else does. */
  lemma NormIsExact(session: string, e: Entry, back: Entry)
    ensures ReadsBackAs(session, e, back) <==> back == Norm(session, e)
  {
    var n := Norm(session, e);
    if ReadsBackAs(session, e, back) {
      SameListIsOne(e.request.cookies, back.request.cookies);
      SameListIsOne(e.request.headers, back.request.headers);
      SameListIsOne(e.request.queryString, back.request.queryString);
      SameListIsOne(e.response.cookies, back.response.cookies);
      SameListIsOne(e.response.headers, back.response.headers);
      assert back.request == n.request && back.response == n.response && back.lebedev == n.lebedev;
    }
  }

  /** Storing a read-back entry again under the same session is exact, and moving it only renames. */
  lemma NormIsIdempotent(session: string, other: string, e: Entry)
    ensures Norm(session, Norm(session, e)) == Norm(session, e)
    ensures Norm(session, Norm(other, e)) == Norm(session, e)
  {
    if e.request.postData.Some? {
      var p := e.request.postData.value;
      assert NilIfEmpty(NilIfEmpty(p.params)) == NilIfEmpty(p.params);
    }
  }
}
