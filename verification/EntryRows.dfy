/**
 * The `entries` and `logs` rows (internal/store/schema.go) and the field by
 * field conversions between them and the HAR model (internal/store/store.go,
 * internal/store/query.go). Nullable columns are Options.
 */
module EntryRows {
  import opened Basics
  import opened Har

  datatype EntryRow = EntryRow(
    id: int, session: string, createdAt: int, pageref: string, startedDateTime: string, time: real,
    serverIpAddress: string, connection: string, comment: string,
    reqMethod: string, reqUrl: string, reqHttpVersion: string, reqHeadersSize: int,
    reqHeadersCompression: Option<int>, reqBodySize: int, reqComment: string,
    hasPost: int, postMimeType: string, postText: string, postEncoding: string, postComment: string,
    respStatus: int, respStatusText: string, respHttpVersion: string, respRedirectUrl: string, respHeadersSize: int,
    respHeadersCompression: Option<int>, respBodySize: int, respComment: string,
    contentSize: int, contentCompression: Option<int>, contentMimeType: string, contentText: string,
    contentEncoding: string, contentComment: string,
    tBlocked: Option<real>, tDns: Option<real>, tConnect: Option<real>, tSend: real, tWait: real, tReceive: real,
    tSsl: Option<real>, timingsComment: string,
    cacheComment: string, clientHelloHex: string, upstreamProto: string, http2: string)

  /** A `cookies` row's payload: `http_only` and `secure` are nullable integers. */
  datatype CookieRow = CookieRow(
    name: string, value: string, path: string, domain: string, expires: string,
    httpOnly: Option<int>, secure: Option<int>, comment: string)

  /** `nullBool` and `boolPtr`. */
  function NullBool(b: Option<bool>): Option<int> {
    match b case None => None case Some(v) => Some(if v then 1 else 0)
  }

  function BoolPtr(n: Option<int>): Option<bool> {
    match n case None => None case Some(v) => Some(v != 0)
  }

  function ToCookieRow(c: Cookie): CookieRow {
    CookieRow(c.name, c.value, c.path, c.domain, c.expires, NullBool(c.httpOnly), NullBool(c.secure), c.comment)
  }

  function FromCookieRow(r: CookieRow): Cookie {
    Cookie(r.name, r.value, r.path, r.domain, r.expires, BoolPtr(r.httpOnly), BoolPtr(r.secure), r.comment)
  }

  function ToCookieRows(cs: seq<Cookie>): seq<CookieRow> {
    seq(|cs|, i requires 0 <= i < |cs| => ToCookieRow(cs[i]))
  }

  function FromCookieRows(rs: seq<CookieRow>): seq<Cookie> {
    seq(|rs|, i requires 0 <= i < |rs| => FromCookieRow(rs[i]))
  }

  lemma CookiesRoundTrip(cs: seq<Cookie>)
    ensures FromCookieRows(ToCookieRows(cs)) == cs
  {
    forall i | 0 <= i < |cs|
      ensures FromCookieRow(ToCookieRow(cs[i])) == cs[i]
    {
    }
  }

  /** The post data the insert works with: the entry's own, or the zero value. */
  function PostOrZero(e: Entry): PostData {
    if e.request.postData.Some? then e.request.postData.value else PostData("", Nil, "", "", "")
  }

  function LebedevOrZero(e: Entry): Lebedev {
    if e.lebedev.Some? then e.lebedev.value else Lebedev("", "", "", None)
  }

  /** The `http2` column: the fingerprint as JSON, or empty. */
  function Http2Text(json: Json, e: Entry): string {
    var lb := LebedevOrZero(e);
    if lb.http2.Some? then json.marshal(lb.http2.value) else ""
  }

  /** The arguments of the INSERT INTO entries, column by column. */
  function RowOf(json: Json, id: int, session: string, at: int, e: Entry): EntryRow {
    var post, lb := PostOrZero(e), LebedevOrZero(e);
    EntryRow(
      id, session, at, e.pageref, e.startedDateTime, e.time, e.serverIpAddress, e.connection, e.comment,
      e.request.httpMethod, e.request.url, e.request.httpVersion, e.request.headersSize, e.request.headersCompression,
      e.request.bodySize, e.request.comment,
      if e.request.postData.Some? then 1 else 0, post.mimeType, post.text, post.encoding, post.comment,
      e.response.status, e.response.statusText, e.response.httpVersion, e.response.redirectUrl,
      e.response.headersSize, e.response.headersCompression, e.response.bodySize, e.response.comment,
      e.response.content.size, e.response.content.compression, e.response.content.mimeType, e.response.content.text,
      e.response.content.encoding, e.response.content.comment,
      e.timings.blocked, e.timings.dns, e.timings.connect, e.timings.send, e.timings.wait, e.timings.receive,
      e.timings.ssl, e.timings.comment,
      e.cache.comment, lb.clientHelloHex, lb.upstreamProto, Http2Text(json, e))
  }

  /** `buildLebedev`: text the JSON reader rejects is dropped. */
  function BuildLebedev(json: Json, session: string, clientHello: string, upstreamProto: string, http2: string)
    : Option<Lebedev>
  {
    var h := if http2 != "" then json.unmarshal(http2) else None;
    if clientHello == "" && upstreamProto == "" && h.None? then None
    else Some(Lebedev(session, clientHello, upstreamProto, h))
  }

  /** The ordered collections of one entry, as rows hold them. */
  datatype Children = Children(
    reqHeaders: seq<NVP>, respHeaders: seq<NVP>, reqCookies: seq<CookieRow>, respCookies: seq<CookieRow>,
    query: seq<NVP>, params: seq<Param>, before: seq<CacheState>, after: seq<CacheState>)

  function AsList<T>(o: Option<T>): seq<T> {
    if o.Some? then [o.value] else []
  }

  /** What the insert writes into the child tables. */
  function ChildrenOf(e: Entry): Children {
    Children(
      e.request.headers.Elems(), e.response.headers.Elems(),
      ToCookieRows(e.request.cookies.Elems()), ToCookieRows(e.response.cookies.Elems()),
      e.request.queryString.Elems(), PostOrZero(e).params.Elems(),
      AsList(e.cache.beforeRequest), AsList(e.cache.afterRequest))
  }

  function FirstOf<T>(s: seq<T>): Option<T> {
    if s == [] then None else Some(s[0])
  }

  /** `scanEntry` and `loadChildren`: headers, cookies and queries start from an empty slice, parameters from nil. */
  function EntryOf(json: Json, r: EntryRow, c: Children): Entry {
    Entry(
      r.pageref, r.startedDateTime, r.time,
      Request(
        r.reqMethod, r.reqUrl, r.reqHttpVersion, Of(FromCookieRows(c.reqCookies)), Of(c.reqHeaders), Of(c.query),
        if r.hasPost == 1
        then Some(PostData(r.postMimeType, if c.params == [] then Nil else Of(c.params), r.postText, r.postEncoding,
                           r.postComment))
        else None,
        r.reqHeadersSize, r.reqHeadersCompression, r.reqBodySize, r.reqComment),
      Response(
        r.respStatus, r.respStatusText, r.respHttpVersion, Of(FromCookieRows(c.respCookies)), Of(c.respHeaders),
        Content(r.contentSize, r.contentCompression, r.contentMimeType, r.contentText, r.contentEncoding,
                r.contentComment),
        r.respRedirectUrl, r.respHeadersSize, r.respHeadersCompression, r.respBodySize, r.respComment),
      Cache(FirstOf(c.before), FirstOf(c.after), r.cacheComment),
      Timings(r.tBlocked, r.tDns, r.tConnect, r.tSend, r.tWait, r.tReceive, r.tSsl, r.timingsComment),
      r.serverIpAddress, r.connection, r.comment,
      BuildLebedev(json, r.session, r.clientHelloHex, r.upstreamProto, r.http2))
  }

  /** Taking an entry apart into rows and putting it together again gives its normal form. */
  lemma RowsReassemble(json: Json, id: int, session: string, at: int, e: Entry)
    requires Lawful(json)
    ensures EntryOf(json, RowOf(json, id, session, at, e), ChildrenOf(e)) == Norm(session, e)
  {
    CookiesRoundTrip(e.request.cookies.Elems());
    CookiesRoundTrip(e.response.cookies.Elems());
    LebedevSurvives(json, session, e);
  }

  lemma LebedevSurvives(json: Json, session: string, e: Entry)
    requires Lawful(json)
    ensures BuildLebedev(json, session, LebedevOrZero(e).clientHelloHex, LebedevOrZero(e).upstreamProto,
                         Http2Text(json, e))
            == NormLebedev(session, e.lebedev)
  {
  }

  /** UPDATE entries SET session: the row reads back as the same entry, but for the session `_lebedev` names. */
  lemma RelabelledRow(json: Json, r: EntryRow, c: Children, session: string)
    ensures EntryOf(json, r.(session := session), c) == Norm(session, EntryOf(json, r, c))
    ensures Norm(r.session, EntryOf(json, r, c)) == EntryOf(json, r, c)
  {
  }

  // ---- logs ----

  datatype LogRow = LogRow(
    version: string, creatorName: string, creatorVersion: string, creatorComment: string,
    browserName: string, browserVersion: string, browserComment: string, comment: string)

  function ToLogRow(log: Log): LogRow {
    var b := if log.browser.Some? then log.browser.value else Browser("", "", "");
    LogRow(if log.version == "" then "1.3" else log.version, log.creator.name, log.creator.version,
           log.creator.comment, b.name, b.version, b.comment, log.comment)
  }

  function FromLogRow(r: LogRow): Log {
    var b := Browser(r.browserName, r.browserVersion, r.browserComment);
    Log(r.version, Creator(r.creatorName, r.creatorVersion, r.creatorComment),
        if b == Browser("", "", "") then None else Some(b), r.comment)
  }

  /** A log read back: a missing version is 1.3, and a browser with nothing in it is none. */
  function NormLog(log: Log): Log {
    log.(version := if log.version == "" then "1.3" else log.version,
         browser := if log.browser == Some(Browser("", "", "")) then None else log.browser)
  }

  lemma LogRoundTrip(log: Log)
    ensures FromLogRow(ToLogRow(log)) == NormLog(log)
    ensures NormLog(NormLog(log)) == NormLog(log)
  {
  }
}
