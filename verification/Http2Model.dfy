/**
 * The read side of one HTTP/2 client connection (internal/capture/http2.go) as
 * values: what a frame does to the connection fingerprint, to the open streams
 * and to the list of streams handed to handlers.
 */
module Http2Model {
  import opened Basics

  datatype Setting = Setting(id: nat, value: nat)

  datatype Priority = Priority(streamId: nat, streamDep: nat, weight: nat, exclusive: bool)

  datatype Fingerprint = Fingerprint(
    settings: seq<Setting>,
    connectionFlow: nat,
    priorities: seq<Priority>,
    pseudoOrder: seq<string>,
    headerOrder: seq<string>)

  datatype Stream = Stream(
    id: nat,
    httpMethod: string,
    path: string,
    scheme: string,
    authority: string,
    headers: seq<Header>,
    pseudoOrder: seq<string>,
    body: Bytes)

  datatype Request = Request(
    httpMethod: string,
    target: string,
    proto: string,
    scheme: string,
    authority: string,
    headers: seq<Header>,
    pseudoOrder: seq<string>,
    body: Bytes)

  /**
   * One frame as the framer's `ReadFrame` returns it. `padding` is the part of a
   * DATA frame that consumes flow-control window without being payload (section
   * 6.1 of RFC 9113). `OtherIn` is every frame type the read loop's switch ignores.
   */
  datatype InFrame =
    | SettingsIn(ack: bool, settings: seq<Setting>)
    | WindowUpdateIn(id: nat, increment: nat)
    | PriorityIn(priority: Priority)
    | HeadersIn(id: nat, fields: seq<Header>, end: bool)
    | DataIn(id: nat, data: Bytes, padding: nat, end: bool)
    | PingIn(ack: bool, opaqueData: Bytes)
    | RstIn(id: nat)
    | GoAwayIn
    | OtherIn

  /** A completed stream as `dispatch` hands it to its goroutine. */
  datatype Handoff = Handoff(id: nat, request: Request, snapshot: Fingerprint)

  datatype Reader = Reader(fp: Fingerprint, streams: map<nat, Stream>, jobs: seq<Handoff>)

  const NO_FINGERPRINT := Fingerprint([], 0, [], [], [])

  const FRESH_READER := Reader(NO_FINGERPRINT, map[], [])

  // ---- header blocks ----

  predicate IsPseudo(h: Header) {
    HasPrefix(h.name, ":")
  }

  function Regular(fields: seq<Header>): seq<Header> {
    if fields == [] then []
    else
      var init, last := fields[..|fields| - 1], fields[|fields| - 1];
      if IsPseudo(last) then Regular(init) else Regular(init) + [last]
  }

  function PseudoNames(fields: seq<Header>): seq<string> {
    if fields == [] then []
    else
      var init, last := fields[..|fields| - 1], fields[|fields| - 1];
      if IsPseudo(last) then PseudoNames(init) + [last.name] else PseudoNames(init)
  }

  /** The value of the last field called `name`, or "" when there is none. */
  function LastValue(fields: seq<Header>, name: string): string {
    if fields == [] then ""
    else
      var last := fields[|fields| - 1];
      if last.name == name then last.value else LastValue(fields[..|fields| - 1], name)
  }

  function Names(headers: seq<Header>): seq<string> {
    seq(|headers|, i requires 0 <= i < |headers| => headers[i].name)
  }

  /** The stream a header block opens. */
  function OpenedBy(id: nat, fields: seq<Header>): Stream {
    Stream(id, LastValue(fields, ":method"), LastValue(fields, ":path"), LastValue(fields, ":scheme"),
           LastValue(fields, ":authority"), Regular(fields), PseudoNames(fields), [])
  }

  function RequestOf(st: Stream): Request {
    Request(st.httpMethod, st.path, "HTTP/2.0", st.scheme, st.authority, st.headers, st.pseudoOrder, st.body)
  }

  /** Both orders are written once: by the first block that has any such field. */
  function NoteOrders(fp: Fingerprint, st: Stream): Fingerprint {
    fp.(pseudoOrder := if fp.pseudoOrder == [] then st.pseudoOrder else fp.pseudoOrder,
        headerOrder := if fp.headerOrder == [] then Names(st.headers) else fp.headerOrder)
  }

  // ---- one iteration of the read loop ----

  /** What reading `f` changes before any dispatch. */
  function Absorb(r: Reader, f: InFrame): Reader {
    match f
    case SettingsIn(ack, settings) =>
      if ack then r else r.(fp := r.fp.(settings := r.fp.settings + settings))
    case WindowUpdateIn(id, increment) =>
      if id == 0 then r.(fp := r.fp.(connectionFlow := (r.fp.connectionFlow + increment) % 0x1_0000_0000)) else r
    case PriorityIn(p) => r.(fp := r.fp.(priorities := r.fp.priorities + [p]))
    case HeadersIn(id, fields, _) =>
      var st := OpenedBy(id, fields);
      r.(fp := NoteOrders(r.fp, st), streams := r.streams[id := st])
    case DataIn(id, data, _, _) =>
      if id in r.streams
      then r.(streams := r.streams[id := r.streams[id].(body := r.streams[id].body + data)])
      else r
    case RstIn(id) => r.(streams := r.streams - {id})
    case _ => r
  }

  /** Whether reading `f` completes the stream it is on. */
  predicate Completes(r: Reader, f: InFrame) {
    match f
    case HeadersIn(_, _, end) => end
    case DataIn(id, _, _, end) => end && id in r.streams
    case _ => false
  }

  /** `dispatch`: the stream leaves the read loop's map, its request and a snapshot go to a goroutine. */
  function HandOver(r: Reader, id: nat): Reader
    requires id in r.streams
  {
    r.(streams := r.streams - {id}, jobs := r.jobs + [Handoff(id, RequestOf(r.streams[id]), r.fp)])
  }

  function OnFrame(r: Reader, f: InFrame): Reader {
    if Completes(r, f) then HandOver(Absorb(r, f), f.id) else Absorb(r, f)
  }

  /** The read loop's state after the frames `read`. */
  function ReadAll(read: seq<InFrame>): Reader {
    if read == [] then FRESH_READER else OnFrame(ReadAll(read[..|read| - 1]), read[|read| - 1])
  }

  lemma ReadAllSnoc(read: seq<InFrame>, f: InFrame)
    ensures ReadAll(read + [f]) == OnFrame(ReadAll(read), f)
  {
    assert (read + [f])[..|read|] == read;
  }
}
