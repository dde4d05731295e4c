/**
 * The write side of one HTTP/2 connection: response frames as `writeResponse`
 * and `writeData` build them, and a peer that reads the wire frame by frame.
 */
module Http2Wire {
  import opened Basics

  const MAX_FRAME_SIZE: nat := 16384

  datatype Response = Response(status: int, headers: seq<Header>, body: Bytes)

  // ---- HPACK at the level of field representations (section 6 of RFC 7541) ----

  datatype Rep =
    | Indexed(index: nat)
    | Literal(field: Header, indexed: bool)

  /** The dynamic table, newest entry first. */
  type Table = seq<Header>

  /** `fixed` is the static table; `encode` is the encoder's choice of representation. */
  datatype Hpack = Hpack(fixed: seq<Header>, maxSize: nat, encode: (Table, Header) -> (Table, Rep))

  function EntrySize(h: Header): nat {
    |h.name| + |h.value| + 32
  }

  function TableSize(t: Table): nat {
    if t == [] then 0 else EntrySize(t[0]) + TableSize(t[1..])
  }

  /** Eviction drops the oldest entries until the table fits (section 4.4 of RFC 7541). */
  function Evict(t: Table, maxSize: nat): Table {
    if t == [] || TableSize(t) <= maxSize then t else Evict(t[..|t| - 1], maxSize)
  }

  /** The peer's decoder: None when the index addresses no entry. */
  function DecodeField(c: Hpack, t: Table, rep: Rep): Option<(Table, Header)> {
    match rep
    case Indexed(i) =>
      if i < |c.fixed| then Some((t, c.fixed[i]))
      else if i - |c.fixed| < |t| then Some((t, t[i - |c.fixed|]))
      else None
    case Literal(h, indexed) => Some((if indexed then Evict([h] + t, c.maxSize) else t, h))
  }

  /** What the code relies on: a decoder in the encoder's state reads the field back and follows it. */
  ghost predicate Lawful(c: Hpack) {
    forall t, h :: DecodeField(c, t, c.encode(t, h).1) == Some((c.encode(t, h).0, h))
  }

  function EncodeBlock(c: Hpack, t: Table, fields: seq<Header>): (Table, seq<Rep>) {
    if fields == [] then (t, [])
    else
      var (t1, reps) := EncodeBlock(c, t, fields[..|fields| - 1]);
      var (t2, rep) := c.encode(t1, fields[|fields| - 1]);
      (t2, reps + [rep])
  }

  function DecodeBlock(c: Hpack, t: Table, block: seq<Rep>): Option<(Table, seq<Header>)> {
    if block == [] then Some((t, []))
    else
      match DecodeBlock(c, t, block[..|block| - 1])
      case None => None
      case Some((t1, fields)) =>
        match DecodeField(c, t1, block[|block| - 1])
        case None => None
        case Some((t2, h)) => Some((t2, fields + [h]))
  }

  lemma OneMoreRep(c: Hpack, t: Table, block: seq<Rep>, t1: Table, fields: seq<Header>, rep: Rep, t2: Table, h: Header)
    requires DecodeBlock(c, t, block) == Some((t1, fields)) && DecodeField(c, t1, rep) == Some((t2, h))
    ensures DecodeBlock(c, t, block + [rep]) == Some((t2, fields + [h]))
  {
    assert (block + [rep])[..|block|] == block;
  }

  lemma {:induction false} BlockRoundTrip(c: Hpack, t: Table, fields: seq<Header>)
    requires Lawful(c)
    ensures var (after, block) := EncodeBlock(c, t, fields);
            DecodeBlock(c, t, block) == Some((after, fields))
  {
    if fields != [] {
      var init, h := fields[..|fields| - 1], fields[|fields| - 1];
      BlockRoundTrip(c, t, init);
      var (t1, reps) := EncodeBlock(c, t, init);
      OneMoreRep(c, t, reps, t1, init, c.encode(t1, h).1, c.encode(t1, h).0, h);
      assert fields == init + [h];
    }
  }

  /** The position of the first entry of `t` equal to `h`, or |t|. */
  function Find(t: Table, h: Header): (i: nat)
    ensures i <= |t| && (i < |t| ==> t[i] == h)
  {
    if t == [] then 0 else if t[0] == h then 0 else 1 + Find(t[1..], h)
  }

  /** An encoder that indexes whatever fits, the way hpack encoders do. */
  function IndexingEncoder(fixed: seq<Header>, maxSize: nat): Hpack {
    Hpack(fixed, maxSize, (t: Table, h: Header) =>
      if Find(fixed, h) < |fixed| then (t, Indexed(Find(fixed, h)))
      else if Find(t, h) < |t| then (t, Indexed(|fixed| + Find(t, h)))
      else if EntrySize(h) <= maxSize then (Evict([h] + t, maxSize), Literal(h, true))
      else (t, Literal(h, false)))
  }

  /** The assumption on the encoder is met by an ordinary one, for any static table and size. */
  lemma LawfulExists(fixed: seq<Header>, maxSize: nat)
    ensures Lawful(IndexingEncoder(fixed, maxSize))
  {
    var c := IndexingEncoder(fixed, maxSize);
    forall t, h
      ensures DecodeField(c, t, c.encode(t, h).1) == Some((c.encode(t, h).0, h))
    {
      if Find(fixed, h) == |fixed| && Find(t, h) < |t| {
        assert c.encode(t, h) == (t, Indexed(|fixed| + Find(t, h)));
      }
    }
  }

  // ---- outbound frames ----

  datatype OutFrame =
    | SettingsOut
    | SettingsAckOut
    | WindowUpdateOut(id: nat, increment: nat)
    | PingAckOut(opaqueData: Bytes)
    | RstOut(id: nat)
    | HeadersOut(id: nat, block: seq<Rep>, end: bool)
    | DataOut(id: nat, end: bool, data: Bytes)

  /** `:status` first, then the response headers with lowercased names. */
  function ResponseFields(resp: Response): seq<Header> {
    [Header(":status", Itoa(resp.status))] + LowerNames(resp.headers)
  }

  function LowerNames(headers: seq<Header>): seq<Header> {
    seq(|headers|, i requires 0 <= i < |headers| => Header(Lower(headers[i].name), headers[i].value))
  }

  predicate SpellsStatus(text: string, status: int) {
    if status >= 0 then Spells(text, status) else text != "" && text[0] == '-' && Spells(text[1..], -status)
  }

  /** The field list of an answer, field by field. */
  ghost predicate AnswersWith(resp: Response, fields: seq<Header>) {
    && |fields| == |resp.headers| + 1
    && fields[0].name == ":status" && SpellsStatus(fields[0].value, resp.status)
    && forall i :: 0 <= i < |resp.headers| ==>
         IsLowered(resp.headers[i].name, fields[i + 1].name) && fields[i + 1].value == resp.headers[i].value
  }

  lemma FieldsAnswer(resp: Response)
    ensures AnswersWith(resp, ResponseFields(resp))
  {
    DecimalSpells(if resp.status >= 0 then resp.status else -resp.status);
    forall i | 0 <= i < |resp.headers|
      ensures IsLowered(resp.headers[i].name, ResponseFields(resp)[i + 1].name)
      ensures ResponseFields(resp)[i + 1].value == resp.headers[i].value
    {
      LowerIsLowered(resp.headers[i].name);
      assert ResponseFields(resp)[i + 1] == LowerNames(resp.headers)[i];
    }
  }

  /** The frames `writeData` sends. */
  function DataFrames(id: nat, body: Bytes): seq<OutFrame> {
    if |body| > MAX_FRAME_SIZE
    then [DataOut(id, false, body[..MAX_FRAME_SIZE])] + DataFrames(id, body[MAX_FRAME_SIZE..])
    else [DataOut(id, true, body)]
  }

  /** The frames `writeResponse` sends when the shared encoder's table is `t`. */
  function ResponseFrames(c: Hpack, t: Table, id: nat, resp: Response): seq<OutFrame> {
    FieldFrames(c, t, id, ResponseFields(resp), resp.body)
  }

  function FieldFrames(c: Hpack, t: Table, id: nat, fields: seq<Header>, body: Bytes): seq<OutFrame> {
    var block := EncodeBlock(c, t, fields).1;
    if body == [] then [HeadersOut(id, block, true)]
    else [HeadersOut(id, block, false)] + DataFrames(id, body)
  }

  // ---- the peer ----

  datatype Message =
    | Reply(id: nat, fields: seq<Header>, body: Bytes)
    | Reset(id: nat)

  /**
   * A client reading the wire: its HPACK decoder, whether everything read so far
   * was legal, whether SETTINGS came first, the reply being received, and the
   * messages received. It accepts nothing but the rest of a reply once a reply
   * has begun (section 8.1 of RFC 9113), and no DATA frame over 16384 octets.
   */
  datatype Peer = Peer(table: Table, ok: bool, greeted: bool, current: Option<Message>, got: seq<Message>)

  const FRESH_PEER := Peer([], true, false, None, [])

  function Hear(c: Hpack, p: Peer, f: OutFrame): Peer {
    if !p.greeted then p.(greeted := true, ok := p.ok && f == SettingsOut)
    else if p.current.Some? then
      match f
      case DataOut(id, end, data) =>
        var r := p.current.value;
        if !r.Reply? || id != r.id || data == [] || |data| > MAX_FRAME_SIZE then p.(ok := false)
        else if end then p.(current := None, got := p.got + [r.(body := r.body + data)])
        else p.(current := Some(r.(body := r.body + data)))
      case _ => p.(ok := false)
    else
      match f
      case SettingsOut => p.(ok := false)
      case DataOut(_, _, _) => p.(ok := false)
      case RstOut(id) => p.(got := p.got + [Reset(id)])
      case HeadersOut(id, block, end) =>
        (match DecodeBlock(c, p.table, block)
         case None => p.(ok := false)
         case Some((t, fields)) =>
           if end then p.(table := t, got := p.got + [Reply(id, fields, [])])
           else p.(table := t, current := Some(Reply(id, fields, []))))
      case _ => p
  }

  function HearAll(c: Hpack, p: Peer, frames: seq<OutFrame>): Peer
    decreases |frames|
  {
    if frames == [] then p else HearAll(c, Hear(c, p, frames[0]), frames[1..])
  }

  lemma {:induction false} HearAppend(c: Hpack, p: Peer, a: seq<OutFrame>, b: seq<OutFrame>)
    ensures HearAll(c, p, a + b) == HearAll(c, HearAll(c, p, a), b)
    decreases |a|
  {
    if a == [] {
      assert a + b == b;
    } else {
      assert (a + b)[1..] == a[1..] + b;
      HearAppend(c, Hear(c, p, a[0]), a[1..], b);
    }
  }

  lemma HearOne(c: Hpack, p: Peer, a: seq<OutFrame>, f: OutFrame)
    ensures HearAll(c, p, a + [f]) == Hear(c, HearAll(c, p, a), f)
  {
    HearAppend(c, p, a, [f]);
    assert [f][1..] == [];
  }

  lemma {:induction false} HearData(c: Hpack, p: Peer, id: nat, body: Bytes)
    requires p.ok && p.greeted && p.current.Some? && p.current.value.Reply? && p.current.value.id == id
    requires body != []
    ensures var r := p.current.value;
            HearAll(c, p, DataFrames(id, body))
            == p.(current := None, got := p.got + [r.(body := r.body + body)])
    decreases |body|
  {
    var frames := DataFrames(id, body);
    if |body| > MAX_FRAME_SIZE {
      var head, tail := body[..MAX_FRAME_SIZE], body[MAX_FRAME_SIZE..];
      assert head + tail == body;
      HearData(c, Hear(c, p, frames[0]), id, tail);
      var r := p.current.value;
      assert (r.body + head) + tail == r.body + body;
      assert frames[1..] == DataFrames(id, tail);
    } else {
      assert frames[1..] == [];
    }
  }

  /** The block carries the answer's fields to a decoder in state `t`. */
  ghost predicate Carries(c: Hpack, t: Table, block: seq<Rep>, after: Table, resp: Response) {
    exists fields :: DecodeBlock(c, t, block) == Some((after, fields)) && AnswersWith(resp, fields)
  }

  lemma BlockCarries(c: Hpack, t: Table, resp: Response)
    requires Lawful(c)
    ensures var (after, block) := EncodeBlock(c, t, ResponseFields(resp)); Carries(c, t, block, after, resp)
  {
    BlockRoundTrip(c, t, ResponseFields(resp));
    FieldsAnswer(resp);
  }

  /** One more reply on stream `id`, with the fields and the body of the answer. */
  ghost predicate OneMoreAnswer(was: seq<Message>, now: seq<Message>, id: nat, resp: Response) {
    && |now| == |was| + 1 && now[..|was|] == was && now[|was|].Reply? && now[|was|].id == id
    && AnswersWith(resp, now[|was|].fields) && now[|was|].body == resp.body
  }

  lemma ReplyAnswers(got: seq<Message>, id: nat, resp: Response)
    ensures OneMoreAnswer(got, got + [Reply(id, ResponseFields(resp), resp.body)], id, resp)
  {
    FieldsAnswer(resp);
  }

  /**
   * A peer between replies whose decoder is in the encoder's state receives one
   * whole response: its exact fields and body, and ends in the encoder's new state.
   */
  lemma HearResponse(c: Hpack, p: Peer, id: nat, resp: Response)
    requires Lawful(c) && p.ok && p.greeted && p.current.None?
    ensures OneMoreAnswer(p.got, HearAll(c, p, ResponseFrames(c, p.table, id, resp)).got, id, resp)
    ensures HearAll(c, p, ResponseFrames(c, p.table, id, resp))
            == p.(table := EncodeBlock(c, p.table, ResponseFields(resp)).0,
                  got := p.got + [Reply(id, ResponseFields(resp), resp.body)])
  {
    HearFields(c, p, id, ResponseFields(resp), resp.body);
    ReplyAnswers(p.got, id, resp);
  }

  lemma HearFields(c: Hpack, p: Peer, id: nat, fields: seq<Header>, body: Bytes)
    requires Lawful(c) && p.ok && p.greeted && p.current.None?
    ensures HearAll(c, p, FieldFrames(c, p.table, id, fields, body))
            == p.(table := EncodeBlock(c, p.table, fields).0, got := p.got + [Reply(id, fields, body)])
  {
    BlockRoundTrip(c, p.table, fields);
    var frames := FieldFrames(c, p.table, id, fields, body);
    var p1 := Hear(c, p, frames[0]);
    if body == [] {
      assert frames[1..] == [];
    } else {
      assert frames[1..] == DataFrames(id, body);
      HearData(c, p1, id, body);
      assert [] + body == body;
    }
  }

  // ---- what acceptance by the peer says about the frames themselves ----

  /** Frames that end no reply. */
  predicate NoEnd(frames: seq<OutFrame>) {
    forall i :: 0 <= i < |frames| ==> !(frames[i].DataOut? && frames[i].end)
  }

  lemma {:induction false} BadStaysBad(c: Hpack, p: Peer, frames: seq<OutFrame>)
    ensures !p.ok ==> !HearAll(c, p, frames).ok
    decreases |frames|
  {
    if frames != [] {
      BadStaysBad(c, Hear(c, p, frames[0]), frames[1..]);
    }
  }

  lemma {:induction false} InsideReply(c: Hpack, p: Peer, id: nat, frames: seq<OutFrame>)
    requires p.greeted && p.current.Some? && p.current.value.Reply? && p.current.value.id == id
    requires HearAll(c, p, frames).ok && NoEnd(frames)
    ensures forall i :: 0 <= i < |frames| ==>
              frames[i].DataOut? && frames[i].id == id && 0 < |frames[i].data| <= MAX_FRAME_SIZE
    decreases |frames|
  {
    if frames != [] {
      BadStaysBad(c, Hear(c, p, frames[0]), frames[1..]);
      assert frames[0] in frames;
      forall i | 0 <= i < |frames[1..]|
        ensures !(frames[1..][i].DataOut? && frames[1..][i].end)
      {
        assert frames[1..][i] == frames[i + 1];
      }
      InsideReply(c, Hear(c, p, frames[0]), id, frames[1..]);
      forall i | 0 <= i < |frames|
        ensures frames[i].DataOut? && frames[i].id == id && 0 < |frames[i].data| <= MAX_FRAME_SIZE
      {
        if i > 0 { assert frames[i] == frames[1..][i - 1]; }
      }
    }
  }

  /**
   * On a wire the peer accepts, whatever follows a HEADERS frame without
   * END_STREAM is DATA of the same stream until the frame that carries
   * END_STREAM: no control frame and no other stream's frame in between.
   */
  lemma RepliesAreContiguous(c: Hpack, wire: seq<OutFrame>, i: nat, j: nat)
    requires HearAll(c, FRESH_PEER, wire).ok
    requires i < j < |wire| && wire[i].HeadersOut? && !wire[i].end && NoEnd(wire[i + 1..j])
    ensures wire[j].DataOut? && wire[j].id == wire[i].id && 0 < |wire[j].data| <= MAX_FRAME_SIZE
  {
    assert wire == (wire[..i] + [wire[i]]) + (wire[i + 1..j] + ([wire[j]] + wire[j + 1..]));
    var p := HearAll(c, FRESH_PEER, wire[..i]);
    HearAppend(c, FRESH_PEER, wire[..i] + [wire[i]], wire[i + 1..j] + ([wire[j]] + wire[j + 1..]));
    HearOne(c, FRESH_PEER, wire[..i], wire[i]);
    var q := Hear(c, p, wire[i]);
    HearAppend(c, q, wire[i + 1..j], [wire[j]] + wire[j + 1..]);
    var r := HearAll(c, q, wire[i + 1..j]);
    HearAppend(c, r, [wire[j]], wire[j + 1..]);
    BadStaysBad(c, HearAll(c, r, [wire[j]]), wire[j + 1..]);
    assert [wire[j]][1..] == [];
    BadStaysBad(c, r, [wire[j]]);
    BadStaysBad(c, q, wire[i + 1..j]);
    InsideReply(c, q, wire[i].id, wire[i + 1..j]);
    StillInside(c, q, wire[i].id, wire[i + 1..j]);
  }

  lemma {:induction false} StillInside(c: Hpack, p: Peer, id: nat, frames: seq<OutFrame>)
    requires p.greeted && p.current.Some? && p.current.value.Reply? && p.current.value.id == id
    requires HearAll(c, p, frames).ok && NoEnd(frames)
    ensures var q := HearAll(c, p, frames);
            q.greeted && q.current.Some? && q.current.value.Reply? && q.current.value.id == id
    decreases |frames|
  {
    if frames != [] {
      BadStaysBad(c, Hear(c, p, frames[0]), frames[1..]);
      assert frames[0] in frames;
      forall i | 0 <= i < |frames[1..]|
        ensures !(frames[1..][i].DataOut? && frames[1..][i].end)
      {
        assert frames[1..][i] == frames[i + 1];
      }
      StillInside(c, Hear(c, p, frames[0]), id, frames[1..]);
    }
  }

  // ---- what `writeData` sends ----

  function Joined(frames: seq<OutFrame>): Bytes {
    if frames == [] then []
    else (if frames[0].DataOut? then frames[0].data else []) + Joined(frames[1..])
  }

  /** The chunks are full, non-empty where the body is, join to the body, and only the last ends the stream. */
  lemma {:induction false} DataFramesShape(id: nat, body: Bytes)
    ensures var frames := DataFrames(id, body);
            && |frames| > 0
            && Joined(frames) == body
            && (forall i :: 0 <= i < |frames| ==>
                  && frames[i].DataOut? && frames[i].id == id && |frames[i].data| <= MAX_FRAME_SIZE
                  && (body != [] ==> frames[i].data != [])
                  && (frames[i].end <==> i == |frames| - 1)
                  && (i < |frames| - 1 ==> |frames[i].data| == MAX_FRAME_SIZE))
    decreases |body|
  {
    var frames := DataFrames(id, body);
    if |body| > MAX_FRAME_SIZE {
      var rest := DataFrames(id, body[MAX_FRAME_SIZE..]);
      DataFramesShape(id, body[MAX_FRAME_SIZE..]);
      assert frames[1..] == rest;
      forall i | 0 <= i < |frames|
        ensures && frames[i].DataOut? && frames[i].id == id && |frames[i].data| <= MAX_FRAME_SIZE
                && (body != [] ==> frames[i].data != [])
                && (frames[i].end <==> i == |frames| - 1)
                && (i < |frames| - 1 ==> |frames[i].data| == MAX_FRAME_SIZE)
      {
        if i > 0 { assert frames[i] == rest[i - 1]; }
      }
    } else {
      assert frames[1..] == [];
    }
  }
}
