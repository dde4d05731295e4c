/** The reader itself (internal/capture/capture.go), consuming a buffer step by step. */
module Http1Reader {
  import opened Basics
  import opened Http1
  import opened Http1Shows
  import opened Http1Wire

  /** The standard library's buffered reader, as the bytes it has yet to give out. */
  class BufReader {
    var rest: string

    constructor (input: string)
      ensures rest == input
    {
      rest := input;
    }

    /** `ReadString('\n')`: None at the end of input, where what is left is lost. */
    method ReadString() returns (line: Option<string>)
      modifies this
      ensures match CutLine(old(rest))
              case None => line == None && rest == ""
              case Some((l, r)) => line == Some(l) && rest == r
    {
      var i := 0;
      while i < |rest| && rest[i] != '\n'
        invariant i <= |rest| && '\n' !in rest[..i]
      {
        assert rest[..i + 1] == rest[..i] + [rest[i]];
        i := i + 1;
      }
      LineEndsAt(rest, i);
      if i == |rest| {
        line, rest := None, "";
      } else {
        line, rest := Some(rest[..i + 1]), rest[i + 1..];
      }
    }

    /** `io.ReadFull`. */
    method ReadFull(n: nat) returns (data: Option<string>)
      modifies this
      ensures if n <= |old(rest)| then data == Some(old(rest)[..n]) && rest == old(rest)[n..] else data == None
    {
      if n > |rest| {
        return None;
      }
      data, rest := Some(rest[..n]), rest[n..];
    }
  }

  lemma {:induction false} LineEndsAt(s: string, i: nat)
    requires i <= |s| && '\n' !in s[..i] && (i == |s| || s[i] == '\n')
    ensures CutLine(s) == if i == |s| then None else Some((s[..i + 1], s[i + 1..]))
    decreases i
  {
    if i > 0 {
      assert s[..i][0] == s[0];
      assert s[1..][..i - 1] == s[..i][1..];
      LineEndsAt(s[1..], i - 1);
      if i < |s| { assert [s[0]] + s[1..][..i] == s[..i + 1] && s[1..][i..] == s[i + 1..]; }
    }
  }

  /** `readHeaders`. */
  method ReadHeaders(r: BufReader) returns (headers: Option<seq<Header>>)
    modifies r
    ensures match ParseHeaders(old(r.rest))
            case Fail(_) => headers == None
            case Got(hs, rest) => headers == Some(hs) && r.rest == rest
  {
    var hs := [];
    AfterNone(ParseHeaders(r.rest));
    while true
      invariant ParseHeaders(old(r.rest)) == After(hs, ParseHeaders(r.rest))
      decreases |r.rest|
    {
      ghost var s := r.rest;
      var line := r.ReadString();
      if line.None? {
        return None;
      }
      var trimmed := TrimEnd(line.value, BREAK);
      if trimmed == "" {
        assert hs + [] == hs;
        return Some(hs);
      }
      var h := ParseHeader(trimmed);
      if h.None? {
        return None;
      }
      AfterOneMore(hs, h.value, s, ParseHeaders(r.rest));
      hs := hs + [h.value];
    }
  }

  /** A parse of the remaining header lines, with the ones already read in front. */
  function After(hs: seq<Header>, p: Parsed<seq<Header>>): Parsed<seq<Header>> {
    match p case Fail(why) => Fail(why) case Got(more, rest) => Got(hs + more, rest)
  }

  lemma AfterNone(p: Parsed<seq<Header>>)
    ensures After([], p) == p
  {
    if p.Got? { assert [] + p.value == p.value; }
  }

  lemma AfterOneMore(hs: seq<Header>, h: Header, s: string, p: Parsed<seq<Header>>)
    requires ParseHeaders(s) == After([h], p)
    ensures After(hs, ParseHeaders(s)) == After(hs + [h], p)
  {
    if p.Got? { assert hs + ([h] + p.value) == hs + [h] + p.value; }
  }

  /** The standard library's chunked reader run to its end. */
  method ReadChunks(r: BufReader) returns (body: Option<string>)
    modifies r
    ensures match ParseChunks(old(r.rest))
            case Fail(_) => body == None
            case Got(data, rest) => body == Some(data) && r.rest == rest
  {
    var data := "";
    WithNoData(ParseChunks(r.rest));
    while true
      invariant ParseChunks(old(r.rest)) == WithData(data, ParseChunks(r.rest))
      decreases |r.rest|
    {
      ghost var s := r.rest;
      var line := r.ReadString();
      if line.None? {
        return None;
      }
      var size := ChunkSize(line.value);
      if size.None? {
        return None;
      }
      if size.value == 0 {
        assert data + "" == data;
        return Some(data);
      }
      ghost var afterLine := r.rest;
      var part := r.ReadFull(size.value);
      if part.None? {
        return None;
      }
      var crlf := r.ReadFull(2);
      if crlf.None? || crlf.value != BREAK {
        assert part.value == afterLine[..size.value];
        assert crlf.Some? ==> crlf.value == afterLine[size.value..size.value + 2];
        return None;
      }
      assert crlf.value == afterLine[size.value..size.value + 2] && r.rest == afterLine[size.value + 2..];
      DataOneMore(data, part.value, s, ParseChunks(r.rest));
      data := data + part.value;
    }
  }

  function WithData(data: string, p: Parsed<string>): Parsed<string> {
    match p case Fail(why) => Fail(why) case Got(more, rest) => Got(data + more, rest)
  }

  lemma WithNoData(p: Parsed<string>)
    ensures WithData("", p) == p
  {
    if p.Got? { assert "" + p.value == p.value; }
  }

  lemma DataOneMore(data: string, part: string, s: string, p: Parsed<string>)
    requires ParseChunks(s) == WithData(part, p)
    ensures WithData(data, ParseChunks(s)) == WithData(data + part, p)
  {
    if p.Got? { assert data + (part + p.value) == data + part + p.value; }
  }

  /** `readChunked`: the chunks, then the trailer section, which may also end with the input. */
  method ReadChunked(r: BufReader) returns (body: Option<string>)
    modifies r
    ensures match ParseChunks(old(r.rest))
            case Fail(_) => body == None
            case Got(data, rest) => body == Some(data) && r.rest == SkipTrailers(rest).1
  {
    body := ReadChunks(r);
    if body.None? {
      return;
    }
    ghost var start := r.rest;
    while true
      invariant SkipTrailers(start) == SkipTrailers(r.rest)
      decreases |r.rest|
    {
      var line := r.ReadString();
      if line.None? {
        return;
      }
      if TrimEnd(line.value, BREAK) == "" {
        return;
      }
    }
  }

  /** `readBody`: chunked framing first, then the first Content-Length. */
  method ReadBody(r: BufReader, headers: seq<Header>) returns (ok: bool, body: Option<string>)
    modifies r
    ensures match ParseBody(old(r.rest), headers)
            case Fail(_) => !ok
            case Got((b, _), rest) => ok && body == b && r.rest == rest
  {
    if HasChunked(headers) {
      body := ReadChunked(r);
      return body.Some?, body;
    }
    var n := ContentLength(headers);
    if n.None? || n.value == 0 {
      return true, None;
    }
    body := r.ReadFull(n.value);
    ok := body.Some?;
  }

  lemma ReadMeans(s: string)
    ensures Parse(s).Got? ==> BeginsWith(s, Parse(s).value.0)
    ensures forall m, t :: WellFormed(m) && s == Print(m) + t ==>
              Parse(s).Got? && Shows(m, Parse(s).value.0) && Parse(s).rest == t
  {
    if Parse(s).Got? { RequestIsAhead(s); }
    forall m, t | WellFormed(m) && s == Print(m) + t
      ensures Parse(s).Got? && Shows(m, Parse(s).value.0) && Parse(s).rest == t
    {
      MessageIsRead(m, t);
    }
  }

  /** `read`: one request, leaving the reader right behind it. */
  method Read(r: BufReader) returns (req: Option<Request>)
    modifies r
    ensures match Parse(old(r.rest))
            case Fail(_) => req == None
            case Got((parsed, _), rest) => req == Some(parsed) && r.rest == rest
    ensures req.Some? ==> BeginsWith(old(r.rest), req.value)
    ensures forall m, t :: WellFormed(m) && old(r.rest) == Print(m) + t ==>
              req.Some? && Shows(m, req.value) && r.rest == t
  {
    ReadMeans(r.rest);
    var first := r.ReadString();
    if first.None? {
      return None;
    }
    var line := ParseRequestLine(TrimEnd(first.value, BREAK));
    if line.None? {
      return None;
    }
    var headers := ReadHeaders(r);
    if headers.None? {
      return None;
    }
    var ok, body := ReadBody(r, headers.value);
    if !ok {
      return None;
    }
    req := Some(MakeRequest(line.value, headers.value, body));
  }

  lemma NoMoreRequests(s: string)
    requires Parse(s).Fail?
    ensures Requests(s) == []
  {
  }

  lemma RequestsMean(s: string)
    ensures forall ms, t :: AllWellFormed(ms) && s == PrintAll(ms) + t ==> AllShow(ms, Requests(s))
  {
    forall ms, t | AllWellFormed(ms) && s == PrintAll(ms) + t
      ensures AllShow(ms, Requests(s))
    {
      PipelineIsRead(ms, t);
    }
  }

  /** The keep-alive loop of `serveH1`: every request on the connection, until one fails to parse. */
  method ServeH1(r: BufReader) returns (reqs: seq<Request>)
    modifies r
    ensures reqs == Requests(old(r.rest))
    ensures forall ms, t :: AllWellFormed(ms) && old(r.rest) == PrintAll(ms) + t ==> AllShow(ms, reqs)
  {
    RequestsMean(r.rest);
    reqs := [];
    ghost var all := Requests(r.rest);
    while true
      invariant all == reqs + Requests(r.rest)
      decreases |r.rest|
    {
      ghost var s := r.rest;
      var req := Read(r);
      if req.None? {
        NoMoreRequests(s);
        return;
      }
      OneMoreRequest(s, req.value, Parse(s).value.1, r.rest);
      Associate(reqs, [req.value], Requests(r.rest));
      reqs := reqs + [req.value];
    }
  }
}
