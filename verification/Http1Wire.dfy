/**
 * Requests as clients write them (sections 3, 5, 6 and 7.1 of RFC 9112), and the
 * reader's answer to any pipeline of them (internal/capture/capture.go,
 * internal/proxy/proxy.go).
 */
module Http1Wire {
  import opened Basics
  import opened Http1

  /** A header line: any run of blanks may stand between the colon and the value. */
  datatype Line = Line(name: string, pad: string, value: string)

  /** A chunk, with whatever spelling of its size and whatever extension. */
  datatype Chunk = Chunk(size: string, ext: string, data: string)

  datatype Framing =
    | NoBody
    | Sized(body: string)
    | InChunks(chunks: seq<Chunk>, last: Chunk, trailers: seq<string>)

  datatype Message = Message(httpMethod: string, target: string, proto: string, lines: seq<Line>, framing: Framing)

  function HeadersOf(lines: seq<Line>): seq<Header> {
    if lines == [] then [] else [Header(lines[0].name, lines[0].value)] + HeadersOf(lines[1..])
  }

  function DataOf(chunks: seq<Chunk>): string {
    if chunks == [] then "" else chunks[0].data + DataOf(chunks[1..])
  }

  function BodyOf(f: Framing): Option<string> {
    match f
    case NoBody => None
    case Sized(body) => Some(body)
    case InChunks(chunks, _, _) => Some(DataOf(chunks))
  }

  /** What the message says, independent of its spelling. */
  function Meaning(m: Message): Request {
    MakeRequest((m.httpMethod, m.target, m.proto), HeadersOf(m.lines), BodyOf(m.framing))
  }

  // ---- what counts as well formed ----

  predicate EndsClean(s: string) {
    s == "" || (s[|s| - 1] != '\r' && s[|s| - 1] != '\n')
  }

  predicate Without(s: string, c: char) {
    c !in s
  }

  predicate GoodLine(l: Line) {
    && Without(l.name, ':') && Without(l.name, '\n')
    && (forall c :: c in l.pad ==> c in BLANK)
    && Without(l.value, '\n') && EndsClean(l.value) && (l.value == "" || l.value[0] !in BLANK)
  }

  predicate GoodLines(lines: seq<Line>) {
    lines == [] || (GoodLine(lines[0]) && GoodLines(lines[1..]))
  }

  predicate GoodChunk(c: Chunk) {
    && ParseHex(c.size) == Some(|c.data|)
    && Without(c.ext, '\r') && Without(c.ext, '\n') && (c.ext == "" || c.ext[0] == ';')
  }

  predicate GoodChunks(chunks: seq<Chunk>) {
    chunks == [] || (GoodChunk(chunks[0]) && chunks[0].data != "" && GoodChunks(chunks[1..]))
  }

  predicate GoodTrailers(trailers: seq<string>) {
    trailers == []
    || (trailers[0] != "" && Without(trailers[0], '\n') && EndsClean(trailers[0]) && GoodTrailers(trailers[1..]))
  }

  /** Chunked framing excludes nothing about Content-Length: whatever it says, the chunks count. */
  predicate GoodFraming(hs: seq<Header>, f: Framing) {
    match f
    case NoBody => !HasChunked(hs) && (ContentLength(hs).None? || ContentLength(hs).value == 0)
    case Sized(body) => !HasChunked(hs) && body != "" && ContentLength(hs) == Some(|body|)
    case InChunks(chunks, last, trailers) =>
      HasChunked(hs) && GoodChunks(chunks) && GoodChunk(last) && last.data == "" && GoodTrailers(trailers)
  }

  predicate WellFormed(m: Message) {
    && Without(m.httpMethod, ' ') && Without(m.httpMethod, '\n') && Without(m.target, ' ') && Without(m.target, '\n')
    && Without(m.proto, '\n') && EndsClean(m.proto)
    && GoodLines(m.lines) && GoodFraming(HeadersOf(m.lines), m.framing)
  }

  // ---- printing ----

  function PrintLine(l: Line): string {
    l.name + (":" + (l.pad + l.value))
  }

  function PrintLines(lines: seq<Line>): string {
    if lines == [] then BREAK else PrintLine(lines[0]) + (BREAK + PrintLines(lines[1..]))
  }

  function PrintChunks(chunks: seq<Chunk>, last: Chunk): string {
    if chunks == [] then last.size + last.ext + BREAK
    else chunks[0].size + chunks[0].ext + (BREAK + (chunks[0].data + (BREAK + PrintChunks(chunks[1..], last))))
  }

  function PrintTrailers(trailers: seq<string>): string {
    if trailers == [] then BREAK else trailers[0] + (BREAK + PrintTrailers(trailers[1..]))
  }

  function PrintBody(f: Framing): string {
    match f
    case NoBody => ""
    case Sized(body) => body
    case InChunks(chunks, last, trailers) => PrintChunks(chunks, last) + PrintTrailers(trailers)
  }

  function RequestLine(m: Message): string {
    m.httpMethod + (" " + (m.target + (" " + m.proto)))
  }

  function Print(m: Message): string {
    RequestLine(m) + (BREAK + (PrintLines(m.lines) + PrintBody(m.framing)))
  }

  // ---- string facts ----

  lemma {:induction false} CutLineAt(text: string, rest: string)
    requires Without(text, '\n')
    ensures CutLine(text + (BREAK + rest)) == Some((text + BREAK, rest))
  {
    var s := text + (BREAK + rest);
    if text == "" {
      var more := s[1..];
      assert s[0] == '\r' && more[0] == '\n' && more[1..] == rest && more[..1] == "\n";
      assert CutLine(more) == Some(("\n", rest));
      assert ['\r'] + "\n" == text + BREAK;
    } else {
      assert s[1..] == text[1..] + (BREAK + rest);
      CutLineAt(text[1..], rest);
      assert [s[0]] + (text[1..] + BREAK) == text + BREAK;
    }
  }

  lemma TrimBreak(text: string)
    requires EndsClean(text)
    ensures TrimEnd(text + BREAK, BREAK) == text
  {
    var half := text + "\r";
    assert (text + BREAK)[..|text| + 1] == half && half[..|text|] == text;
    assert '\r' in BREAK && '\n' in BREAK;
    assert TrimEnd(half, BREAK) == TrimEnd(text, BREAK) == text;
  }

  lemma {:induction false} CutAt(before: string, c: char, after: string)
    requires Without(before, c)
    ensures Cut(before + ([c] + after), c) == Some((before, after))
  {
    var s := before + ([c] + after);
    if before == "" {
      assert s[1..] == after;
    } else {
      assert s[1..] == before[1..] + ([c] + after);
      CutAt(before[1..], c, after);
      assert [before[0]] + before[1..] == before;
    }
  }

  lemma {:induction false} CutNone(s: string, c: char)
    requires Without(s, c)
    ensures Cut(s, c) == None
  {
    if s != "" { CutNone(s[1..], c); }
  }

  lemma {:induction false} TrimPad(pad: string, value: string)
    requires (forall c :: c in pad ==> c in BLANK) && (value == "" || value[0] !in BLANK)
    ensures TrimStart(pad + value, BLANK) == value
  {
    if pad == "" {
      assert pad + value == value;
    } else {
      assert (pad + value)[1..] == pad[1..] + value;
      TrimPad(pad[1..], value);
    }
  }

  lemma RequestLineParses(m: Message)
    requires Without(m.httpMethod, ' ') && Without(m.target, ' ')
    ensures ParseRequestLine(RequestLine(m)) == Some((m.httpMethod, m.target, m.proto))
  {
    CutAt(m.httpMethod, ' ', m.target + (" " + m.proto));
    CutAt(m.target, ' ', m.proto);
  }

  lemma LineEndsClean(l: Line)
    requires GoodLine(l)
    ensures Without(PrintLine(l), '\n') && EndsClean(PrintLine(l)) && PrintLine(l) != ""
  {
    if l.value == "" && l.pad != "" { assert l.pad[|l.pad| - 1] in BLANK; }
  }

  lemma LineParses(l: Line)
    requires GoodLine(l)
    ensures ParseHeader(PrintLine(l)) == Some(Header(l.name, l.value))
    ensures Without(PrintLine(l), '\n') && EndsClean(PrintLine(l)) && PrintLine(l) != ""
  {
    LineEndsClean(l);
    CutAt(l.name, ':', l.pad + l.value);
    TrimPad(l.pad, l.value);
  }

  lemma {:induction false} LinesParse(lines: seq<Line>, t: string)
    requires GoodLines(lines)
    ensures ParseHeaders(PrintLines(lines) + t) == Got(HeadersOf(lines), t)
  {
    if lines == [] {
      CutLineAt("", t);
      assert "" + (BREAK + t) == BREAK + t;
      TrimBreak("");
      assert "" + BREAK == BREAK;
    } else {
      var text, more := PrintLine(lines[0]), PrintLines(lines[1..]) + t;
      LineParses(lines[0]);
      LinesParse(lines[1..], t);
      RegroupLine(text, PrintLines(lines[1..]), t);
      CutLineAt(text, more);
      TrimBreak(text);
      HeaderStep(text + (BREAK + more), text + BREAK, more, Header(lines[0].name, lines[0].value),
                 HeadersOf(lines[1..]), t);
    }
  }

  lemma RegroupLine(text: string, more: string, t: string)
    ensures text + (BREAK + more) + t == text + (BREAK + (more + t))
  {
  }

  // ---- chunks and trailers ----

  lemma {:induction false} HexText(s: string)
    requires HexValue(s).Some?
    ensures Without(s, ';') && Without(s, '\r') && Without(s, '\n') && TrimEnd(s, SPACE) == s
  {
    if s != "" {
      HexText(s[..|s| - 1]);
      assert s[..|s| - 1] + [s[|s| - 1]] == s;
      assert HexDigit(s[|s| - 1]).Some?;
    }
  }

  /** A chunk's size line is read as its size, whatever extension it carries. */
  lemma SizeLineParses(c: Chunk)
    requires GoodChunk(c)
    ensures Without(c.size + c.ext, '\n') && ChunkSize(c.size + c.ext + BREAK) == Some(|c.data|)
  {
    var text := c.size + c.ext;
    var line := text + BREAK;
    HexText(c.size);
    assert line[..|line| - 2] == text && line[|line| - 2] == '\r';
    if c.ext == "" {
      assert text == c.size;
      CutNone(c.size, ';');
    } else {
      assert text == (c.size + ";") + c.ext[1..];
      TrimEndKeeps(c.size + ";", c.ext[1..], SPACE);
      var kept :| TrimEnd(text, SPACE) == c.size + ";" + kept;
      assert c.size + ";" + kept == c.size + ([';'] + kept);
      CutAt(c.size, ';', kept);
    }
  }

  lemma {:induction false} ChunksParse(chunks: seq<Chunk>, last: Chunk, t: string)
    requires GoodChunks(chunks) && GoodChunk(last) && last.data == ""
    ensures ParseChunks(PrintChunks(chunks, last) + t) == Got(DataOf(chunks), t)
  {
    if chunks == [] {
      var size := last.size + last.ext;
      SizeLineParses(last);
      CutLineAt(size, t);
      assert size + BREAK + t == size + (BREAK + t);
    } else {
      var c, more := chunks[0], PrintChunks(chunks[1..], last);
      var size, data := c.size + c.ext, c.data;
      SizeLineParses(c);
      ChunksParse(chunks[1..], last, t);
      RegroupChunk(size, data, more, t);
      CutLineAt(size, data + (BREAK + (more + t)));
      ChunkStep(PrintChunks(chunks, last) + t, size + BREAK, data, more + t, DataOf(chunks[1..]), t);
    }
  }

  lemma RegroupChunk(size: string, data: string, more: string, t: string)
    ensures size + (BREAK + (data + (BREAK + more))) + t == size + (BREAK + (data + (BREAK + (more + t))))
  {
  }

  lemma {:induction false} TrailersParse(trailers: seq<string>, t: string)
    requires GoodTrailers(trailers)
    ensures SkipTrailers(PrintTrailers(trailers) + t) == (true, t)
  {
    if trailers == [] {
      CutLineAt("", t);
      assert "" + (BREAK + t) == BREAK + t;
      TrimBreak("");
      assert "" + BREAK == BREAK;
    } else {
      var more := PrintTrailers(trailers[1..]);
      TrailersParse(trailers[1..], t);
      RegroupLine(trailers[0], more, t);
      CutLineAt(trailers[0], more + t);
      TrimBreak(trailers[0]);
    }
  }

  /** Any body, in any split into chunks with any trailers, is read back, and the reader stands right behind it. */
  lemma BodyParses(hs: seq<Header>, f: Framing, t: string)
    requires GoodFraming(hs, f)
    ensures ParseBody(PrintBody(f) + t, hs) == Got((BodyOf(f), true), t)
  {
    match f
    case NoBody =>
      assert "" + t == t;
    case Sized(body) =>
      assert (body + t)[..|body|] == body && (body + t)[|body|..] == t;
    case InChunks(chunks, last, trailers) =>
      ChunkedParses(hs, chunks, last, trailers, t);
  }

  lemma ChunkedParses(hs: seq<Header>, chunks: seq<Chunk>, last: Chunk, trailers: seq<string>, t: string)
    requires GoodFraming(hs, InChunks(chunks, last, trailers))
    ensures ParseBody(PrintChunks(chunks, last) + PrintTrailers(trailers) + t, hs)
            == Got((Some(DataOf(chunks)), true), t)
  {
    var rest := PrintTrailers(trailers) + t;
    Associate(PrintChunks(chunks, last), PrintTrailers(trailers), t);
    ChunksParse(chunks, last, rest);
    TrailersParse(trailers, t);
    ChunkedBodyIs(PrintChunks(chunks, last) + rest, hs, DataOf(chunks), rest, t);
  }

  lemma ChunkedBodyIs(s: string, hs: seq<Header>, data: string, rest: string, t: string)
    requires HasChunked(hs) && ParseChunks(s) == Got(data, rest) && SkipTrailers(rest) == (true, t)
    ensures ParseBody(s, hs) == Got((Some(data), true), t)
  {
  }

  // ---- whole requests ----

  /** A well-formed request is read back exactly, headers in order with their casing; what follows is untouched. */
  lemma MessageParses(m: Message, t: string)
    requires WellFormed(m)
    ensures Parse(Print(m) + t) == Got((Meaning(m), true), t)
  {
    var first, hs, body := RequestLine(m), HeadersOf(m.lines), PrintBody(m.framing);
    var afterLine := PrintLines(m.lines) + (body + t);
    RequestLineIsClean(m);
    CutLineAt(first, afterLine);
    TrimBreak(first);
    RequestLineParses(m);
    LinesParse(m.lines, body + t);
    BodyParses(hs, m.framing, t);
    RegroupMessage(first, PrintLines(m.lines), body, t);
    ParseIs(Print(m) + t, first + BREAK, afterLine, (m.httpMethod, m.target, m.proto), hs, body + t, BodyOf(m.framing),
            true, t);
  }

  lemma RequestLineIsClean(m: Message)
    requires WellFormed(m)
    ensures Without(RequestLine(m), '\n') && EndsClean(RequestLine(m))
  {
  }

  lemma RegroupMessage(first: string, lines: string, body: string, t: string)
    ensures first + (BREAK + (lines + body)) + t == first + (BREAK + (lines + (body + t)))
  {
  }

  // ---- pipelining ----

  /** What the keep-alive loop reads before the first failure. */
  function Requests(s: string): seq<Request>
    decreases |s|
  {
    match Parse(s)
    case Fail(_) => []
    case Got((req, _), rest) => if |rest| < |s| then [req] + Requests(rest) else [req]
  }

  /** A request always takes bytes. */
  lemma ParseConsumes(s: string)
    requires Parse(s).Got?
    ensures |Parse(s).rest| < |s|
  {
    var (first, afterLine) := CutLine(s).value;
    HeadersShrink(afterLine);
    var hs, afterHeaders := ParseHeaders(afterLine).value, ParseHeaders(afterLine).rest;
    if HasChunked(hs) {
      ChunksShrink(afterHeaders);
      TrailersShrink(ParseChunks(afterHeaders).rest);
    }
  }

  lemma {:induction false} HeadersShrink(s: string)
    requires ParseHeaders(s).Got?
    ensures |ParseHeaders(s).rest| <= |s|
    decreases |s|
  {
    var (line, rest) := CutLine(s).value;
    if TrimEnd(line, BREAK) != "" { HeadersShrink(rest); }
  }

  lemma ChunksShrink(s: string)
    requires ParseChunks(s).Got?
    ensures |ParseChunks(s).rest| <= |s|
  {
    var used := ChunksAreConsumed(s, "");
  }

  lemma {:induction false} TrailersShrink(s: string)
    ensures |SkipTrailers(s).1| <= |s|
    decreases |s|
  {
    if CutLine(s).Some? {
      var (line, rest) := CutLine(s).value;
      if TrimEnd(line, BREAK) != "" { TrailersShrink(rest); }
    }
  }

  function PrintAll(ms: seq<Message>): string {
    if ms == [] then "" else Print(ms[0]) + PrintAll(ms[1..])
  }

  function Meanings(ms: seq<Message>): seq<Request> {
    if ms == [] then [] else [Meaning(ms[0])] + Meanings(ms[1..])
  }

  predicate AllWellFormed(ms: seq<Message>) {
    ms == [] || (WellFormed(ms[0]) && AllWellFormed(ms[1..]))
  }

  /**
   * Looping the reader over the concatenation of any well-formed requests, of any
   * framing, returns exactly those requests, and then whatever follows them.
   */
  lemma {:induction false} PipelineParses(ms: seq<Message>, t: string)
    requires AllWellFormed(ms)
    ensures Requests(PrintAll(ms) + t) == Meanings(ms) + Requests(t)
  {
    if ms == [] {
      assert "" + t == t;
    } else {
      Associate(Print(ms[0]), PrintAll(ms[1..]), t);
      MessageThenRest(ms[0], PrintAll(ms[1..]) + t);
      PipelineParses(ms[1..], t);
      Associate([Meaning(ms[0])], Meanings(ms[1..]), Requests(t));
    }
  }

  lemma MessageThenRest(m: Message, rest: string)
    requires WellFormed(m)
    ensures Requests(Print(m) + rest) == [Meaning(m)] + Requests(rest)
  {
    MessageParses(m, rest);
    OneMoreRequest(Print(m) + rest, Meaning(m), true, rest);
  }

  lemma OneMoreRequest(s: string, req: Request, clean: bool, rest: string)
    requires Parse(s) == Got((req, clean), rest)
    ensures |rest| < |s| && Requests(s) == [req] + Requests(rest)
  {
    ParseConsumes(s);
  }
}
