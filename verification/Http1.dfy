/**
 * The HTTP/1.1 request grammar the capture reader accepts
 * (internal/capture/capture.go), over the bytes still unread as characters. Each
 * parser gives its value and the bytes it leaves.
 */
module Http1 {
  import opened Basics

  datatype Failure = Eof | UnexpectedEof | BadRequestLine | BadHeaderLine | BadChunk

  datatype Parsed<+T> = Got(value: T, rest: string) | Fail(why: Failure)

  /** `body` is None for a nil body. The scheme is always https, the pseudo order always empty. */
  datatype Request = Request(
    httpMethod: string, target: string, proto: string, authority: string, headers: seq<Header>, body: Option<string>,
    chunked: bool)

  // ---- strings ----

  /** `ReadString('\n')`: the first line with its newline, and what follows it. */
  function CutLine(s: string): (r: Option<(string, string)>)
    ensures r.Some? ==> |r.value.1| < |s|
  {
    if s == "" then None
    else if s[0] == '\n' then Some((s[..1], s[1..]))
    else
      match CutLine(s[1..])
      case None => None
      case Some((line, rest)) => Some(([s[0]] + line, rest))
  }

  const BREAK := "\r\n"
  const BLANK := " \t"
  const SPACE := "\t\n\r "

  /** `strings.Cut`. */
  function Cut(s: string, sep: char): Option<(string, string)> {
    if s == "" then None
    else if s[0] == sep then Some(("", s[1..]))
    else
      match Cut(s[1..], sep)
      case None => None
      case Some((before, after)) => Some(([s[0]] + before, after))
  }

  predicate EqualFold(a: string, b: string) {
    Lower(a) == Lower(b)
  }

  predicate Contains(s: string, word: string) {
    HasPrefix(s, word) || (s != "" && Contains(s[1..], word))
  }

  /** `strconv.Atoi`: an optional sign, at least one digit, and a 64-bit range. */
  function Atoi(s: string): Option<int> {
    var signed := s != "" && (s[0] == '+' || s[0] == '-');
    var ds := if signed then s[1..] else s;
    if ds == "" || exists c :: c in ds && !IsDigit(c) then None
    else
      var v: int := if signed && s[0] == '-' then -(NumberOf(ds) as int) else NumberOf(ds);
      if v < -0x8000_0000_0000_0000 || v > 0x7fff_ffff_ffff_ffff then None else Some(v)
  }

  function HexDigit(c: char): Option<nat> {
    if IsDigit(c) then Some(DigitValue(c))
    else if 'a' <= c <= 'f' then Some(c as int - 'a' as int + 10)
    else if 'A' <= c <= 'F' then Some(c as int - 'A' as int + 10)
    else None
  }

  function HexValue(s: string): Option<nat> {
    if s == "" then Some(0)
    else
      match HexValue(s[..|s| - 1])
      case None => None
      case Some(n) => (match HexDigit(s[|s| - 1]) case None => None case Some(d) => Some(16 * n + d))
  }

  /** The chunk-size parser of the standard library: 1 to 16 hex digits. */
  function ParseHex(s: string): Option<nat> {
    if s == "" || |s| > 16 then None else HexValue(s)
  }

  // ---- request line and headers ----

  function ParseRequestLine(line: string): Option<(string, string, string)> {
    match Cut(line, ' ')
    case None => None
    case Some((first, more)) =>
      match Cut(more, ' ')
      case None => None
      case Some((second, third)) => Some((first, second, third))
  }

  function ParseHeader(trimmed: string): Option<Header> {
    match Cut(trimmed, ':')
    case None => None
    case Some((name, raw)) => Some(Header(name, TrimStart(raw, BLANK)))
  }

  function ParseHeaders(s: string): Parsed<seq<Header>>
    decreases |s|
  {
    match CutLine(s)
    case None => Fail(Eof)
    case Some((line, rest)) =>
      var trimmed := TrimEnd(line, BREAK);
      if trimmed == "" then Got([], rest)
      else
        match ParseHeader(trimmed)
        case None => Fail(BadHeaderLine)
        case Some(h) =>
          match ParseHeaders(rest)
          case Fail(why) => Fail(why)
          case Got(hs, end) => Got([h] + hs, end)
  }

  function FirstHeader(hs: seq<Header>, name: string): string {
    if hs == [] then "" else if EqualFold(hs[0].name, name) then hs[0].value else FirstHeader(hs[1..], name)
  }

  /** The first Content-Length decides; None when it is absent or not a count. */
  function ContentLength(hs: seq<Header>): Option<nat> {
    if hs == [] then None
    else if EqualFold(hs[0].name, "Content-Length") then
      match Atoi(Trim(hs[0].value, ANYSPACE))
      case None => None
      case Some(n) => if n < 0 then None else Some(n)
    else ContentLength(hs[1..])
  }

  predicate IsChunked(h: Header) {
    EqualFold(h.name, "Transfer-Encoding") && Contains(Lower(h.value), "chunked")
  }

  predicate HasChunked(hs: seq<Header>) {
    hs != [] && (IsChunked(hs[0]) || HasChunked(hs[1..]))
  }

  // ---- bodies ----

  /** The size line of a chunk: CRLF and no other CR, trailing blanks and any extension dropped. */
  function ChunkSize(line: string): Option<nat> {
    if |line| < 2 || line[|line| - 2] != '\r' || '\r' in line[..|line| - 2] then None
    else
      var text := TrimEnd(line[..|line| - 2], SPACE);
      match Cut(text, ';')
      case None => ParseHex(text)
      case Some((size, _)) => ParseHex(size)
  }

  /** The data of all chunks, up to and including the size line of the last. */
  function ParseChunks(s: string): Parsed<string>
    decreases |s|
  {
    match CutLine(s)
    case None => Fail(UnexpectedEof)
    case Some((line, rest)) =>
      match ChunkSize(line)
      case None => Fail(BadChunk)
      case Some(n) =>
        if n == 0 then Got("", rest)
        else if |rest| < n + 2 then Fail(UnexpectedEof)
        else if rest[n..n + 2] != BREAK then Fail(BadChunk)
        else
          match ParseChunks(rest[n + 2..])
          case Fail(why) => Fail(why)
          case Got(data, end) => Got(rest[..n] + data, end)
  }

  /** The trailer section; the value says whether it ended with a blank line rather than with the input. */
  function SkipTrailers(s: string): (r: (bool, string))
    decreases |s|
  {
    match CutLine(s)
    case None => (false, "")
    case Some((line, rest)) => if TrimEnd(line, BREAK) == "" then (true, rest) else SkipTrailers(rest)
  }

  /** A body and whether the reader stands right behind it. */
  function ParseBody(s: string, hs: seq<Header>): Parsed<(Option<string>, bool)> {
    if HasChunked(hs) then
      match ParseChunks(s)
      case Fail(why) => Fail(why)
      case Got(data, rest) =>
        var (clean, end) := SkipTrailers(rest);
        Got((Some(data), clean), end)
    else
      var n := ContentLength(hs);
      if n.None? || n.value == 0 then Got((None, true), s)
      else if |s| < n.value then Fail(if s == "" then Eof else UnexpectedEof)
      else Got((Some(s[..n.value]), true), s[n.value..])
  }

  function MakeRequest(line: (string, string, string), hs: seq<Header>, body: Option<string>): Request {
    Request(line.0, line.1, line.2, FirstHeader(hs, "Host"), hs, body, HasChunked(hs))
  }

  /** One request; the flag is false only when the input ended inside a trailer section. */
  function Parse(s: string): Parsed<(Request, bool)> {
    match CutLine(s)
    case None => Fail(Eof)
    case Some((first, afterLine)) =>
      match ParseRequestLine(TrimEnd(first, BREAK))
      case None => Fail(BadRequestLine)
      case Some(line) =>
        match ParseHeaders(afterLine)
        case Fail(why) => Fail(why)
        case Got(hs, afterHeaders) =>
          match ParseBody(afterHeaders, hs)
          case Fail(why) => Fail(why)
          case Got((body, clean), rest) => Got((MakeRequest(line, hs, body), clean), rest)
  }

  // ---- one step of each parser ----

  lemma ParseIs(s: string, first: string, afterLine: string, line: (string, string, string), hs: seq<Header>,
                afterHeaders: string, body: Option<string>, clean: bool, rest: string)
    requires CutLine(s) == Some((first, afterLine)) && ParseRequestLine(TrimEnd(first, BREAK)) == Some(line)
    requires ParseHeaders(afterLine) == Got(hs, afterHeaders)
    requires ParseBody(afterHeaders, hs) == Got((body, clean), rest)
    ensures Parse(s) == Got((MakeRequest(line, hs, body), clean), rest)
  {
  }

  lemma HeaderStep(s: string, line: string, rest: string, h: Header, hs: seq<Header>, end: string)
    requires CutLine(s) == Some((line, rest)) && TrimEnd(line, BREAK) != ""
    requires ParseHeader(TrimEnd(line, BREAK)) == Some(h) && ParseHeaders(rest) == Got(hs, end)
    ensures ParseHeaders(s) == Got([h] + hs, end)
  {
  }

  lemma ChunkStep(s: string, line: string, data: string, more: string, after: string, end: string)
    requires CutLine(s) == Some((line, data + (BREAK + more))) && ChunkSize(line) == Some(|data|) && data != ""
    requires ParseChunks(more) == Got(after, end)
    ensures ParseChunks(s) == Got(data + after, end)
  {
    DataAhead(data, more);
  }

  lemma DataAhead(data: string, more: string)
    ensures var rest := data + (BREAK + more);
            |rest| == |data| + 2 + |more| && rest[..|data|] == data
            && rest[|data|..|data| + 2] == BREAK && rest[|data| + 2..] == more
  {
  }

  /** What a successful chunk parse saw. */
  lemma ChunkParts(s: string) returns (line: string, data: string, more: string)
    requires ParseChunks(s).Got?
    ensures CutLine(s) == Some((line, if data == "" then ParseChunks(s).rest else data + (BREAK + more)))
    ensures ChunkSize(line) == Some(|data|)
    ensures data == "" ==> ParseChunks(s).value == ""
    ensures data != "" ==> |more| < |s| && ParseChunks(more).Got?
                           && ParseChunks(s) == Got(data + ParseChunks(more).value, ParseChunks(more).rest)
  {
    var (first, rest) := CutLine(s).value;
    var n := ChunkSize(first).value;
    line, data, more := first, "", "";
    if n > 0 {
      data, more := rest[..n], rest[n + 2..];
      assert rest == data + (rest[n..n + 2] + more);
    }
  }

  // ---- only the consumed bytes matter ----

  lemma {:induction false} LineIsConsumed(s: string, t: string)
    requires CutLine(s).Some?
    ensures var (line, rest) := CutLine(s).value;
            s == line + rest && CutLine(line + t) == Some((line, t))
  {
    if s[0] == '\n' {
      assert (s[..1] + t)[..1] == s[..1] && (s[..1] + t)[1..] == t;
    } else {
      LineIsConsumed(s[1..], t);
      var (line, rest) := CutLine(s).value;
      assert (line + t)[1..] == line[1..] + t;
    }
  }

  lemma {:induction false} HeadersAreConsumed(s: string, t: string) returns (used: string)
    requires ParseHeaders(s).Got?
    ensures s == used + ParseHeaders(s).rest
    ensures ParseHeaders(used + t) == Got(ParseHeaders(s).value, t)
    decreases |s|
  {
    var (line, rest) := CutLine(s).value;
    LineIsConsumed(s, t);
    if TrimEnd(line, BREAK) == "" {
      used := line;
    } else {
      var more := HeadersAreConsumed(rest, t);
      LineIsConsumed(s, more + t);
      used := line + more;
      Associate(line, more, t);
      Associate(line, more, ParseHeaders(rest).rest);
      HeaderStep(used + t, line, more + t, ParseHeader(TrimEnd(line, BREAK)).value, ParseHeaders(rest).value, t);
    }
  }

  lemma {:induction false} ChunksAreConsumed(s: string, t: string) returns (used: string)
    requires ParseChunks(s).Got?
    ensures s == used + ParseChunks(s).rest
    ensures ParseChunks(used + t) == Got(ParseChunks(s).value, t)
    decreases |s|
  {
    var line, data, more := ChunkParts(s);
    LineIsConsumed(s, t);
    if data == "" {
      used := line;
    } else {
      var end := ParseChunks(s).rest;
      var next := ChunksAreConsumed(more, t);
      var body := data + (BREAK + (next + t));
      LineIsConsumed(s, body);
      used := line + (data + (BREAK + next));
      Regroup(line, data, next, t);
      Regroup(line, data, next, end);
      ChunkStep(used + t, line, data, next + t, ParseChunks(more).value, t);
    }
  }

  lemma Regroup(line: string, data: string, next: string, t: string)
    ensures line + (data + (BREAK + next)) + t == line + (data + (BREAK + (next + t)))
  {
  }

  lemma {:induction false} TrailersAreConsumed(s: string, t: string) returns (used: string)
    requires SkipTrailers(s).0
    ensures s == used + SkipTrailers(s).1 && SkipTrailers(used + t) == (true, t)
    decreases |s|
  {
    var (line, rest) := CutLine(s).value;
    LineIsConsumed(s, t);
    if TrimEnd(line, BREAK) == "" {
      used := line;
    } else {
      var more := TrailersAreConsumed(rest, t);
      LineIsConsumed(s, more + t);
      used := line + more;
      Associate(line, more, t);
      Associate(line, more, SkipTrailers(rest).1);
    }
  }

  lemma BodyIsConsumed(s: string, hs: seq<Header>, t: string) returns (used: string)
    requires ParseBody(s, hs).Got? && ParseBody(s, hs).value.1
    ensures s == used + ParseBody(s, hs).rest
    ensures ParseBody(used + t, hs) == Got(ParseBody(s, hs).value, t)
  {
    if HasChunked(hs) {
      used := ChunkedIsConsumed(s, t);
    } else if ContentLength(hs).None? || ContentLength(hs).value == 0 {
      used := "";
      assert used + t == t;
    } else {
      used := s[..ContentLength(hs).value];
      assert (used + t)[..|used|] == used && (used + t)[|used|..] == t;
    }
  }

  lemma ChunkedIsConsumed(s: string, t: string) returns (used: string)
    requires ParseChunks(s).Got? && SkipTrailers(ParseChunks(s).rest).0
    ensures s == used + SkipTrailers(ParseChunks(s).rest).1
    ensures ParseChunks(used + t).Got? && ParseChunks(used + t).value == ParseChunks(s).value
    ensures SkipTrailers(ParseChunks(used + t).rest) == (true, t)
  {
    var rest := ParseChunks(s).rest;
    var trailers := TrailersAreConsumed(rest, t);
    var chunks := ChunksAreConsumed(s, trailers + t);
    used := chunks + trailers;
    Associate(chunks, trailers, t);
    Associate(chunks, trailers, SkipTrailers(rest).1);
  }

  /**
   * The reader is self-delimiting: unless the input ends inside a trailer, the
   * request depends only on the bytes it consumes, whatever follows them.
   */
  lemma SelfDelimiting(s: string, t: string) returns (used: string)
    requires Parse(s).Got? && Parse(s).value.1
    ensures s == used + Parse(s).rest
    ensures Parse(used + t) == Got(Parse(s).value, t)
  {
    var (first, afterLine) := CutLine(s).value;
    var line := ParseRequestLine(TrimEnd(first, BREAK)).value;
    var hs, afterHeaders := ParseHeaders(afterLine).value, ParseHeaders(afterLine).rest;
    var body := BodyIsConsumed(afterHeaders, hs, t);
    var head := HeadersAreConsumed(afterLine, body + t);
    LineIsConsumed(s, head + (body + t));
    used := first + (head + body);
    RegroupThree(first, head, body, t);
    RegroupThree(first, head, body, Parse(s).rest);
    ParseIs(used + t, first, head + (body + t), line, hs, body + t, Parse(s).value.0.body, true, t);
  }

  lemma RegroupThree(a: string, b: string, c: string, t: string)
    ensures a + (b + c) + t == a + (b + (c + t))
  {
  }

  // ---- the one exception ----

  lemma {:induction false} NoLine(s: string)
    ensures CutLine(s).None? <==> '\n' !in s
  {
    if s != "" {
      NoLine(s[1..]);
      assert '\n' in s <==> s[0] == '\n' || '\n' in s[1..];
    }
  }

  lemma {:induction false} TrailersSwallow(s: string, t: string)
    requires !SkipTrailers(s).0 && '\n' !in t
    ensures SkipTrailers(s).1 == "" && SkipTrailers(s + t) == (false, "")
    decreases |s|
  {
    NoLine(s);
    NoLine(s + t);
    if CutLine(s).Some? {
      var (line, rest) := CutLine(s).value;
      LineIsConsumed(s, rest + t);
      assert s + t == line + (rest + t);
      TrailersSwallow(rest, t);
    }
  }

  /**
   * Where the input ends inside a trailer section the reader is not
   * self-delimiting: it takes whatever else there is on the line as well. With
   * `SelfDelimiting`, the flag is exactly the condition.
   */
  lemma EofInTrailerSwallows(s: string, t: string)
    requires Parse(s).Got? && !Parse(s).value.1 && '\n' !in t
    ensures Parse(s + t) == Got(Parse(s).value, "")
  {
    var (first, afterLine) := CutLine(s).value;
    var line := ParseRequestLine(TrimEnd(first, BREAK)).value;
    var hs, afterHeaders := ParseHeaders(afterLine).value, ParseHeaders(afterLine).rest;
    var rest := ParseChunks(afterHeaders).rest;
    TrailersSwallow(rest, t);
    var chunks := ChunksAreConsumed(afterHeaders, rest + t);
    var head := HeadersAreConsumed(afterLine, chunks + (rest + t));
    LineIsConsumed(s, head + (chunks + (rest + t)));
    SwallowedBody(chunks + (rest + t), hs, ParseChunks(afterHeaders).value, rest + t);
    RegroupFour(first, head, chunks, rest, t);
    ParseIs(s + t, first, head + (chunks + (rest + t)), line, hs, chunks + (rest + t), Parse(s).value.0.body, false,
            "");
  }

  lemma SwallowedBody(s: string, hs: seq<Header>, data: string, rest: string)
    requires HasChunked(hs) && ParseChunks(s) == Got(data, rest) && SkipTrailers(rest) == (false, "")
    ensures ParseBody(s, hs) == Got((Some(data), false), "")
  {
  }

  lemma RegroupFour(a: string, b: string, c: string, d: string, t: string)
    ensures a + (b + (c + d)) + t == a + (b + (c + (d + t)))
  {
  }
}
