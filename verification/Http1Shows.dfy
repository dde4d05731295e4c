/**
 * What a request is read as, part by part (internal/capture/capture.go): the
 * message's own words, and which lines are no request line and no header line.
 */
module Http1Shows {
  import opened Basics
  import opened Http1
  import opened Http1Framing
  import opened Http1Wire
  import opened Lists

  // ---- a message as written ----

  /** "Host" in any casing. */
  predicate IsHost(name: string) {
    |name| == 4 && name[0] in "hH" && name[1] in "oO" && name[2] in "sS" && name[3] in "tT"
  }

  /** The value of the first Host header, and "" where there is none. */
  ghost predicate IsAuthority(hs: seq<Header>, authority: string) {
    && ((forall i :: 0 <= i < |hs| ==> !IsHost(hs[i].name)) ==> authority == "")
    && (forall i :: 0 <= i < |hs| && IsHost(hs[i].name) && (forall j :: 0 <= j < i ==> !IsHost(hs[j].name)) ==>
          authority == hs[i].value)
  }

  function DataParts(chunks: seq<Chunk>): seq<string> {
    seq(|chunks|, i requires 0 <= i < |chunks| => chunks[i].data)
  }

  ghost predicate BodyShows(f: Framing, body: Option<string>) {
    match f
    case NoBody => body == None
    case Sized(data) => body == Some(data)
    case InChunks(chunks, _, _) => body.Some? && exists at :: Concatenates(DataParts(chunks), body.value, at)
  }

  /** The request is the message: its words, its header lines in order, its body, its framing. */
  ghost predicate Shows(m: Message, r: Request) {
    && r.httpMethod == m.httpMethod && r.target == m.target && r.proto == m.proto
    && |r.headers| == |m.lines|
    && (forall i :: 0 <= i < |m.lines| ==>
          r.headers[i].name == m.lines[i].name && r.headers[i].value == m.lines[i].value)
    && IsAuthority(r.headers, r.authority) && BodyShows(m.framing, r.body) && (r.chunked <==> m.framing.InChunks?)
  }

  lemma {:induction false} HeadersAreLines(lines: seq<Line>)
    ensures |HeadersOf(lines)| == |lines|
    ensures forall i :: 0 <= i < |lines| ==> HeadersOf(lines)[i] == Header(lines[i].name, lines[i].value)
  {
    if lines != [] { HeadersAreLines(lines[1..]); }
  }

  lemma HostFolds(name: string)
    ensures EqualFold(name, "Host") <==> IsHost(name)
  {
    assert Lower("Host") == "host";
    if |name| == 4 {
      assert Lower(name) == [LowerChar(name[0]), LowerChar(name[1]), LowerChar(name[2]), LowerChar(name[3])];
    }
  }

  lemma AuthorityIs(hs: seq<Header>)
    ensures IsAuthority(hs, FirstHeader(hs, "Host"))
  {
    forall h: Header
      ensures EqualFold(h.name, "Host") <==> IsHost(h.name)
    {
      HostFolds(h.name);
    }
    forall i | 0 <= i < |hs| && IsHost(hs[i].name) && forall j :: 0 <= j < i ==> !IsHost(hs[j].name)
      ensures FirstHeader(hs, "Host") == hs[i].value
    {
      AuthorityIsFirstHost(hs, "Host", i);
    }
    AuthorityIsFirstHost(hs, "Host", 0);
  }

  lemma {:induction false} DataInOrder(chunks: seq<Chunk>) returns (at: seq<nat>)
    ensures Concatenates(DataParts(chunks), DataOf(chunks), at)
  {
    at := [];
    if chunks != [] {
      at := DataInOrder(chunks[1..]);
      ConcatenatesNext(chunks[0].data, DataParts(chunks[1..]), DataOf(chunks[1..]), at);
      assert DataParts(chunks) == [chunks[0].data] + DataParts(chunks[1..]);
      at := [0] + Shifted(at, |chunks[0].data|);
    }
  }

  lemma MeaningShows(m: Message)
    requires WellFormed(m)
    ensures Shows(m, Meaning(m))
  {
    HeadersAreLines(m.lines);
    AuthorityIs(HeadersOf(m.lines));
    if m.framing.InChunks? {
      var at := DataInOrder(m.framing.chunks);
    }
  }

  /** Any well-formed message, with anything behind it, is read as what it says. */
  lemma MessageIsRead(m: Message, t: string)
    requires WellFormed(m)
    ensures Parse(Print(m) + t).Got? && Parse(Print(m) + t).rest == t && Shows(m, Parse(Print(m) + t).value.0)
  {
    MessageParses(m, t);
    MeaningShows(m);
  }

  /** The first requests are the messages, one for one. */
  ghost predicate AllShow(ms: seq<Message>, reqs: seq<Request>) {
    |ms| <= |reqs| && forall i :: 0 <= i < |ms| ==> Shows(ms[i], reqs[i])
  }

  lemma ShowNext(m: Message, r: Request, ms: seq<Message>, reqs: seq<Request>)
    requires Shows(m, r) && AllShow(ms, reqs)
    ensures AllShow([m] + ms, [r] + reqs)
  {
  }

  lemma {:induction false} MeaningsShow(ms: seq<Message>, more: seq<Request>)
    requires AllWellFormed(ms)
    ensures AllShow(ms, Meanings(ms) + more)
  {
    if ms != [] {
      MeaningShows(ms[0]);
      MeaningsShow(ms[1..], more);
      ShowNext(ms[0], Meaning(ms[0]), ms[1..], Meanings(ms[1..]) + more);
      assert ms == [ms[0]] + ms[1..];
      Associate([Meaning(ms[0])], Meanings(ms[1..]), more);
    }
  }

  /** Looping the reader over a pipeline gives its messages in order, and then what follows. */
  lemma PipelineIsRead(ms: seq<Message>, t: string)
    requires AllWellFormed(ms)
    ensures AllShow(ms, Requests(PrintAll(ms) + t))
    ensures Requests(PrintAll(ms) + t)[|ms|..] == Requests(t)
  {
    PipelineParses(ms, t);
    MeaningsShow(ms, Requests(t));
    MeaningsCount(ms);
  }

  lemma {:induction false} MeaningsCount(ms: seq<Message>)
    ensures |Meanings(ms)| == |ms|
  {
    if ms != [] { MeaningsCount(ms[1..]); }
  }

  // ---- lines of any text ----

  /** `s` cut at its first `sep`. */
  lemma {:induction false} CutMeans(s: string, sep: char)
    ensures Cut(s, sep).None? <==> sep !in s
    ensures Cut(s, sep).Some? ==>
              var (before, after) := Cut(s, sep).value; sep !in before && s == before + [sep] + after
  {
    if s != "" && s[0] != sep {
      CutMeans(s[1..], sep);
      assert s == [s[0]] + s[1..];
    }
  }

  /** A request line is method, target and the rest, separated by the first two blanks; without two it is none. */
  ghost predicate IsRequestLine(line: string, words: (string, string, string)) {
    ' ' !in words.0 && ' ' !in words.1 && line == words.0 + " " + words.1 + " " + words.2
  }

  lemma RequestLineMeans(line: string)
    ensures ParseRequestLine(line).Some? ==> IsRequestLine(line, ParseRequestLine(line).value)
    ensures ParseRequestLine(line).None? ==> forall words :: !IsRequestLine(line, words)
  {
    CutMeans(line, ' ');
    if Cut(line, ' ').Some? {
      var (first, more) := Cut(line, ' ').value;
      CutMeans(more, ' ');
      if Cut(more, ' ').None? {
        forall words
          ensures !IsRequestLine(line, words)
        {
          OneBlank(line, first, more, words);
        }
      }
    }
  }

  lemma TwoBlanks(line: string, words: (string, string, string))
    requires IsRequestLine(line, words)
    ensures var i, j := |words.0|, |words.0| + 1 + |words.1|; i < j < |line| && line[i] == ' ' && line[j] == ' '
  {
  }

  lemma OnlyBlank(first: string, more: string, i: nat)
    requires ' ' !in first && ' ' !in more && i < |first + " " + more| && (first + " " + more)[i] == ' '
    ensures i == |first|
  {
  }

  lemma OneBlank(line: string, first: string, more: string, words: (string, string, string))
    requires line == first + " " + more && ' ' !in first && ' ' !in more
    ensures !IsRequestLine(line, words)
  {
    if IsRequestLine(line, words) {
      TwoBlanks(line, words);
      OnlyBlank(first, more, |words.0|);
      OnlyBlank(first, more, |words.0| + 1 + |words.1|);
      assert false;
    }
  }

  /** A header line is a name, the first colon, blanks and the value; without a colon it is none. */
  lemma HeaderLineMeans(text: string)
    ensures ParseHeader(text).None? <==> ':' !in text
    ensures ParseHeader(text).Some? ==> IsHeaderLine(text, ParseHeader(text).value)
  {
    CutMeans(text, ':');
    if Cut(text, ':').Some? {
      TrimStartMeans(Cut(text, ':').value.1, BLANK);
    }
  }

  ghost predicate IsHeaderLine(text: string, h: Header) {
    && ':' !in h.name && (h.value != "" ==> h.value[0] !in " \t")
    && exists pad :: text == h.name + ":" + (pad + h.value) && forall c :: c in pad ==> c in " \t"
  }

  lemma {:induction false} TrimStartMeans(s: string, cutset: string)
    ensures var value := TrimStart(s, cutset);
            && (value != "" ==> value[0] !in cutset)
            && exists pad :: s == pad + value && forall c :: c in pad ==> c in cutset
  {
    if s != "" && s[0] in cutset {
      TrimStartMeans(s[1..], cutset);
      var value := TrimStart(s, cutset);
      var pad :| s[1..] == pad + value && forall c :: c in pad ==> c in cutset;
      assert s == ([s[0]] + pad) + value;
      assert forall c :: c in [s[0]] + pad ==> c in cutset;
    } else {
      assert s == "" + TrimStart(s, cutset);
    }
  }

  predicate AllDigits(ds: string) {
    ds != "" && forall c :: c in ds ==> '0' <= c <= '9'
  }

  /** `s` spells `v`: digits, a sign in front of them or not. */
  ghost predicate SpellsInt(s: string, v: int) {
    || (AllDigits(s) && NumberOf(s) == v)
    || (s != "" && s[0] == '+' && AllDigits(s[1..]) && NumberOf(s[1..]) == v)
    || (s != "" && s[0] == '-' && AllDigits(s[1..]) && NumberOf(s[1..]) == -v)
  }

  /** A count is read exactly where one is spelled that fits 64 bits. */
  lemma AtoiMeans(s: string, v: int)
    ensures Atoi(s) == Some(v) <==> SpellsInt(s, v) && -0x8000_0000_0000_0000 <= v <= 0x7fff_ffff_ffff_ffff
  {
    var signed := s != "" && (s[0] == '+' || s[0] == '-');
    var ds := if signed then s[1..] else s;
    assert AllDigits(ds) <==> ds != "" && !exists c :: c in ds && !IsDigit(c);
    if signed {
      assert s[0] in s;
      assert !AllDigits(s) && (SpellsInt(s, v) <==> AllDigits(ds) && NumberOf(ds) == if s[0] == '-' then -v else v);
    } else {
      assert SpellsInt(s, v) <==> AllDigits(ds) && NumberOf(ds) == v;
    }
  }

  /** Chunk sizes are hexadecimal, in either case. */
  lemma HexDigitMeans(c: char)
    ensures HexDigit(c) == if '0' <= c <= '9' then Some(c as int - 48)
                           else if c in "abcdef" then Some(c as int - 87)
                           else if c in "ABCDEF" then Some(c as int - 55)
                           else None
  {
  }

  lemma HexExample(s: string)
    requires |s| == 3 && s[0] == '1' && s[1] == 'a' && s[2] == 'F'
    ensures ParseHex(s) == Some(431)
  {
    HexDigitMeans('1');
    HexDigitMeans('a');
    HexDigitMeans('F');
    assert s[..2][..1][..0] == "" && s[..2][..1][0] == '1' && s[..2][1] == 'a';
    assert HexValue(s[..2][..1]) == Some(1);
    assert HexValue(s[..2]) == Some(26);
  }

  /** The first line, its newline the only one. */
  lemma {:induction false} CutLineMeans(s: string)
    ensures CutLine(s).None? <==> '\n' !in s
    ensures CutLine(s).Some? ==>
              var (line, rest) := CutLine(s).value;
              s == line + rest && line != "" && line[|line| - 1] == '\n' && '\n' !in line[..|line| - 1]
  {
    if s != "" && s[0] != '\n' {
      CutLineMeans(s[1..]);
      assert s == [s[0]] + s[1..];
      if CutLine(s[1..]).Some? {
        var (line, rest) := CutLine(s[1..]).value;
        assert ([s[0]] + line)[..|line|] == [s[0]] + line[..|line| - 1];
      }
    }
  }

  lemma {:induction false} TrimEndMeans(s: string, cutset: string) returns (pad: string)
    ensures var text := TrimEnd(s, cutset);
            s == text + pad && (forall c :: c in pad ==> c in cutset) && (text != "" ==> text[|text| - 1] !in cutset)
  {
    pad := "";
    if s != "" && s[|s| - 1] in cutset {
      pad := TrimEndMeans(s[..|s| - 1], cutset);
      assert s == s[..|s| - 1] + [s[|s| - 1]];
      pad := pad + [s[|s| - 1]];
    } else {
      assert s == s + "";
    }
  }

  /** The text begins with the request's own words, blanks between them, and the line's end. */
  ghost predicate BeginsWith(s: string, r: Request) {
    && ' ' !in r.httpMethod && ' ' !in r.target
    && exists end, rest :: s == (r.httpMethod + " " + r.target + " " + r.proto) + end + rest && IsLineEnd(end)
  }

  predicate IsLineEnd(end: string) {
    end != "" && end[|end| - 1] == '\n' && forall c :: c in end ==> c in "\r\n"
  }

  /** Whatever the text, a request that is read stands at its beginning. */
  lemma RequestIsAhead(s: string)
    requires Parse(s).Got?
    ensures BeginsWith(s, Parse(s).value.0)
  {
    var (line, rest) := CutLine(s).value;
    CutLineMeans(s);
    var end := TrimEndMeans(line, BREAK);
    var text := TrimEnd(line, BREAK);
    RequestLineMeans(text);
    LineEnds(line, text, end);
    assert s == text + end + rest;
  }

  lemma LineEnds(line: string, text: string, end: string)
    requires line == text + end && line != "" && line[|line| - 1] == '\n'
    requires (forall c :: c in end ==> c in BREAK) && (text != "" ==> text[|text| - 1] !in BREAK)
    ensures IsLineEnd(end)
  {
    assert line[|line| - 1] in BREAK;
  }
}
