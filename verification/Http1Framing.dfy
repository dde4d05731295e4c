/**
 * What decides a request's framing and authority (internal/capture/capture.go),
 * and that the plain way of writing each framing is well formed.
 */
module Http1Framing {
  import opened Basics
  import opened Http1
  import opened Http1Wire

  // ---- which header counts ----

  ghost predicate FirstNamed(hs: seq<Header>, name: string, i: nat) {
    i < |hs| && EqualFold(hs[i].name, name) && forall j :: 0 <= j < i ==> !EqualFold(hs[j].name, name)
  }

  lemma FirstNamedTail(hs: seq<Header>, name: string, i: nat)
    requires FirstNamed(hs, name, i) && i > 0
    ensures FirstNamed(hs[1..], name, i - 1) && !EqualFold(hs[0].name, name)
  {
    assert forall j :: 0 <= j < i - 1 ==> hs[1..][j] == hs[j + 1];
  }

  /** The authority is the value of the first Host header, whatever its casing, or empty. */
  lemma {:induction false} AuthorityIsFirstHost(hs: seq<Header>, name: string, i: nat)
    ensures FirstNamed(hs, name, i) ==> FirstHeader(hs, name) == hs[i].value
    ensures (forall h :: h in hs ==> !EqualFold(h.name, name)) ==> FirstHeader(hs, name) == ""
  {
    if hs != [] {
      AuthorityIsFirstHost(hs[1..], name, if i > 0 then i - 1 else 0);
      if i > 0 && FirstNamed(hs, name, i) { FirstNamedTail(hs, name, i); }
    }
  }

  /** A request is chunked exactly when some Transfer-Encoding header mentions it. */
  lemma {:induction false} ChunkedWhenMentioned(hs: seq<Header>)
    ensures HasChunked(hs) <==> exists h :: h in hs && IsChunked(h)
  {
    if hs != [] {
      ChunkedWhenMentioned(hs[1..]);
      assert forall h :: h in hs <==> h == hs[0] || h in hs[1..];
    }
  }

  ghost predicate Occurs(s: string, word: string, i: nat) {
    i + |word| <= |s| && s[i..i + |word|] == word
  }

  lemma {:induction false} ContainsWhenOccurs(s: string, word: string)
    ensures Contains(s, word) <==> exists i: nat :: Occurs(s, word, i)
  {
    if HasPrefix(s, word) {
      assert Occurs(s, word, 0);
    } else if s != "" {
      ContainsWhenOccurs(s[1..], word);
      forall i: nat | Occurs(s, word, i)
        ensures i > 0 && Occurs(s[1..], word, i - 1)
      {
        assert i > 0;
        assert s[1..][i - 1..i - 1 + |word|] == s[i..i + |word|];
      }
      forall i: nat | Occurs(s[1..], word, i)
        ensures Occurs(s, word, i + 1)
      {
        assert s[i + 1..i + 1 + |word|] == s[1..][i..i + |word|];
      }
    }
  }

  // ---- Content-Length ----

  lemma AtoiOfDecimal(n: nat)
    requires n <= 0x7fff_ffff_ffff_ffff
    ensures Atoi(Decimal(n)) == Some(n)
  {
    NumberOfDecimal(n);
    assert Decimal(n)[0] in Decimal(n);
  }

  /** The first Content-Length header alone decides. */
  lemma {:induction false} FirstLengthDecides(hs: seq<Header>, i: nat)
    requires FirstNamed(hs, "Content-Length", i)
    ensures ContentLength(hs) == ContentLength([hs[i]])
  {
    if i > 0 {
      FirstNamedTail(hs, "Content-Length", i);
      FirstLengthDecides(hs[1..], i - 1);
    }
  }

  /** A length written in decimal, with any blanks around it, is read as that number. */
  lemma LengthIsRead(h: Header, before: string, n: nat, after: string)
    requires EqualFold(h.name, "Content-Length") && h.value == before + (Decimal(n) + after)
    requires (forall c :: c in before ==> c in ANYSPACE) && (forall c :: c in after ==> c in ANYSPACE)
    requires n <= 0x7fff_ffff_ffff_ffff
    ensures ContentLength([h]) == Some(n)
  {
    var ds := Decimal(n);
    assert ds[0] in ds && ds[|ds| - 1] in ds;
    DigitsAreNotSpace(ds[0]);
    DigitsAreNotSpace(ds[|ds| - 1]);
    TrimStartAll(before, ds + after, ANYSPACE);
    TrimEndAll(ds, after, ANYSPACE);
    AtoiOfDecimal(n);
  }

  lemma DigitsAreNotSpace(c: char)
    requires IsDigit(c)
    ensures c !in ANYSPACE
  {
  }

  /** Any body behind its own length in decimal is well framed, whatever later Content-Length headers say. */
  lemma SizedIsGood(hs: seq<Header>, i: nat, before: string, body: string, after: string)
    requires FirstNamed(hs, "Content-Length", i) && hs[i].value == before + (Decimal(|body|) + after)
    requires (forall c :: c in before ==> c in ANYSPACE) && (forall c :: c in after ==> c in ANYSPACE)
    requires body != "" && |body| <= 0x7fff_ffff_ffff_ffff && forall h :: h in hs ==> !IsChunked(h)
    ensures GoodFraming(hs, Sized(body))
  {
    FirstLengthDecides(hs, i);
    LengthIsRead(hs[i], before, |body|, after);
    ChunkedWhenMentioned(hs);
  }

  // ---- chunks ----

  function Hex(n: nat): string {
    if n < 16 then [HexChar(n)] else Hex(n / 16) + [HexChar(n % 16)]
  }

  lemma {:induction false} HexIsRead(n: nat)
    ensures HexValue(Hex(n)) == Some(n) && Hex(n) != ""
  {
    var s := Hex(n);
    if n < 16 {
      assert s[..0] == "";
    } else {
      HexIsRead(n / 16);
      assert s[..|s| - 1] == Hex(n / 16);
    }
  }

  function PlainChunks(parts: seq<string>): seq<Chunk> {
    if parts == [] then [] else [Chunk(Hex(|parts[0]|), "", parts[0])] + PlainChunks(parts[1..])
  }

  function Joined(parts: seq<string>): string {
    if parts == [] then "" else parts[0] + Joined(parts[1..])
  }

  /** Non-empty parts whose sizes take at most 16 hex digits. */
  predicate Parts(parts: seq<string>) {
    parts == [] || (parts[0] != "" && |Hex(|parts[0]|)| <= 16 && Parts(parts[1..]))
  }

  lemma {:induction false} PlainChunksAreGood(parts: seq<string>)
    requires Parts(parts)
    ensures GoodChunks(PlainChunks(parts)) && DataOf(PlainChunks(parts)) == Joined(parts)
  {
    if parts != [] {
      HexIsRead(|parts[0]|);
      PlainChunksAreGood(parts[1..]);
    }
  }

  const LAST := Chunk("0", "", "")

  lemma LastIsGood()
    ensures GoodChunk(LAST)
  {
    assert "0"[..0] == "";
  }

  /**
   * For any body, any split of it into non-empty chunks and any trailer lines, a
   * chunked request gives back the body and leaves the reader at the next request,
   * no matter what its Content-Length headers say.
   */
  lemma AnySplitIsRead(hs: seq<Header>, parts: seq<string>, trailers: seq<string>, t: string)
    requires Parts(parts) && GoodTrailers(trailers) && exists h :: h in hs && IsChunked(h)
    ensures ParseBody(PrintChunks(PlainChunks(parts), LAST) + PrintTrailers(trailers) + t, hs)
            == Got((Some(Joined(parts)), true), t)
  {
    ChunkedWhenMentioned(hs);
    PlainChunksAreGood(parts);
    LastIsGood();
    ChunkedParses(hs, PlainChunks(parts), LAST, trailers, t);
  }
}
