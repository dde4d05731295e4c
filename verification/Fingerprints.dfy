/**
 * JA3 and JA4 (internal/upstream/fingerprint_test.go): canonical forms of a
 * ClientHello. The hash functions are parameters; what is proved is about the
 * strings they are given.
 */
module Fingerprints {
  import opened Basics
  import opened ClientHello

  type Hash = string -> string

  // ---- GREASE (section 2 of RFC 8701) ----

  predicate IsGrease(v: U16) {
    v / 0x100 == v % 0x100 && v % 0x10 == 0x0a
  }

  function Plain(vs: seq<U16>): seq<U16> {
    if vs == [] then [] else (if IsGrease(vs[0]) then [] else [vs[0]]) + Plain(vs[1..])
  }

  lemma {:induction false} PlainAppend(a: seq<U16>, b: seq<U16>)
    ensures Plain(a + b) == Plain(a) + Plain(b)
  {
    if a == [] {
      assert a + b == b;
    } else {
      assert (a + b)[1..] == a[1..] + b;
      PlainAppend(a[1..], b);
    }
  }

  /** `filterGREASE`. */
  method FilterGrease(vs: seq<U16>) returns (out: seq<U16>)
    ensures out == Plain(vs)
  {
    out := [];
    for i := 0 to |vs|
      invariant out == Plain(vs[..i])
    {
      assert vs[..i + 1] == vs[..i] + [vs[i]] && [vs[i]][1..] == [];
      PlainAppend(vs[..i], [vs[i]]);
      if !IsGrease(vs[i]) {
        out := out + [vs[i]];
      }
    }
    assert vs[..|vs|] == vs;
  }

  /** Inserting or removing a GREASE value anywhere is invisible. */
  lemma GreaseIsInvisible(a: seq<U16>, g: U16, b: seq<U16>)
    requires IsGrease(g)
    ensures Plain(a + [g] + b) == Plain(a + b)
  {
    PlainAppend(a + [g], b);
    PlainAppend(a, [g]);
    PlainAppend(a, b);
    assert [g][1..] == [];
  }

  lemma GreaseAt(k: int)
    requires 0 <= k < 16
    ensures IsGrease(0x0a0a + 0x1010 * k)
  {
    var b := 0x0a + 0x10 * k;
    assert 0x0a0a + 0x1010 * k == 0x100 * b + b;
  }

  lemma GreaseIs(v: U16) returns (k: nat)
    requires IsGrease(v)
    ensures k < 16 && v == 0x0a0a + 0x1010 * k
  {
    var b := v / 0x100;
    assert v == 0x100 * b + b;
    assert b % 0x10 == 0x0a by {
      assert v == 0x10 * (0x10 * b + b / 0x10) + b % 0x10;
    }
    k := b / 0x10;
    assert b == 0x10 * k + 0x0a;
  }

  /** The GREASE values are the sixteen of the standard. */
  lemma GreaseValues(v: U16)
    ensures IsGrease(v) <==> exists k :: 0 <= k < 16 && v == 0x0a0a + 0x1010 * k
  {
    if IsGrease(v) {
      var k := GreaseIs(v);
    } else {
      forall k | 0 <= k < 16
        ensures v != 0x0a0a + 0x1010 * k
      {
        GreaseAt(k);
      }
    }
  }

  // ---- sorting ----

  predicate IsSorted(s: seq<U16>) {
    |s| < 2 || (s[0] <= s[1] && IsSorted(s[1..]))
  }

  function Insert(x: U16, s: seq<U16>): (r: seq<U16>)
    requires IsSorted(s)
    ensures IsSorted(r) && |r| == |s| + 1
    ensures r[0] == if s == [] || x <= s[0] then x else s[0]
  {
    if s == [] || x <= s[0] then [x] + s
    else
      var rest := Insert(x, s[1..]);
      assert ([s[0]] + rest)[1..] == rest;
      [s[0]] + rest
  }

  lemma {:induction false} InsertContents(x: U16, s: seq<U16>)
    requires IsSorted(s)
    ensures multiset(Insert(x, s)) == multiset(s) + multiset{x}
  {
    if s != [] && x > s[0] {
      InsertContents(x, s[1..]);
      assert s == [s[0]] + s[1..];
    }
  }

  /** `slices.Sort`, up to its result. */
  function Sort(s: seq<U16>): (r: seq<U16>)
    ensures IsSorted(r)
  {
    if s == [] then [] else Insert(s[0], Sort(s[1..]))
  }

  lemma {:induction false} SortContents(s: seq<U16>)
    ensures multiset(Sort(s)) == multiset(s)
  {
    if s != [] {
      SortContents(s[1..]);
      InsertContents(s[0], Sort(s[1..]));
      assert s == [s[0]] + s[1..];
    }
  }

  lemma {:induction false} HeadIsLeast(s: seq<U16>, y: U16)
    requires IsSorted(s) && y in s
    ensures s[0] <= y
  {
    if s[0] != y {
      assert s == [s[0]] + s[1..];
      HeadIsLeast(s[1..], y);
    }
  }

  lemma TailContents(s: seq<U16>)
    requires s != []
    ensures multiset(s[1..]) == multiset(s) - multiset{s[0]} && s[0] in multiset(s)
  {
    assert s == [s[0]] + s[1..];
  }

  lemma SameHead(a: seq<U16>, b: seq<U16>)
    requires IsSorted(a) && IsSorted(b) && multiset(a) == multiset(b) && a != [] && b != []
    ensures a[0] == b[0]
  {
    TailContents(a);
    TailContents(b);
    HeadIsLeast(a, b[0]);
    HeadIsLeast(b, a[0]);
  }

  /** A sorted list is determined by what it contains. */
  lemma {:induction false} SortedIsUnique(a: seq<U16>, b: seq<U16>)
    requires IsSorted(a) && IsSorted(b) && multiset(a) == multiset(b)
    ensures a == b
  {
    assert |multiset(a)| == |a| && |multiset(b)| == |b|;
    if a != [] {
      SameHead(a, b);
      TailContents(a);
      TailContents(b);
      SortedIsUnique(a[1..], b[1..]);
      assert a == [a[0]] + a[1..] && b == [b[0]] + b[1..];
    }
  }

  /** Sorting forgets exactly the order. */
  lemma SameSorted(a: seq<U16>, b: seq<U16>)
    ensures Sort(a) == Sort(b) <==> multiset(a) == multiset(b)
  {
    SortContents(a);
    SortContents(b);
    if multiset(a) == multiset(b) { SortedIsUnique(Sort(a), Sort(b)); }
  }

  // ---- joining ----

  lemma NotLonger(a: string, c: char, b: string, a': string, b': string)
    requires a + ([c] + b) == a' + ([c] + b') && c !in a'
    ensures |a'| <= |a|
  {
    var s, s' := a + ([c] + b), a' + ([c] + b');
    assert s[|a|] == c;
    assert forall i :: 0 <= i < |a'| ==> s'[i] == a'[i];
  }

  /** Where both sides are free of the separator, its first occurrence splits them alike. */
  lemma SplitAlike(a: string, c: char, b: string, a': string, b': string)
    requires a + ([c] + b) == a' + ([c] + b') && c !in a && c !in a'
    ensures a == a' && b == b'
  {
    NotLonger(a, c, b, a', b');
    NotLonger(a', c, b', a, b);
    var s, s' := a + ([c] + b), a' + ([c] + b');
    assert s[..|a|] == a && s'[..|a'|] == a' && s[|a| + 1..] == b && s'[|a'| + 1..] == b';
  }

  predicate Free(parts: seq<string>, sep: char) {
    parts == [] || (parts[0] != "" && sep !in parts[0] && Free(parts[1..], sep))
  }

  lemma JoinShape(parts: seq<string>, sep: char)
    requires Free(parts, sep)
    ensures Join(parts, [sep]) == "" <==> parts == []
    ensures sep in Join(parts, [sep]) <==> |parts| > 1
  {
  }

  lemma {:induction false} JoinIsInjective(a: seq<string>, b: seq<string>, sep: char)
    requires Free(a, sep) && Free(b, sep) && Join(a, [sep]) == Join(b, [sep])
    ensures a == b
  {
    JoinShape(a, sep);
    JoinShape(b, sep);
    if |a| > 1 {
      SplitAlike(a[0], sep, Join(a[1..], [sep]), b[0], Join(b[1..], [sep]));
      JoinIsInjective(a[1..], b[1..], sep);
      assert a == [a[0]] + a[1..] && b == [b[0]] + b[1..];
    }
  }

  // ---- hexadecimal ----

  /** `%04x`. */
  function Hex4(v: U16): string {
    [HexChar(v / 0x1000), HexChar(v / 0x100 % 0x10), HexChar(v / 0x10 % 0x10), HexChar(v % 0x10)]
  }

  lemma HexCharIsInjective(d: int, e: int)
    requires 0 <= d < 16 && 0 <= e < 16 && HexChar(d) == HexChar(e)
    ensures d == e
  {
  }

  lemma Hex4IsInjective(v: U16, w: U16)
    requires Hex4(v) == Hex4(w)
    ensures v == w
  {
    var a, b := Hex4(v), Hex4(w);
    assert a[0] == b[0] && a[1] == b[1] && a[2] == b[2] && a[3] == b[3];
    HexCharIsInjective(v / 0x1000, w / 0x1000);
    HexCharIsInjective(v / 0x100 % 0x10, w / 0x100 % 0x10);
    HexCharIsInjective(v / 0x10 % 0x10, w / 0x10 % 0x10);
    HexCharIsInjective(v % 0x10, w % 0x10);
    FourDigits(v);
    FourDigits(w);
  }

  lemma FourDigits(v: U16)
    ensures v == v / 0x1000 * 0x1000 + v / 0x100 % 0x10 * 0x100 + v / 0x10 % 0x10 * 0x10 + v % 0x10
  {
    assert v / 0x10 / 0x10 == v / 0x100 && v / 0x100 / 0x10 == v / 0x1000;
  }

  function Texts(vs: seq<U16>, text: U16 -> string): seq<string> {
    if vs == [] then [] else [text(vs[0])] + Texts(vs[1..], text)
  }

  /** `hexJoinU16`. */
  function HexJoin(vs: seq<U16>): string {
    Join(Texts(vs, Hex4), [','])
  }

  /** A way of writing numbers that tells them apart and never uses the separator. */
  ghost predicate Writes(text: U16 -> string, sep: char) {
    && (forall v: U16 :: text(v) != "" && sep !in text(v))
    && (forall v: U16, w: U16 :: text(v) == text(w) ==> v == w)
  }

  lemma {:induction false} TextsAreFree(vs: seq<U16>, text: U16 -> string, sep: char)
    requires Writes(text, sep)
    ensures Free(Texts(vs, text), sep)
  {
    if vs != [] { TextsAreFree(vs[1..], text, sep); }
  }

  lemma {:induction false} TextsAreInjective(a: seq<U16>, b: seq<U16>, text: U16 -> string, sep: char)
    requires Writes(text, sep) && Texts(a, text) == Texts(b, text)
    ensures a == b
  {
    if a != [] && b != [] {
      assert Texts(a, text)[0] == Texts(b, text)[0];
      assert Texts(a, text)[1..] == Texts(a[1..], text) && Texts(b, text)[1..] == Texts(b[1..], text);
      TextsAreInjective(a[1..], b[1..], text, sep);
      assert a == [a[0]] + a[1..] && b == [b[0]] + b[1..];
    }
  }

  /** Joined lists of numbers are equal exactly when the lists are. */
  lemma JoinedAlike(a: seq<U16>, b: seq<U16>, text: U16 -> string, sep: char)
    requires Writes(text, sep)
    ensures Join(Texts(a, text), [sep]) == Join(Texts(b, text), [sep]) <==> a == b
  {
    if Join(Texts(a, text), [sep]) == Join(Texts(b, text), [sep]) {
      TextsAreFree(a, text, sep);
      TextsAreFree(b, text, sep);
      JoinIsInjective(Texts(a, text), Texts(b, text), sep);
      TextsAreInjective(a, b, text, sep);
    }
  }

  lemma HexWrites()
    ensures Writes(Hex4, ',')
  {
    forall v: U16, w: U16 | Hex4(v) == Hex4(w)
      ensures v == w
    {
      Hex4IsInjective(v, w);
    }
  }

  lemma HexJoinAlike(a: seq<U16>, b: seq<U16>)
    ensures HexJoin(a) == HexJoin(b) <==> a == b
  {
    HexWrites();
    JoinedAlike(a, b, Hex4, ',');
  }

  // ---- JA4 ----

  /** JA4 hashes every extension but SNI and ALPN. */
  function Hashed(exts: seq<U16>): seq<U16> {
    if exts == [] then []
    else (if exts[0] == SERVER_NAME || exts[0] == ALPN then [] else [exts[0]]) + Hashed(exts[1..])
  }

  function Best(best: U16, versions: seq<U16>): U16
    decreases |versions|
  {
    if versions == [] then best
    else Best(if !IsGrease(versions[0]) && versions[0] > best then versions[0] else best, versions[1..])
  }

  function VersionText(best: U16): string {
    if best == 0x0304 then "13"
    else if best == 0x0303 then "12"
    else if best == 0x0302 then "11"
    else if best == 0x0301 then "10"
    else "00"
  }

  /** `count2`: two digits, at most 99. */
  function Count2(n: nat): string {
    var m := if n > 99 then 99 else n;
    [Digit(m / 10), Digit(m % 10)]
  }

  function AlpnChars(alpn: seq<Bytes>): string {
    if alpn == [] || alpn[0] == [] then "00" else [alpn[0][0] as char, alpn[0][|alpn[0]| - 1] as char]
  }

  function Ja4A(h: Hello): string {
    "t" + VersionText(Best(h.legacyVersion, h.supportedVers)) + (if h.hasSni then "d" else "i")
    + Count2(|Plain(h.cipherSuites)|) + Count2(|Plain(h.extensions)|) + AlpnChars(h.alpn)
  }

  /** What JA4_b hashes. */
  function CipherText(h: Hello): string {
    HexJoin(Sort(Plain(h.cipherSuites)))
  }

  /** What JA4_c hashes: extensions sorted, signature algorithms in wire order where there are any. */
  function ExtensionText(h: Hello): string {
    var sig := Plain(h.sigAlgs);
    HexJoin(Sort(Hashed(Plain(h.extensions)))) + if |sig| > 0 then "_" + HexJoin(sig) else ""
  }

  /** `hash12`, with the first twelve hex digits of the hash as a parameter. */
  function Hash12(sha: Hash, s: string): string {
    if s == "" then "000000000000" else sha(s)
  }

  function Ja4(h: Hello, sha: Hash): string {
    Ja4A(h) + "_" + Hash12(sha, CipherText(h)) + "_" + Hash12(sha, ExtensionText(h))
  }

  /** `ja4Version`: a loop keeping the best version seen. */
  method Ja4Version(h: Hello) returns (text: string)
    ensures text == VersionText(Best(h.legacyVersion, h.supportedVers))
  {
    var best := h.legacyVersion;
    for i := 0 to |h.supportedVers|
      invariant Best(h.legacyVersion, h.supportedVers) == Best(best, h.supportedVers[i..])
    {
      var v := h.supportedVers[i];
      assert h.supportedVers[i..][1..] == h.supportedVers[i + 1..];
      if !IsGrease(v) && v > best {
        best := v;
      }
    }
    text := VersionText(best);
  }

  /** The loop of `ja4` that leaves SNI and ALPN out. */
  method ExtensionsForHash(exts: seq<U16>) returns (out: seq<U16>)
    ensures out == Hashed(exts)
  {
    out := [];
    for i := 0 to |exts|
      invariant out == Hashed(exts[..i])
    {
      assert exts[..i + 1] == exts[..i] + [exts[i]] && [exts[i]][1..] == [];
      HashedAppend(exts[..i], [exts[i]]);
      if exts[i] != SERVER_NAME && exts[i] != ALPN {
        out := out + [exts[i]];
      }
    }
    assert exts[..|exts|] == exts;
  }

  // ---- what JA4 forgets ----

  /** The JA4 version is the largest of the legacy version and the offered versions that are not GREASE. */
  lemma {:induction false} BestIsLargest(best: U16, versions: seq<U16>)
    ensures Best(best, versions) == best || (Best(best, versions) in versions && !IsGrease(Best(best, versions)))
    ensures Best(best, versions) >= best
    ensures forall v :: v in versions && !IsGrease(v) ==> v <= Best(best, versions)
    decreases |versions|
  {
    if versions != [] {
      var next := if !IsGrease(versions[0]) && versions[0] > best then versions[0] else best;
      BestIsLargest(next, versions[1..]);
      assert forall v :: v in versions <==> v == versions[0] || v in versions[1..];
    }
  }

  ghost predicate SameVersions(a: seq<U16>, b: seq<U16>) {
    forall v :: !IsGrease(v) ==> (v in a <==> v in b)
  }

  lemma SameBest(best: U16, a: seq<U16>, b: seq<U16>)
    requires SameVersions(a, b)
    ensures Best(best, a) == Best(best, b)
  {
    BestIsLargest(best, a);
    BestIsLargest(best, b);
  }

  lemma {:induction false} HashedAppend(a: seq<U16>, b: seq<U16>)
    ensures Hashed(a + b) == Hashed(a) + Hashed(b)
  {
    if a == [] {
      assert a + b == b;
    } else {
      assert (a + b)[1..] == a[1..] + b;
      HashedAppend(a[1..], b);
    }
  }

  /** How often a value is left after SNI and ALPN are taken out. */
  lemma {:induction false} HashedCount(s: seq<U16>, v: U16)
    ensures multiset(Hashed(s))[v] == if v == SERVER_NAME || v == ALPN then 0 else multiset(s)[v]
  {
    if s != [] {
      HashedCount(s[1..], v);
      assert s == [s[0]] + s[1..];
    }
  }

  lemma HashedContents(a: seq<U16>, b: seq<U16>)
    requires multiset(a) == multiset(b)
    ensures multiset(Hashed(a)) == multiset(Hashed(b))
  {
    forall v: U16
      ensures multiset(Hashed(a))[v] == multiset(Hashed(b))[v]
    {
      HashedCount(a, v);
      HashedCount(b, v);
    }
    assert multiset(Hashed(a)) == multiset(Hashed(b));
  }

  /** Two hellos of the same client: everything JA4 is meant not to see may differ. */
  ghost predicate SameUpToOrderAndGrease(h: Hello, k: Hello) {
    && multiset(Plain(h.cipherSuites)) == multiset(Plain(k.cipherSuites))
    && multiset(Plain(h.extensions)) == multiset(Plain(k.extensions))
    && Plain(h.sigAlgs) == Plain(k.sigAlgs) && SameVersions(h.supportedVers, k.supportedVers)
    && h.legacyVersion == k.legacyVersion && h.alpn == k.alpn && h.hasSni == k.hasSni
  }

  lemma SameContentsSameLength(a: seq<U16>, b: seq<U16>)
    requires multiset(a) == multiset(b)
    ensures |a| == |b|
  {
    assert |multiset(a)| == |a| && |multiset(b)| == |b|;
  }

  /** JA4 sees neither the order of ciphers, extensions and versions nor any GREASE, whatever the hash. */
  lemma Ja4IsCanonical(h: Hello, k: Hello, sha: Hash)
    requires SameUpToOrderAndGrease(h, k)
    ensures Ja4(h, sha) == Ja4(k, sha)
  {
    SameBest(h.legacyVersion, h.supportedVers, k.supportedVers);
    SameContentsSameLength(Plain(h.cipherSuites), Plain(k.cipherSuites));
    SameContentsSameLength(Plain(h.extensions), Plain(k.extensions));
    SameSorted(Plain(h.cipherSuites), Plain(k.cipherSuites));
    HashedContents(Plain(h.extensions), Plain(k.extensions));
    SameSorted(Hashed(Plain(h.extensions)), Hashed(Plain(k.extensions)));
  }

  lemma {:induction false} PlainCount(s: seq<U16>, v: U16)
    ensures multiset(Plain(s))[v] == if IsGrease(v) then 0 else multiset(s)[v]
  {
    if s != [] {
      PlainCount(s[1..], v);
      assert s == [s[0]] + s[1..];
    }
  }

  /** Permuting a list permutes what is left of it without GREASE. */
  lemma PermutedPlain(a: seq<U16>, b: seq<U16>)
    requires multiset(a) == multiset(b)
    ensures multiset(Plain(a)) == multiset(Plain(b)) && SameVersions(a, b)
  {
    forall v: U16
      ensures multiset(Plain(a))[v] == multiset(Plain(b))[v]
      ensures v in a <==> v in b
    {
      PlainCount(a, v);
      PlainCount(b, v);
      assert v in a <==> v in multiset(a);
      assert v in b <==> v in multiset(b);
    }
    assert multiset(Plain(a)) == multiset(Plain(b));
  }

  /** Any permutation of cipher suites, extension types and supported versions leaves JA4 unchanged. */
  lemma Ja4SurvivesPermutation(h: Hello, ciphers: seq<U16>, exts: seq<U16>, versions: seq<U16>, sha: Hash)
    requires multiset(ciphers) == multiset(h.cipherSuites) && multiset(exts) == multiset(h.extensions)
    requires multiset(versions) == multiset(h.supportedVers)
    ensures Ja4(h.(cipherSuites := ciphers, extensions := exts, supportedVers := versions), sha) == Ja4(h, sha)
  {
    PermutedPlain(ciphers, h.cipherSuites);
    PermutedPlain(exts, h.extensions);
    PermutedPlain(versions, h.supportedVers);
    Ja4IsCanonical(h.(cipherSuites := ciphers, extensions := exts, supportedVers := versions), h, sha);
  }

  /** A GREASE value anywhere in any one of the four lists leaves JA4 unchanged. */
  lemma Ja4SurvivesGrease(h: Hello, a: seq<U16>, g: U16, b: seq<U16>, sha: Hash)
    requires IsGrease(g)
    ensures h.cipherSuites == a + b ==> Ja4(h.(cipherSuites := a + [g] + b), sha) == Ja4(h, sha)
    ensures h.extensions == a + b ==> Ja4(h.(extensions := a + [g] + b), sha) == Ja4(h, sha)
    ensures h.sigAlgs == a + b ==> Ja4(h.(sigAlgs := a + [g] + b), sha) == Ja4(h, sha)
    ensures h.supportedVers == a + b ==> Ja4(h.(supportedVers := a + [g] + b), sha) == Ja4(h, sha)
  {
    GreaseIsInvisible(a, g, b);
    assert SameVersions(a + [g] + b, a + b);
    if h.cipherSuites == a + b { Ja4IsCanonical(h.(cipherSuites := a + [g] + b), h, sha); }
    if h.extensions == a + b { Ja4IsCanonical(h.(extensions := a + [g] + b), h, sha); }
    if h.sigAlgs == a + b { Ja4IsCanonical(h.(sigAlgs := a + [g] + b), h, sha); }
    if h.supportedVers == a + b { Ja4IsCanonical(h.(supportedVers := a + [g] + b), h, sha); }
  }

  // ---- and nothing else, in what is hashed ----

  /** The cipher text tells hellos apart by exactly the bag of their non-GREASE cipher suites. */
  lemma CipherTextIsExact(h: Hello, k: Hello)
    ensures CipherText(h) == CipherText(k)
            <==> multiset(Plain(h.cipherSuites)) == multiset(Plain(k.cipherSuites))
  {
    HexJoinAlike(Sort(Plain(h.cipherSuites)), Sort(Plain(k.cipherSuites)));
    SameSorted(Plain(h.cipherSuites), Plain(k.cipherSuites));
  }

  lemma {:induction false} NoUnderscore(vs: seq<U16>)
    ensures '_' !in HexJoin(vs) && (HexJoin(vs) == "" <==> vs == [])
  {
    if |vs| > 0 {
      assert Texts(vs, Hex4)[1..] == Texts(vs[1..], Hex4);
      NoUnderscore(vs[1..]);
      assert '_' !in Hex4(vs[0]);
    }
  }

  /** The part of the extension text behind the underscore, with the underscore. */
  lemma UnderscoreSplits(a: string, s: string, b: string, t: string)
    requires '_' !in a && '_' !in b
    requires a + (if s != "" then "_" + s else "") == b + (if t != "" then "_" + t else "")
    ensures a == b && s == t
  {
    assert s == "" ==> a + "" == a;
    assert t == "" ==> b + "" == b;
    var left, right := a + (if s != "" then "_" + s else ""), b + (if t != "" then "_" + t else "");
    assert '_' in left <==> s != "" by { if s != "" { assert left[|a|] == '_'; } }
    assert '_' in right <==> t != "" by { if t != "" { assert right[|b|] == '_'; } }
    if s != "" { SplitAlike(a, '_', s, b, t); }
  }

  /** The extension text, by exactly the bag of hashed extensions and the list of signature algorithms. */
  lemma ExtensionTextIsExact(h: Hello, k: Hello)
    ensures ExtensionText(h) == ExtensionText(k)
            <==> multiset(Hashed(Plain(h.extensions))) == multiset(Hashed(Plain(k.extensions)))
                 && Plain(h.sigAlgs) == Plain(k.sigAlgs)
  {
    var a, b := Sort(Hashed(Plain(h.extensions))), Sort(Hashed(Plain(k.extensions)));
    var s, t := Plain(h.sigAlgs), Plain(k.sigAlgs);
    NoUnderscore(a);
    NoUnderscore(b);
    NoUnderscore(s);
    NoUnderscore(t);
    HexJoinAlike(a, b);
    HexJoinAlike(s, t);
    SameSorted(Hashed(Plain(h.extensions)), Hashed(Plain(k.extensions)));
    if ExtensionText(h) == ExtensionText(k) {
      UnderscoreSplits(HexJoin(a), HexJoin(s), HexJoin(b), HexJoin(t));
    }
  }

  // ---- JA3 ----

  function DashJoin(vs: seq<U16>): string {
    Join(Texts(vs, (v: U16) => Decimal(v)), ['-'])
  }

  /** The JA3 string, before it is hashed. */
  function Ja3Text(h: Hello): string {
    Decimal(h.legacyVersion) + ("," + (DashJoin(Plain(h.cipherSuites)) + ("," + (DashJoin(Plain(h.extensions)) + (","
    + (DashJoin(Plain(h.curves)) + ("," + DashJoin(h.pointFormats))))))))
  }

  lemma {:induction false} DecimalIsInjective(n: nat, m: nat)
    requires Decimal(n) == Decimal(m)
    ensures n == m
  {
    var a, b := Decimal(n), Decimal(m);
    if n >= 10 && m >= 10 {
      assert a[..|a| - 1] == Decimal(n / 10) && b[..|b| - 1] == Decimal(m / 10);
      assert a[|a| - 1] == Digit(n % 10) && b[|b| - 1] == Digit(m % 10);
      DecimalIsInjective(n / 10, m / 10);
    } else {
      assert n >= 10 ==> |a| >= 2;
      assert m >= 10 ==> |b| >= 2;
      assert a[0] == b[0];
    }
  }

  lemma DecimalWrites()
    ensures Writes((v: U16) => Decimal(v), '-')
  {
    forall v: U16, w: U16 | Decimal(v) == Decimal(w)
      ensures v == w
    {
      DecimalIsInjective(v, w);
    }
  }

  lemma DashJoinAlike(a: seq<U16>, b: seq<U16>)
    ensures DashJoin(a) == DashJoin(b) <==> a == b
  {
    DecimalWrites();
    JoinedAlike(a, b, (v: U16) => Decimal(v), '-');
  }

  lemma {:induction false} NoComma(vs: seq<U16>)
    ensures ',' !in DashJoin(vs)
  {
    if |vs| > 0 {
      assert Texts(vs, (v: U16) => Decimal(v))[1..] == Texts(vs[1..], (v: U16) => Decimal(v));
      NoComma(vs[1..]);
      assert ',' !in Decimal(vs[0]);
    }
  }

  /**
   * JA3 tells hellos apart by exactly the legacy version and the lists of ciphers,
   * extensions and groups without GREASE, in wire order, and the point formats.
   */
  lemma Ja3IsExact(h: Hello, k: Hello)
    ensures Ja3Text(h) == Ja3Text(k)
            <==> h.legacyVersion == k.legacyVersion && Plain(h.cipherSuites) == Plain(k.cipherSuites)
                 && Plain(h.extensions) == Plain(k.extensions) && Plain(h.curves) == Plain(k.curves)
                 && h.pointFormats == k.pointFormats
  {
    DashJoinAlike(Plain(h.cipherSuites), Plain(k.cipherSuites));
    DashJoinAlike(Plain(h.extensions), Plain(k.extensions));
    DashJoinAlike(Plain(h.curves), Plain(k.curves));
    DashJoinAlike(h.pointFormats, k.pointFormats);
    if Ja3Text(h) == Ja3Text(k) {
      Ja3Splits(Decimal(h.legacyVersion), DashJoin(Plain(h.cipherSuites)), DashJoin(Plain(h.extensions)),
                DashJoin(Plain(h.curves)), DashJoin(h.pointFormats), h, k);
      DecimalIsInjective(h.legacyVersion, k.legacyVersion);
    }
  }

  lemma Ja3Splits(v: string, c: string, e: string, g: string, p: string, h: Hello, k: Hello)
    requires v == Decimal(h.legacyVersion) && c == DashJoin(Plain(h.cipherSuites)) && e == DashJoin(Plain(h.extensions))
    requires g == DashJoin(Plain(h.curves)) && p == DashJoin(h.pointFormats) && Ja3Text(h) == Ja3Text(k)
    ensures v == Decimal(k.legacyVersion) && c == DashJoin(Plain(k.cipherSuites)) && e == DashJoin(Plain(k.extensions))
    ensures g == DashJoin(Plain(k.curves)) && p == DashJoin(k.pointFormats)
  {
    var c', e', g' := DashJoin(Plain(k.cipherSuites)), DashJoin(Plain(k.extensions)), DashJoin(Plain(k.curves));
    var p' := DashJoin(k.pointFormats);
    NoComma(Plain(h.cipherSuites));
    NoComma(Plain(h.extensions));
    NoComma(Plain(h.curves));
    NoComma(Plain(k.cipherSuites));
    NoComma(Plain(k.extensions));
    NoComma(Plain(k.curves));
    SplitFive(v, c, e, g, p, Decimal(k.legacyVersion), c', e', g', p');
  }

  lemma SplitFive(v: string, c: string, e: string, g: string, p: string,
                  v': string, c': string, e': string, g': string, p': string)
    requires ',' !in v && ',' !in c && ',' !in e && ',' !in g && ',' !in v' && ',' !in c' && ',' !in e' && ',' !in g'
    requires v + ("," + (c + ("," + (e + ("," + (g + ("," + p)))))))
             == v' + ("," + (c' + ("," + (e' + ("," + (g' + ("," + p')))))))
    ensures v == v' && c == c' && e == e' && g == g' && p == p'
  {
    SplitAlike(v, ',', c + ("," + (e + ("," + (g + ("," + p))))), v', c' + ("," + (e' + ("," + (g' + ("," + p'))))));
    SplitAlike(c, ',', e + ("," + (g + ("," + p))), c', e' + ("," + (g' + ("," + p'))));
    SplitAlike(e, ',', g + ("," + p), e', g' + ("," + p'));
    SplitAlike(g, ',', p, g', p');
  }

  /** JA3 does not see GREASE in ciphers, extensions or groups. */
  lemma Ja3SurvivesGrease(h: Hello, a: seq<U16>, g: U16, b: seq<U16>)
    requires IsGrease(g)
    ensures h.cipherSuites == a + b ==> Ja3Text(h.(cipherSuites := a + [g] + b)) == Ja3Text(h)
    ensures h.extensions == a + b ==> Ja3Text(h.(extensions := a + [g] + b)) == Ja3Text(h)
    ensures h.curves == a + b ==> Ja3Text(h.(curves := a + [g] + b)) == Ja3Text(h)
  {
    GreaseIsInvisible(a, g, b);
  }
}
