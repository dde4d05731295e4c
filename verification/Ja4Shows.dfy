/**
 * What JA4 tells apart (`ja4` in internal/upstream/fingerprint_test.go): two
 * hellos have one fingerprint under every hash exactly when the parts it is
 * made of agree.
 */
module Ja4Shows {
  import opened Basics
  import opened ClientHello
  import opened Fingerprints

  /** Everything JA4 shows: the readable part piece by piece, and what it hashes. */
  ghost predicate ShownAlike(h: Hello, k: Hello) {
    && VersionText(Best(h.legacyVersion, h.supportedVers)) == VersionText(Best(k.legacyVersion, k.supportedVers))
    && h.hasSni == k.hasSni && AlpnChars(h.alpn) == AlpnChars(k.alpn)
    && Count2(|Plain(h.extensions)|) == Count2(|Plain(k.extensions)|)
    && multiset(Plain(h.cipherSuites)) == multiset(Plain(k.cipherSuites))
    && multiset(Hashed(Plain(h.extensions))) == multiset(Hashed(Plain(k.extensions)))
    && Plain(h.sigAlgs) == Plain(k.sigAlgs)
  }

  ghost predicate SameJa4(h: Hello, k: Hello) {
    forall sha: Hash :: Ja4(h, sha) == Ja4(k, sha)
  }

  // ---- the readable part ----

  lemma EndsAlike(a: string, b: string, a': string, b': string)
    requires |b| == |b'| && a + b == a' + b'
    ensures a == a' && b == b'
  {
    assert |a| == |a'|;
    assert (a + b)[..|a|] == a && (a' + b')[..|a|] == a';
    assert (a + b)[|a|..] == b && (a' + b')[|a|..] == b';
  }

  /** Pieces of fixed width can be read off. */
  lemma PiecesAlike(v: string, s: string, c: string, e: string, a: string,
                    v': string, s': string, c': string, e': string, a': string)
    requires |v| == |v'| && |s| == |s'| && |c| == |c'| && |e| == |e'| && |a| == |a'|
    requires "t" + v + s + c + e + a == "t" + v' + s' + c' + e' + a'
    ensures v == v' && s == s' && c == c' && e == e' && a == a'
  {
    EndsAlike("t" + v + s + c + e, a, "t" + v' + s' + c' + e', a');
    EndsAlike("t" + v + s + c, e, "t" + v' + s' + c', e');
    EndsAlike("t" + v + s, c, "t" + v' + s', c');
    EndsAlike("t" + v, s, "t" + v', s');
    EndsAlike("t", v, "t", v');
  }

  function SniText(h: Hello): string {
    if h.hasSni then "d" else "i"
  }

  lemma Widths(h: Hello)
    ensures |VersionText(Best(h.legacyVersion, h.supportedVers))| == 2 && |SniText(h)| == 1 && |AlpnChars(h.alpn)| == 2
    ensures Ja4A(h) == "t" + VersionText(Best(h.legacyVersion, h.supportedVers)) + SniText(h)
                       + Count2(|Plain(h.cipherSuites)|) + Count2(|Plain(h.extensions)|) + AlpnChars(h.alpn)
    ensures |Ja4A(h)| == 10
  {
  }

  lemma SniAlike(h: Hello, k: Hello)
    ensures SniText(h) == SniText(k) <==> h.hasSni == k.hasSni
  {
  }

  lemma ReadableAlike(h: Hello, k: Hello)
    requires Ja4A(h) == Ja4A(k)
    ensures VersionText(Best(h.legacyVersion, h.supportedVers)) == VersionText(Best(k.legacyVersion, k.supportedVers))
    ensures h.hasSni == k.hasSni && AlpnChars(h.alpn) == AlpnChars(k.alpn)
    ensures Count2(|Plain(h.extensions)|) == Count2(|Plain(k.extensions)|)
  {
    Widths(h);
    Widths(k);
    SniAlike(h, k);
    PiecesAlike(VersionText(Best(h.legacyVersion, h.supportedVers)), SniText(h), Count2(|Plain(h.cipherSuites)|),
                Count2(|Plain(h.extensions)|), AlpnChars(h.alpn),
                VersionText(Best(k.legacyVersion, k.supportedVers)), SniText(k), Count2(|Plain(k.cipherSuites)|),
                Count2(|Plain(k.extensions)|), AlpnChars(k.alpn));
  }

  // ---- the hashed parts ----

  /** A hash that forgets nothing, so that what it is given can be read off. */
  function Marked(s: string): string {
    ['x'] + s
  }

  lemma MarkedIsInjective(s: string, t: string)
    requires Hash12(Marked, s) == Hash12(Marked, t)
    ensures s == t
  {
    if s != "" && t != "" {
      assert Marked(s)[1..] == s && Marked(t)[1..] == t;
    } else {
      assert Hash12(Marked, "")[0] == '0';
    }
  }

  lemma PartsAlike(a: string, c: string, e: string, a': string, c': string, e': string)
    requires |a| == |a'| && '_' !in c && '_' !in c'
    requires a + ['_'] + c + ['_'] + e == a' + ['_'] + c' + ['_'] + e'
    ensures a == a' && c == c' && e == e'
  {
    var rest, rest' := c + (['_'] + e), c' + (['_'] + e');
    assert a + ['_'] + c + ['_'] + e == (a + ['_']) + rest;
    assert a' + ['_'] + c' + ['_'] + e' == (a' + ['_']) + rest';
    assert |rest| == |rest'|;
    EndsAlike(a + ['_'], rest, a' + ['_'], rest');
    EndsAlike(a, ['_'], a', ['_']);
    SplitAlike(c, '_', e, c', e');
  }

  lemma CipherHashIsPlain(h: Hello)
    ensures '_' !in Hash12(Marked, CipherText(h))
  {
    NoUnderscore(Sort(Plain(h.cipherSuites)));
  }

  lemma TextsAlike(h: Hello, k: Hello)
    requires Ja4(h, Marked) == Ja4(k, Marked)
    ensures Ja4A(h) == Ja4A(k) && CipherText(h) == CipherText(k) && ExtensionText(h) == ExtensionText(k)
  {
    Widths(h);
    Widths(k);
    CipherHashIsPlain(h);
    CipherHashIsPlain(k);
    PartsAlike(Ja4A(h), Hash12(Marked, CipherText(h)), Hash12(Marked, ExtensionText(h)),
               Ja4A(k), Hash12(Marked, CipherText(k)), Hash12(Marked, ExtensionText(k)));
    MarkedIsInjective(CipherText(h), CipherText(k));
    MarkedIsInjective(ExtensionText(h), ExtensionText(k));
  }

  lemma ShownIsEnough(h: Hello, k: Hello, sha: Hash)
    requires ShownAlike(h, k)
    ensures Ja4(h, sha) == Ja4(k, sha)
  {
    SameContentsSameLength(Plain(h.cipherSuites), Plain(k.cipherSuites));
    CipherTextIsExact(h, k);
    ExtensionTextIsExact(h, k);
  }

  /** JA4 under every hash tells hellos apart by exactly what it shows. */
  lemma Ja4IsExact(h: Hello, k: Hello)
    ensures SameJa4(h, k) <==> ShownAlike(h, k)
  {
    if SameJa4(h, k) {
      TextsAlike(h, k);
      ReadableAlike(h, k);
      CipherTextIsExact(h, k);
      ExtensionTextIsExact(h, k);
    }
    forall sha: Hash | ShownAlike(h, k)
      ensures Ja4(h, sha) == Ja4(k, sha)
    {
      ShownIsEnough(h, k, sha);
    }
  }
}
