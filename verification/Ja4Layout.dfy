/**
 * What stands where in a JA4 and a JA3 (`ja4` and `ja3` in
 * internal/upstream/fingerprint_test.go), character by character, and what the
 * hashed parts are hashes of.
 */
module Ja4Layout {
  import opened Basics
  import opened ClientHello
  import opened Fingerprints

  /** The sixteen values 0x0a0a, 0x1a1a, ..., 0xfafa. */
  ghost predicate Reserved(v: U16) {
    exists k :: 0 <= k < 16 && v == 0x0a0a + 0x1010 * k
  }

  // ---- lists of values ----

  /** `at` lists, in rising order, the positions of the values that are not GREASE. */
  ghost predicate PlainAt(vs: seq<U16>, at: seq<nat>) {
    Rising(at) && forall i: nat :: i in at <==> i < |vs| && !Reserved(vs[i])
  }

  ghost predicate TakenAt(vs: seq<U16>, at: seq<nat>, out: seq<U16>) {
    |out| == |at| && forall k :: 0 <= k < |at| ==> at[k] < |vs| && out[k] == vs[at[k]]
  }

  /** `out` is `vs` without GREASE, in order. */
  ghost predicate Ungreased(vs: seq<U16>, out: seq<U16>) {
    exists at :: PlainAt(vs, at) && TakenAt(vs, at, out)
  }

  lemma OneMorePlain(vs: seq<U16>, at: seq<nat>, v: U16, out: seq<U16>)
    requires PlainAt(vs, at) && TakenAt(vs, at, out)
    ensures Ungreased(vs + [v], if Reserved(v) then out else out + [v])
  {
    var now := if Reserved(v) then at else at + [|vs|];
    forall i: nat
      ensures i in now <==> i < |vs + [v]| && !Reserved((vs + [v])[i])
    {
      assert i in now <==> i in at || (!Reserved(v) && i == |vs|);
    }
    forall a, b | 0 <= a < b < |now|
      ensures now[a] < now[b]
    {
      assert now[a] == at[a] && at[a] in at;
    }
    assert TakenAt(vs + [v], now, if Reserved(v) then out else out + [v]);
  }

  lemma PlainSnoc(vs: seq<U16>, v: U16)
    ensures Plain(vs + [v]) == if Reserved(v) then Plain(vs) else Plain(vs) + [v]
  {
    PlainAppend(vs, [v]);
    assert [v][1..] == [];
    GreaseValues(v);
    assert Plain(vs) + [] == Plain(vs);
  }

  lemma PlainNext(vs: seq<U16>, v: U16)
    requires Ungreased(vs, Plain(vs))
    ensures Ungreased(vs + [v], Plain(vs + [v]))
  {
    var at :| PlainAt(vs, at) && TakenAt(vs, at, Plain(vs));
    OneMorePlain(vs, at, v, Plain(vs));
    PlainSnoc(vs, v);
  }

  lemma {:induction false} PlainIsUngreased(vs: seq<U16>)
    ensures Ungreased(vs, Plain(vs))
  {
    if vs == [] {
      assert PlainAt([], []) && TakenAt([], [], []);
    } else {
      var init, v := vs[..|vs| - 1], vs[|vs| - 1];
      PlainIsUngreased(init);
      PlainNext(init, v);
      assert vs == init + [v];
    }
  }

  /** The largest of the legacy version and the offered ones that are not GREASE. */
  ghost predicate IsBest(h: Hello, best: U16) {
    && best >= h.legacyVersion
    && (best == h.legacyVersion || (best in h.supportedVers && !Reserved(best)))
    && forall v :: v in h.supportedVers && !Reserved(v) ==> v <= best
  }

  lemma BestIsBest(h: Hello)
    ensures IsBest(h, Best(h.legacyVersion, h.supportedVers))
  {
    BestIsLargest(h.legacyVersion, h.supportedVers);
    forall v: U16
      ensures IsGrease(v) <==> Reserved(v)
    {
      GreaseValues(v);
    }
  }

  // ---- lists as text ----

  predicate IsHex4(text: string, v: U16) {
    var digits := "0123456789abcdef";
    text == [digits[v / 0x1000], digits[v / 0x100 % 0x10], digits[v / 0x10 % 0x10], digits[v % 0x10]]
  }

  /** The values one after the other, `sep` between them. */
  ghost predicate Lists(text: string, vs: seq<U16>, sep: string, writes: (string, U16) -> bool)
    decreases |vs|
  {
    if vs == [] then text == ""
    else if |vs| == 1 then writes(text, vs[0])
    else exists w, rest :: text == w + (sep + rest) && writes(w, vs[0]) && Lists(rest, vs[1..], sep, writes)
  }

  lemma {:induction false} JoinedLists(vs: seq<U16>, text: U16 -> string, sep: string, writes: (string, U16) -> bool)
    requires forall v: U16 :: writes(text(v), v)
    ensures Lists(Join(Texts(vs, text), sep), vs, sep, writes)
  {
    if |vs| > 1 {
      JoinedLists(vs[1..], text, sep, writes);
      assert Texts(vs, text)[1..] == Texts(vs[1..], text);
    }
  }

  lemma Hex4IsHex(v: U16)
    ensures IsHex4(Hex4(v), v)
  {
    HexDigitAt(v / 0x1000);
    HexDigitAt(v / 0x100 % 0x10);
    HexDigitAt(v / 0x10 % 0x10);
    HexDigitAt(v % 0x10);
  }

  lemma HexDigitAt(d: int)
    requires 0 <= d < 16
    ensures HexChar(d) == "0123456789abcdef"[d]
  {
  }

  lemma HexJoinLists(vs: seq<U16>)
    ensures Lists(HexJoin(vs), vs, ",", IsHex4)
  {
    forall v: U16
      ensures IsHex4(Hex4(v), v)
    {
      Hex4IsHex(v);
    }
    JoinedLists(vs, Hex4, ",", IsHex4);
  }

  predicate SpellsValue(text: string, v: U16) {
    Spells(text, v)
  }

  lemma DashJoinLists(vs: seq<U16>)
    ensures Lists(DashJoin(vs), vs, "-", SpellsValue)
  {
    forall v: U16
      ensures SpellsValue(Decimal(v), v)
    {
      DecimalSpells(v);
    }
    JoinedLists(vs, (v: U16) => Decimal(v), "-", SpellsValue);
  }

  // ---- JA4 ----

  /** Two decimal digits. */
  predicate TwoDigits(text: string, n: nat) {
    && |text| == 2 && '0' <= text[0] <= '9' && '0' <= text[1] <= '9'
    && 10 * (text[0] as int - '0' as int) + (text[1] as int - '0' as int) == n
  }

  predicate IsVersion(text: string, best: U16) {
    match best
    case 0x0304 => text == "13"
    case 0x0303 => text == "12"
    case 0x0302 => text == "11"
    case 0x0301 => text == "10"
    case _ => text == "00"
  }

  /** First and last octet of the first protocol offered. */
  predicate IsAlpn(text: string, alpn: seq<Bytes>) {
    if alpn == [] || alpn[0] == [] then text == "00"
    else |text| == 2 && text[0] as int == alpn[0][0] && text[1] as int == alpn[0][|alpn[0]| - 1]
  }

  /** The readable part: transport, version, SNI, two counts, ALPN; `ciphers` and `exts` are without GREASE. */
  ghost predicate ReadablePart(s: string, h: Hello, best: U16, ciphers: seq<U16>, exts: seq<U16>) {
    && |s| == 10 && s[0] == 't' && IsVersion(s[1..3], best) && s[3] == (if h.hasSni then 'd' else 'i')
    && TwoDigits(s[4..6], if |ciphers| < 99 then |ciphers| else 99)
    && TwoDigits(s[6..8], if |exts| < 99 then |exts| else 99)
    && IsAlpn(s[8..10], h.alpn)
  }

  /** Non-decreasing, with the contents of `vs` but for those of `but`. */
  ghost predicate SortedFrom(out: seq<U16>, vs: seq<U16>, but: set<U16>) {
    && (forall i, j :: 0 <= i < j < |out| ==> out[i] <= out[j])
    && forall v: U16 :: multiset(out)[v] == if v in but then 0 else multiset(vs)[v]
  }

  /** Ciphers in hexadecimal, sorted. */
  ghost predicate IsCipherText(text: string, ciphers: seq<U16>) {
    exists sorted :: SortedFrom(sorted, ciphers, {}) && Lists(text, sorted, ",", IsHex4)
  }

  /** `a` lists the extensions but SNI and ALPN, sorted, `b` the signature algorithms in wire order, if any. */
  ghost predicate ListsExtensions(text: string, sorted: seq<U16>, a: string, b: string, exts: seq<U16>, sigs: seq<U16>)
  {
    && SortedFrom(sorted, exts, {0x0000, 0x0010}) && Lists(a, sorted, ",", IsHex4) && Lists(b, sigs, ",", IsHex4)
    && text == if sigs == [] then a else a + "_" + b
  }

  ghost predicate IsExtensionText(text: string, exts: seq<U16>, sigs: seq<U16>) {
    exists sorted, a, b :: ListsExtensions(text, sorted, a, b, exts, sigs)
  }

  /** The hash of a text, and twelve zeros for none. */
  predicate IsHash(part: string, sha: Hash, text: string) {
    part == if text == "" then "000000000000" else sha(text)
  }

  lemma ReadablePartIs(h: Hello)
    ensures ReadablePart(Ja4A(h), h, Best(h.legacyVersion, h.supportedVers), Plain(h.cipherSuites), Plain(h.extensions))
  {
    var version, sni := VersionText(Best(h.legacyVersion, h.supportedVers)), if h.hasSni then "d" else "i";
    var c, e, a := Count2(|Plain(h.cipherSuites)|), Count2(|Plain(h.extensions)|), AlpnChars(h.alpn);
    var s := Ja4A(h);
    assert s == "t" + version + sni + c + e + a;
    assert s[1..3] == version && s[4..6] == c && s[6..8] == e && s[8..10] == a;
  }

  lemma {:induction false} SortedRises(s: seq<U16>, i: nat, j: nat)
    requires IsSorted(s) && i < j < |s|
    ensures s[i] <= s[j]
  {
    if i > 0 {
      SortedRises(s[1..], i - 1, j - 1);
    } else if j > 1 {
      SortedRises(s[1..], 0, j - 1);
    }
  }

  lemma SortIsSorted(vs: seq<U16>)
    ensures SortedFrom(Sort(vs), vs, {})
  {
    SortContents(vs);
    forall i, j | 0 <= i < j < |Sort(vs)|
      ensures Sort(vs)[i] <= Sort(vs)[j]
    {
      SortedRises(Sort(vs), i, j);
    }
  }

  lemma HashedIsSorted(vs: seq<U16>)
    ensures SortedFrom(Sort(Hashed(vs)), vs, {0x0000, 0x0010})
  {
    SortIsSorted(Hashed(vs));
    forall v: U16
      ensures multiset(Sort(Hashed(vs)))[v] == if v in {0x0000, 0x0010} then 0 else multiset(vs)[v]
    {
      HashedCount(vs, v);
    }
  }

  lemma CipherTextIs(h: Hello)
    ensures IsCipherText(CipherText(h), Plain(h.cipherSuites))
  {
    SortIsSorted(Plain(h.cipherSuites));
    HexJoinLists(Sort(Plain(h.cipherSuites)));
  }

  lemma ExtensionTextJoins(h: Hello)
    ensures var a, sigs := HexJoin(Sort(Hashed(Plain(h.extensions)))), Plain(h.sigAlgs);
            ExtensionText(h) == if sigs == [] then a else a + "_" + HexJoin(sigs)
  {
    var a, b := HexJoin(Sort(Hashed(Plain(h.extensions)))), HexJoin(Plain(h.sigAlgs));
    assert a + "" == a && a + ("_" + b) == a + "_" + b;
  }

  lemma ExtensionTextIs(h: Hello)
    ensures IsExtensionText(ExtensionText(h), Plain(h.extensions), Plain(h.sigAlgs))
  {
    var sorted, sigs := Sort(Hashed(Plain(h.extensions))), Plain(h.sigAlgs);
    HashedIsSorted(Plain(h.extensions));
    HexJoinLists(sorted);
    HexJoinLists(sigs);
    ExtensionTextJoins(h);
    assert ListsExtensions(ExtensionText(h), sorted, HexJoin(sorted), HexJoin(sigs), Plain(h.extensions), sigs);
  }

  /** The three parts of a JA4, and what each is made of. */
  lemma Ja4IsLaidOut(h: Hello, sha: Hash)
    returns (a: string, b: string, c: string, best: U16, ciphers: seq<U16>, exts: seq<U16>, sigs: seq<U16>,
             hashedCiphers: string, hashedExts: string)
    ensures Ja4(h, sha) == a + "_" + b + "_" + c
    ensures IsBest(h, best) && Ungreased(h.cipherSuites, ciphers) && Ungreased(h.extensions, exts)
            && Ungreased(h.sigAlgs, sigs)
    ensures ReadablePart(a, h, best, ciphers, exts)
    ensures IsHash(b, sha, hashedCiphers) && IsCipherText(hashedCiphers, ciphers)
    ensures IsHash(c, sha, hashedExts) && IsExtensionText(hashedExts, exts, sigs)
  {
    best := Best(h.legacyVersion, h.supportedVers);
    ciphers, exts, sigs := Plain(h.cipherSuites), Plain(h.extensions), Plain(h.sigAlgs);
    hashedCiphers, hashedExts := CipherText(h), ExtensionText(h);
    a, b, c := Ja4A(h), Hash12(sha, hashedCiphers), Hash12(sha, hashedExts);
    BestIsBest(h);
    PlainIsUngreased(h.cipherSuites);
    PlainIsUngreased(h.extensions);
    PlainIsUngreased(h.sigAlgs);
    ReadablePartIs(h);
    CipherTextIs(h);
    ExtensionTextIs(h);
  }

  // ---- JA3 ----

  /** The five parts of a JA3 string: decimals, dashes inside the lists, point formats as they came. */
  lemma Ja3IsLaidOut(h: Hello)
    returns (version: string, c: string, e: string, g: string, p: string, ciphers: seq<U16>, exts: seq<U16>,
             curves: seq<U16>)
    ensures Ja3Text(h) == version + "," + c + "," + e + "," + g + "," + p
    ensures Ungreased(h.cipherSuites, ciphers) && Ungreased(h.extensions, exts) && Ungreased(h.curves, curves)
    ensures Spells(version, h.legacyVersion)
    ensures Lists(c, ciphers, "-", SpellsValue) && Lists(e, exts, "-", SpellsValue)
    ensures Lists(g, curves, "-", SpellsValue) && Lists(p, h.pointFormats, "-", SpellsValue)
  {
    ciphers, exts, curves := Plain(h.cipherSuites), Plain(h.extensions), Plain(h.curves);
    version, c, e := Decimal(h.legacyVersion), DashJoin(ciphers), DashJoin(exts);
    g, p := DashJoin(curves), DashJoin(h.pointFormats);
    PlainIsUngreased(h.cipherSuites);
    PlainIsUngreased(h.extensions);
    PlainIsUngreased(h.curves);
    DecimalSpells(h.legacyVersion);
    DashJoinLists(ciphers);
    DashJoinLists(exts);
    DashJoinLists(curves);
    DashJoinLists(h.pointFormats);
    CommasRegroup(version, c, e, g, p);
  }

  lemma CommasRegroup(v: string, c: string, e: string, g: string, p: string)
    ensures v + ("," + (c + ("," + (e + ("," + (g + ("," + p))))))) == v + "," + c + "," + e + "," + g + "," + p
  {
  }
}
