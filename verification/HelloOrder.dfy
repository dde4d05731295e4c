/**
 * The order of a ClientHello's extensions, from the bytes a client writes to JA4
 * (internal/upstream/fingerprint_test.go): clients permute them, and the
 * fingerprint is meant not to move.
 */
module HelloOrder {
  import opened Basics
  import opened ClientHello
  import opened Fingerprints
  import opened Ja4Shows

  // ---- which of several extensions of one kind counts ----

  /** Both are of one kind whose contents JA4 reads. */
  predicate SameKind(e: Ext, f: Ext) {
    || (e.Versions? && f.Versions?)
    || (e.SignatureAlgorithms? && f.SignatureAlgorithms?)
    || (e.Protocols? && f.Protocols?)
  }

  function LastOf(exts: seq<Ext>, kind: Ext): Option<Ext> {
    if exts == [] then None
    else if SameKind(exts[|exts| - 1], kind) then Some(exts[|exts| - 1])
    else LastOf(exts[..|exts| - 1], kind)
  }

  lemma {:induction false} LastIsMember(exts: seq<Ext>, kind: Ext)
    ensures LastOf(exts, kind).Some? ==> LastOf(exts, kind).value in exts && SameKind(LastOf(exts, kind).value, kind)
    ensures LastOf(exts, kind).None? ==> forall e :: e in exts ==> !SameKind(e, kind)
  {
    if exts != [] {
      LastIsMember(exts[..|exts| - 1], kind);
      assert exts == exts[..|exts| - 1] + [exts[|exts| - 1]];
    }
  }

  lemma {:induction false} WithAllSnoc(h: Hello, exts: seq<Ext>, e: Ext)
    ensures WithAll(h, exts + [e]) == With(WithAll(h, exts), e)
    decreases |exts|
  {
    if exts == [] {
      assert exts + [e] == [e] && [e][1..] == [];
    } else {
      assert (exts + [e])[1..] == exts[1..] + [e];
      WithAllSnoc(With(h, exts[0]), exts[1..], e);
    }
  }

  /** The lists of a hello that a repeated extension overwrites. */
  function Lists(h: Hello): (seq<U16>, seq<Bytes>, seq<U16>) {
    (h.sigAlgs, h.alpn, h.supportedVers)
  }

  /** The last extension of each kind decides its list. */
  lemma {:induction false} LastSignatures(h: Hello, exts: seq<Ext>)
    ensures WithAll(h, exts).sigAlgs
            == match LastOf(exts, SignatureAlgorithms([])) case Some(SignatureAlgorithms(a)) => a case _ => h.sigAlgs
  {
    if exts != [] {
      var init, e := exts[..|exts| - 1], exts[|exts| - 1];
      assert exts == init + [e];
      LastSignatures(h, init);
      WithAllSnoc(h, init, e);
    }
  }

  lemma {:induction false} LastProtocols(h: Hello, exts: seq<Ext>)
    ensures WithAll(h, exts).alpn
            == match LastOf(exts, Protocols([])) case Some(Protocols(names)) => names case _ => h.alpn
  {
    if exts != [] {
      var init, e := exts[..|exts| - 1], exts[|exts| - 1];
      assert exts == init + [e];
      LastProtocols(h, init);
      WithAllSnoc(h, init, e);
    }
  }

  lemma {:induction false} LastVersions(h: Hello, exts: seq<Ext>)
    ensures WithAll(h, exts).supportedVers
            == match LastOf(exts, Versions([])) case Some(Versions(v)) => v case _ => h.supportedVers
  {
    if exts != [] {
      var init, e := exts[..|exts| - 1], exts[|exts| - 1];
      assert exts == init + [e];
      LastVersions(h, init);
      WithAllSnoc(h, init, e);
    }
  }

  /** The rest of the hello does not depend on the order of the extensions. */
  lemma {:induction false} RestIsUnordered(h: Hello, exts: seq<Ext>)
    ensures WithAll(h, exts).cipherSuites == h.cipherSuites && WithAll(h, exts).legacyVersion == h.legacyVersion
    ensures WithAll(h, exts).hasSni <==> h.hasSni || exists e :: e in exts && e.ServerName?
  {
    if exts != [] {
      var init, e := exts[..|exts| - 1], exts[|exts| - 1];
      assert exts == init + [e];
      RestIsUnordered(h, init);
      WithAllSnoc(h, init, e);
    }
  }

  // ---- permutations ----

  ghost predicate Permuted(p: seq<Ext>, exts: seq<Ext>) {
    multiset(p) == multiset(exts)
  }

  lemma PermutedMembers(p: seq<Ext>, exts: seq<Ext>)
    requires Permuted(p, exts)
    ensures forall e :: e in p <==> e in exts
  {
    forall e
      ensures e in p <==> e in exts
    {
      assert e in p <==> e in multiset(p);
      assert e in exts <==> e in multiset(exts);
    }
  }

  /** Extensions of one kind, if there are several, say the same. */
  ghost predicate OrderFree(exts: seq<Ext>) {
    forall e, f :: e in exts && f in exts && SameKind(e, f) ==> e == f
  }

  lemma SameLast(exts: seq<Ext>, p: seq<Ext>, kind: Ext)
    requires OrderFree(exts) && Permuted(p, exts)
    ensures LastOf(p, kind) == LastOf(exts, kind)
  {
    PermutedMembers(p, exts);
    LastIsMember(p, kind);
    LastIsMember(exts, kind);
  }

  lemma SameLists(h: Hello, exts: seq<Ext>, p: seq<Ext>)
    requires OrderFree(exts) && Permuted(p, exts)
    ensures Lists(WithAll(h, p)) == Lists(WithAll(h, exts)) && WithAll(h, p).hasSni == WithAll(h, exts).hasSni
  {
    SameLast(exts, p, SignatureAlgorithms([]));
    LastSignatures(h, p);
    LastSignatures(h, exts);
    SameLast(exts, p, Protocols([]));
    LastProtocols(h, p);
    LastProtocols(h, exts);
    SameLast(exts, p, Versions([]));
    LastVersions(h, p);
    LastVersions(h, exts);
    RestIsUnordered(h, p);
    RestIsUnordered(h, exts);
    PermutedMembers(p, exts);
  }

  /** The order in which `e` comes last. */
  lemma PutLast(exts: seq<Ext>, e: Ext) returns (p: seq<Ext>)
    requires e in exts
    ensures Permuted(p, exts) && p != [] && p[|p| - 1] == e
  {
    var i :| 0 <= i < |exts| && exts[i] == e;
    p := exts[..i] + exts[i + 1..] + [e];
    assert exts == exts[..i] + [e] + exts[i + 1..];
  }

  lemma LastCounts(h: Hello, p: seq<Ext>, e: Ext, kind: Ext)
    requires p != [] && p[|p| - 1] == e && SameKind(e, kind)
    ensures match e
            case Versions(v) => Lists(WithAll(h, p)).2 == v
            case SignatureAlgorithms(a) => Lists(WithAll(h, p)).0 == a
            case Protocols(names) => Lists(WithAll(h, p)).1 == names
            case _ => true
  {
    assert p == p[..|p| - 1] + [e];
    WithAllSnoc(h, p[..|p| - 1], e);
  }

  /**
   * Exactly when the order of the extensions cannot be seen in what is decoded:
   * no kind whose list is overwritten occurs twice with different contents.
   */
  lemma ListsIgnoreOrder(h: Hello, exts: seq<Ext>)
    ensures OrderFree(exts) <==> forall p :: Permuted(p, exts) ==> Lists(WithAll(h, p)) == Lists(WithAll(h, exts))
  {
    forall p | OrderFree(exts) && Permuted(p, exts)
      ensures Lists(WithAll(h, p)) == Lists(WithAll(h, exts))
    {
      SameLists(h, exts, p);
    }
    if forall p :: Permuted(p, exts) ==> Lists(WithAll(h, p)) == Lists(WithAll(h, exts)) {
      forall e, f | e in exts && f in exts && SameKind(e, f)
        ensures e == f
      {
        var p := PutLast(exts, e);
        var q := PutLast(exts, f);
        LastCounts(h, p, e, f);
        LastCounts(h, q, f, e);
        assert Lists(WithAll(h, p)) == Lists(WithAll(h, q));
      }
    }
  }

  // ---- JA4 ----

  lemma {:induction false} TypesAppend(a: seq<Ext>, b: seq<Ext>)
    ensures Types(a + b) == Types(a) + Types(b)
  {
    if a == [] {
      assert a + b == b;
    } else {
      assert (a + b)[1..] == a[1..] + b;
      TypesAppend(a[1..], b);
    }
  }

  lemma SplitAround<T>(s: seq<T>, x: T) returns (a: seq<T>, b: seq<T>)
    requires x in s
    ensures s == a + ([x] + b)
  {
    var i :| 0 <= i < |s| && s[i] == x;
    a, b := s[..i], s[i + 1..];
  }

  lemma OneOut<T>(a: seq<T>, x: T, b: seq<T>)
    ensures multiset(a + ([x] + b)) == multiset(a + b) + multiset{x}
  {
  }

  /** Where the first of `p` stands in `exts`; without it, both are permutations again. */
  lemma FirstIn(p: seq<Ext>, exts: seq<Ext>) returns (a: seq<Ext>, b: seq<Ext>)
    requires p != [] && Permuted(p, exts)
    ensures exts == a + ([p[0]] + b) && Permuted(p[1..], a + b)
  {
    PermutedMembers(p, exts);
    assert p[0] in p && p == [] + ([p[0]] + p[1..]) && [] + p[1..] == p[1..];
    a, b := SplitAround(exts, p[0]);
    OneOut([], p[0], p[1..]);
    OneOut(a, p[0], b);
    SameWithout(multiset(p[1..]), multiset(a + b), p[0]);
  }

  lemma SameWithout<T>(m: multiset<T>, n: multiset<T>, x: T)
    requires m + multiset{x} == n + multiset{x}
    ensures m == n
  {
    assert m == (m + multiset{x}) - multiset{x} && n == (n + multiset{x}) - multiset{x};
  }

  lemma {:induction false} PermutedTypes(p: seq<Ext>, exts: seq<Ext>)
    requires Permuted(p, exts)
    ensures multiset(Types(p)) == multiset(Types(exts))
    decreases |p|
  {
    if p == [] {
      assert |multiset(p)| == 0 == |multiset(exts)|;
    } else {
      var a, b := FirstIn(p, exts);
      PermutedTypes(p[1..], a + b);
      TypesAppend(a, b);
      TypesAppend(a, [p[0]] + b);
      TypesAppend([p[0]], b);
      TypesAppend([p[0]], p[1..]);
      assert p == [p[0]] + p[1..];
    }
  }

  /** JA4 shows the same of `e` and `f`, two extensions of one kind of a client whose legacy version is `legacy`. */
  predicate SameShown(legacy: U16, e: Ext, f: Ext)
    requires SameKind(e, f)
  {
    match e
    case Versions(v) => VersionText(Best(legacy, v)) == VersionText(Best(legacy, f.versions))
    case SignatureAlgorithms(a) => Plain(a) == Plain(f.algs)
    case Protocols(names) => AlpnChars(names) == AlpnChars(f.names)
  }

  /** Extensions of one kind, if there are several, show the same. */
  ghost predicate Indistinct(legacy: U16, exts: seq<Ext>) {
    forall e, f :: e in exts && f in exts && SameKind(e, f) ==> SameShown(legacy, e, f)
  }

  /** The last of a kind in two orders: there is one in both or in neither, and JA4 shows the same of them. */
  lemma LastsShowTheSame(legacy: U16, exts: seq<Ext>, p: seq<Ext>, q: seq<Ext>, kind: Ext)
    requires Indistinct(legacy, exts) && Permuted(p, exts) && Permuted(q, exts)
    ensures LastOf(p, kind).Some? <==> LastOf(q, kind).Some?
    ensures LastOf(p, kind).Some? ==>
              var e, f := LastOf(p, kind).value, LastOf(q, kind).value;
              SameKind(e, kind) && SameKind(e, f) && SameShown(legacy, e, f)
  {
    PermutedMembers(p, exts);
    PermutedMembers(q, exts);
    LastIsMember(p, kind);
    LastIsMember(q, kind);
  }

  lemma SameListsShown(h: Hello, exts: seq<Ext>, p: seq<Ext>, q: seq<Ext>)
    requires Indistinct(h.legacyVersion, exts) && Permuted(p, exts) && Permuted(q, exts)
    ensures var a, b := WithAll(h, p), WithAll(h, q);
            && VersionText(Best(h.legacyVersion, a.supportedVers))
               == VersionText(Best(h.legacyVersion, b.supportedVers))
            && Plain(a.sigAlgs) == Plain(b.sigAlgs) && AlpnChars(a.alpn) == AlpnChars(b.alpn)
  {
    LastVersions(h, p);
    LastVersions(h, q);
    LastsShowTheSame(h.legacyVersion, exts, p, q, Versions([]));
    LastSignatures(h, p);
    LastSignatures(h, q);
    LastsShowTheSame(h.legacyVersion, exts, p, q, SignatureAlgorithms([]));
    LastProtocols(h, p);
    LastProtocols(h, q);
    LastsShowTheSame(h.legacyVersion, exts, p, q, Protocols([]));
  }

  lemma SameTypesShown(h: Hello, p: seq<Ext>, q: seq<Ext>)
    requires Permuted(p, q)
    ensures var a, b := WithAll(h, p), WithAll(h, q);
            && multiset(Plain(a.extensions)) == multiset(Plain(b.extensions))
            && |Plain(a.extensions)| == |Plain(b.extensions)|
            && multiset(Hashed(Plain(a.extensions))) == multiset(Hashed(Plain(b.extensions)))
  {
    TypesInOrder(h, p);
    TypesInOrder(h, q);
    PermutedTypes(p, q);
    var a, b := WithAll(h, p), WithAll(h, q);
    PermutedPlain(a.extensions, b.extensions);
    SameContentsSameLength(Plain(a.extensions), Plain(b.extensions));
    HashedContents(Plain(a.extensions), Plain(b.extensions));
  }

  lemma Ja4OfPermuted(h: Hello, exts: seq<Ext>, p: seq<Ext>, q: seq<Ext>)
    requires Indistinct(h.legacyVersion, exts) && Permuted(p, exts) && Permuted(q, exts)
    ensures SameJa4(WithAll(h, p), WithAll(h, q))
  {
    SameListsShown(h, exts, p, q);
    SameTypesShown(h, p, q);
    RestIsUnordered(h, p);
    RestIsUnordered(h, q);
    PermutedMembers(p, q);
    Ja4IsExact(WithAll(h, p), WithAll(h, q));
  }

  /** Two of a kind that show different things: putting either last gives two fingerprints. */
  lemma LastShows(h: Hello, p: seq<Ext>, q: seq<Ext>, e: Ext, f: Ext)
    requires p != [] && q != [] && p[|p| - 1] == e && q[|q| - 1] == f && SameKind(e, f)
    requires SameJa4(WithAll(h, p), WithAll(h, q))
    ensures SameShown(h.legacyVersion, e, f)
  {
    Ja4IsExact(WithAll(h, p), WithAll(h, q));
    LastCounts(h, p, e, f);
    LastCounts(h, q, f, e);
    RestIsUnordered(h, p);
    RestIsUnordered(h, q);
  }

  ghost predicate OneJa4(h: Hello, exts: seq<Ext>) {
    forall p, q :: Permuted(p, exts) && Permuted(q, exts) ==> SameJa4(WithAll(h, p), WithAll(h, q))
  }

  /**
   * Exactly when JA4 does not move with the order of the extensions, under any
   * hash: extensions of one kind show the same.
   */
  lemma Ja4IgnoresOrder(h: Hello, exts: seq<Ext>)
    ensures Indistinct(h.legacyVersion, exts) <==> OneJa4(h, exts)
  {
    forall p, q | Indistinct(h.legacyVersion, exts) && Permuted(p, exts) && Permuted(q, exts)
      ensures SameJa4(WithAll(h, p), WithAll(h, q))
    {
      Ja4OfPermuted(h, exts, p, q);
    }
    forall e, f | OneJa4(h, exts) && e in exts && f in exts && SameKind(e, f)
      ensures SameShown(h.legacyVersion, e, f)
    {
      var p := PutLast(exts, e);
      var q := PutLast(exts, f);
      LastShows(h, p, q, e, f);
    }
  }

  // ---- on bytes ----

  lemma {:induction false} GoodExtsAppend(a: seq<Ext>, b: seq<Ext>)
    ensures GoodExts(a + b) <==> GoodExts(a) && GoodExts(b)
    ensures GoodExts(a + b) ==> |PrintExts(a + b)| == |PrintExts(a)| + |PrintExts(b)|
  {
    if a == [] {
      assert a + b == b;
    } else {
      assert (a + b)[1..] == a[1..] + b;
      GoodExtsAppend(a[1..], b);
    }
  }

  /** Moving one extension keeps what is printed as long. */
  lemma OneMoved(a: seq<Ext>, x: Ext, b: seq<Ext>)
    requires GoodExts(a + ([x] + b))
    ensures GoodExts([x]) && GoodExts(a + b)
    ensures |PrintExts(a + ([x] + b))| == |PrintExts([x])| + |PrintExts(a + b)|
  {
    GoodExtsAppend(a, [x] + b);
    GoodExtsAppend([x], b);
    GoodExtsAppend(a, b);
  }

  /** Permuting keeps the printed extensions well-formed and as long as they were. */
  lemma {:induction false} PermutedIsGood(p: seq<Ext>, exts: seq<Ext>)
    requires Permuted(p, exts) && GoodExts(exts)
    ensures GoodExts(p) && |PrintExts(p)| == |PrintExts(exts)|
    decreases |p|
  {
    if p == [] {
      assert |multiset(p)| == 0 == |multiset(exts)|;
    } else {
      var a, b := FirstIn(p, exts);
      OneMoved(a, p[0], b);
      PermutedIsGood(p[1..], a + b);
      GoodExtsAppend([p[0]], p[1..]);
      assert p == [p[0]] + p[1..];
    }
  }

  /** What a client may write as a handshake message. */
  predicate Writable(m: Message) {
    Good(m) && |PrintBody(m)| < 0x1000000
  }

  lemma PermutedIsWritable(m: Message, exts: seq<Ext>, p: seq<Ext>)
    requires m.exts == Some(exts) && Permuted(p, exts) && Writable(m)
    ensures Writable(m.(exts := Some(p)))
  {
    PermutedIsGood(p, exts);
    BodyLength(m);
    BodyLength(m.(exts := Some(p)));
  }

  lemma BodyLength(m: Message)
    requires Good(m)
    ensures |PrintBody(m)| == 38 + |m.session| + |PrintPairs(m.suites)| + |m.compression| + |PrintTail(m)|
  {
  }

  /** The JA4 of what `m` is written as, with `t` behind it; None where it is not parsed. */
  function WrittenJa4(m: Message, t: Bytes, sha: Hash): Option<string> {
    if !Writable(m) then None
    else match Parse(Handshake(PrintBody(m)) + t) case Ok(h) => Some(Ja4(h, sha)) case Err(_) => None
  }

  lemma WrittenIsMeant(m: Message, t: Bytes, sha: Hash)
    requires Writable(m)
    ensures WrittenJa4(m, t, sha) == Some(Ja4(Meaning(m), sha))
  {
    BareRoundTrip(m, t);
  }

  /**
   * From the bytes: a client that writes the same extensions in another order,
   * with anything behind the hello, has the same JA4, whatever the hash.
   */
  lemma Ja4SurvivesReordering(m: Message, exts: seq<Ext>, p: seq<Ext>, t: Bytes, u: Bytes, sha: Hash)
    requires m.exts == Some(exts) && Permuted(p, exts) && Indistinct(m.version, exts) && Writable(m)
    ensures Writable(m.(exts := Some(p)))
    ensures var a, b := Parse(Handshake(PrintBody(m)) + t), Parse(Handshake(PrintBody(m.(exts := Some(p)))) + u);
            a.Ok? && b.Ok? && Ja4(a.value, sha) == Ja4(b.value, sha)
  {
    PermutedIsWritable(m, exts, p);
    BareRoundTrip(m, t);
    BareRoundTrip(m.(exts := Some(p)), u);
    Ja4OfPermuted(EMPTY.(legacyVersion := m.version, cipherSuites := m.suites), exts, p, exts);
  }

  ghost predicate OneWrittenJa4(m: Message, exts: seq<Ext>) {
    forall p, q, t, u, sha: Hash :: Permuted(p, exts) && Permuted(q, exts) ==>
      WrittenJa4(m.(exts := Some(p)), t, sha) == WrittenJa4(m.(exts := Some(q)), u, sha)
  }

  /** The same exactly for the bytes: the condition can be read off the extensions before they are written. */
  lemma OrderIsUnseen(m: Message, exts: seq<Ext>)
    requires m.exts == Some(exts) && Writable(m)
    ensures Indistinct(m.version, exts) <==> OneWrittenJa4(m, exts)
  {
    var h := EMPTY.(legacyVersion := m.version, cipherSuites := m.suites);
    Ja4IgnoresOrder(h, exts);
    forall p, t: Bytes, sha: Hash | Permuted(p, exts)
      ensures WrittenJa4(m.(exts := Some(p)), t, sha) == Some(Ja4(WithAll(h, p), sha))
    {
      PermutedIsWritable(m, exts, p);
      WrittenIsMeant(m.(exts := Some(p)), t, sha);
    }
    WrittenAsMeant(m, h, exts);
  }

  lemma WrittenAsMeant(m: Message, h: Hello, exts: seq<Ext>)
    requires forall p, t: Bytes, sha: Hash :: Permuted(p, exts) ==>
               WrittenJa4(m.(exts := Some(p)), t, sha) == Some(Ja4(WithAll(h, p), sha))
    ensures OneWrittenJa4(m, exts) <==> OneJa4(h, exts)
  {
    forall p, q, sha: Hash | OneWrittenJa4(m, exts) && Permuted(p, exts) && Permuted(q, exts)
      ensures Ja4(WithAll(h, p), sha) == Ja4(WithAll(h, q), sha)
    {
      assert WrittenJa4(m.(exts := Some(p)), [], sha) == WrittenJa4(m.(exts := Some(q)), [], sha);
    }
    forall p, q, t: Bytes, u: Bytes, sha: Hash | OneJa4(h, exts) && Permuted(p, exts) && Permuted(q, exts)
      ensures WrittenJa4(m.(exts := Some(p)), t, sha) == WrittenJa4(m.(exts := Some(q)), u, sha)
    {
      assert SameJa4(WithAll(h, p), WithAll(h, q));
    }
  }

  // ---- inputs ----

  lemma TwoOfAKind(e: Ext, f: Ext)
    requires SameKind(e, f) && e != f
    ensures Permuted([f, e], [e, f]) && !OrderFree([e, f])
  {
    assert e in [e, f] && f in [e, f];
    assert [e, f] == [e] + [f] && [f, e] == [f] + [e];
  }

  /** A client of TLS 1.2 that offers `versions` twice, in two extensions. */
  function TwoOffers(e: Ext, f: Ext): Message {
    Message(0x0303, seq(32, _ => 0), [], [0x1301], [0], Some([e, f]))
  }

  lemma OfferLength(v: U16)
    ensures GoodExt(Versions([v])) && |Data(Versions([v]))| == 3 && |PrintExt(Versions([v]))| == 7
  {
    OneIsTwoBytes(v);
  }

  lemma OneIsTwoBytes(v: U16)
    ensures PrintPairs([v]) == Bytes2(v) && |PrintPairs([v])| == 2
  {
    assert [v][1..] == [] && PrintPairs([]) == [];
  }

  lemma OffersAreGood(v: U16, w: U16)
    ensures var exts := [Versions([v]), Versions([w])]; GoodExts(exts) && |PrintExts(exts)| == 14
  {
    var e, f := Versions([v]), Versions([w]);
    OneOffer(v);
    OneOffer(w);
    GoodExtsAppend([e], [f]);
    assert [e] + [f] == [e, f];
  }

  lemma OneOffer(v: U16)
    ensures GoodExts([Versions([v])]) && |PrintExts([Versions([v])])| == 7
  {
    var e := Versions([v]);
    OfferLength(v);
    assert [e][1..] == [] && PrintExts([]) == [];
  }

  lemma OffersAreWritable(v: U16, w: U16)
    ensures Writable(TwoOffers(Versions([v]), Versions([w])))
  {
    OffersAreGood(v, w);
    OneIsTwoBytes(0x1301);
    BodyLength(TwoOffers(Versions([v]), Versions([w])));
  }

  /** On bytes: the client that offers TLS 1.3 last is seen as 1.3, the other as 1.2. */
  lemma OrderOfVersionsMatters(t: Bytes, u: Bytes, sha: Hash)
    ensures var e, f := Versions([0x0304]), Versions([0x0303]);
            && Permuted([f, e], [e, f]) && Writable(TwoOffers(e, f)) && Writable(TwoOffers(f, e))
            && !Indistinct(0x0303, [e, f])
            && WrittenJa4(TwoOffers(f, e), t, sha) != WrittenJa4(TwoOffers(e, f), u, sha)
  {
    TwoOfAKind(Versions([0x0304]), Versions([0x0303]));
    OffersAreWritable(0x0304, 0x0303);
    OffersAreWritable(0x0303, 0x0304);
    LastOfferWritten(0x0303, 0x0304, t, sha);
    LastOfferWritten(0x0304, 0x0303, u, sha);
    OffersAreDistinct(Versions([0x0304]), Versions([0x0303]));
  }

  lemma OffersAreDistinct(e: Ext, f: Ext)
    requires e == Versions([0x0304]) && f == Versions([0x0303])
    ensures !Indistinct(0x0303, [e, f])
  {
    BestOfOne(0x0304);
    BestOfOne(0x0303);
    assert e in [e, f] && f in [e, f] && SameKind(e, f) && !SameShown(0x0303, e, f);
  }

  lemma BestOfOne(v: U16)
    requires v in [0x0303, 0x0304]
    ensures Best(0x0303, [v]) == v
  {
    assert [v][1..] == [];
  }

  /** The version offered last is the third letter of the fingerprint. */
  lemma LastOfferWritten(v: U16, w: U16, t: Bytes, sha: Hash)
    requires w in [0x0303, 0x0304]
    ensures var j := WrittenJa4(TwoOffers(Versions([v]), Versions([w])), t, sha);
            j.Some? && |j.value| > 2 && j.value[2] == if w == 0x0304 then '3' else '2'
  {
    var m := TwoOffers(Versions([v]), Versions([w]));
    OffersAreWritable(v, w);
    WrittenIsMeant(m, t, sha);
    assert [Versions([v]), Versions([w])] == [Versions([v])] + [Versions([w])];
    LastOfferShows(EMPTY.(legacyVersion := 0x0303, cipherSuites := [0x1301]), [Versions([v])], w, sha);
  }

  lemma LastOfferShows(h: Hello, init: seq<Ext>, v: U16, sha: Hash)
    requires h.legacyVersion == 0x0303 && v in [0x0303, 0x0304]
    ensures |Ja4(WithAll(h, init + [Versions([v])]), sha)| > 2
    ensures Ja4(WithAll(h, init + [Versions([v])]), sha)[2] == if v == 0x0304 then '3' else '2'
  {
    var k := WithAll(h, init + [Versions([v])]);
    WithAllSnoc(h, init, Versions([v]));
    RestIsUnordered(h, init);
    BestOfOne(v);
    VersionShows(k, sha);
  }

  lemma VersionShows(h: Hello, sha: Hash)
    ensures |Ja4(h, sha)| > 2 && Ja4(h, sha)[2] == VersionText(Best(h.legacyVersion, h.supportedVers))[1]
  {
  }

  /** Extensions that differ and show the same: their order changes a list, and no fingerprint. */
  lemma DifferenceUnseen(legacy: U16, e: Ext, f: Ext)
    requires legacy <= 0x0303 && e == Versions([0x0304, 0x0303]) && f == Versions([0x0304])
    ensures !OrderFree([e, f]) && Indistinct(legacy, [e, f])
  {
    TwoOfAKind(e, f);
    assert e.versions[1..] == [0x0303] && [0x0303][1..] == [] && f.versions[1..] == [];
    assert Best(legacy, e.versions) == 0x0304 && Best(legacy, f.versions) == 0x0304;
  }
}
