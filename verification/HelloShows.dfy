/**
 * What a ClientHello is read as, part by part (`parseClientHello` in
 * internal/upstream/fingerprint_test.go), with the code points of the standards.
 */
module HelloShows {
  import opened Basics
  import opened ClientHello
  import opened HelloOrder
  import Lists

  // ---- extensions ----

  /** The code points of the extensions whose contents are read. */
  predicate HasCode(e: Ext, code: U16) {
    match e
    case ServerName(_) => code == 0x0000
    case Groups(_) => code == 0x000a
    case PointFormats(_) => code == 0x000b
    case SignatureAlgorithms(_) => code == 0x000d
    case Protocols(_) => code == 0x0010
    case Versions(_) => code == 0x002b
    case Other(t, _) => code == t
  }

  predicate IsGroups(e: Ext) {
    e.Groups?
  }

  predicate IsSignatures(e: Ext) {
    e.SignatureAlgorithms?
  }

  predicate IsProtocols(e: Ext) {
    e.Protocols?
  }

  predicate IsVersions(e: Ext) {
    e.Versions?
  }

  /** The last extension of a kind. */
  ghost predicate LastAt(exts: seq<Ext>, kind: Ext -> bool, i: nat) {
    i < |exts| && kind(exts[i]) && forall j :: i < j < |exts| ==> !kind(exts[j])
  }

  ghost predicate Absent(exts: seq<Ext>, kind: Ext -> bool) {
    forall i :: 0 <= i < |exts| ==> !kind(exts[i])
  }

  /** Each list is that of the last extension of its kind, and empty where there is none. */
  ghost predicate ListsShow(exts: seq<Ext>, h: Hello) {
    && (Absent(exts, IsGroups) ==> h.curves == [])
    && (forall i: nat :: LastAt(exts, IsGroups, i) ==> h.curves == exts[i].groups)
    && (Absent(exts, IsSignatures) ==> h.sigAlgs == [])
    && (forall i: nat :: LastAt(exts, IsSignatures, i) ==> h.sigAlgs == exts[i].algs)
    && (Absent(exts, IsProtocols) ==> h.alpn == [])
    && (forall i: nat :: LastAt(exts, IsProtocols, i) ==> h.alpn == exts[i].names)
    && (Absent(exts, IsVersions) ==> h.supportedVers == [])
    && (forall i: nat :: LastAt(exts, IsVersions, i) ==> h.supportedVers == exts[i].versions)
  }

  /** What an extension adds to the point formats. */
  function FormatPart(e: Ext): Bytes {
    if e.PointFormats? then e.formats else []
  }

  function FormatParts(exts: seq<Ext>): seq<Bytes> {
    seq(|exts|, i requires 0 <= i < |exts| => FormatPart(exts[i]))
  }

  ghost predicate ExtensionsShow(exts: seq<Ext>, h: Hello) {
    && |h.extensions| == |exts| && (forall i :: 0 <= i < |exts| ==> HasCode(exts[i], h.extensions[i]))
    && (h.hasSni <==> exists i :: 0 <= i < |exts| && exts[i].ServerName?)
    && ListsShow(exts, h)
    && (exists at :: Lists.Concatenates(FormatParts(exts), h.pointFormats, at))
  }

  /** The hello is the message: version, ciphers, and its extensions in order with what they say. */
  ghost predicate Shows(m: Message, h: Hello) {
    && h.legacyVersion == m.version && h.cipherSuites == m.suites
    && ExtensionsShow(if m.exts.Some? then m.exts.value else [], h)
  }

  // ---- one extension more ----

  lemma LastNext(init: seq<Ext>, e: Ext, kind: Ext -> bool)
    ensures Absent(init + [e], kind) <==> Absent(init, kind) && !kind(e)
    ensures forall i: nat :: LastAt(init + [e], kind, i)
                             <==> (if kind(e) then i == |init| else LastAt(init, kind, i))
  {
    var all := init + [e];
    assert forall i :: 0 <= i < |init| ==> all[i] == init[i];
    assert all[|init|] == e;
  }

  lemma ListsNext(init: seq<Ext>, e: Ext, h: Hello)
    requires ListsShow(init, h)
    ensures ListsShow(init + [e], With(h, e))
  {
    LastNext(init, e, IsGroups);
    LastNext(init, e, IsSignatures);
    LastNext(init, e, IsProtocols);
    LastNext(init, e, IsVersions);
  }

  lemma {:induction false} AllListsShow(h: Hello, exts: seq<Ext>)
    requires h.curves == [] && h.sigAlgs == [] && h.alpn == [] && h.supportedVers == []
    ensures ListsShow(exts, WithAll(h, exts))
    decreases |exts|
  {
    if exts != [] {
      var init, e := exts[..|exts| - 1], exts[|exts| - 1];
      assert exts == init + [e];
      AllListsShow(h, init);
      ListsNext(init, e, WithAll(h, init));
      WithAllSnoc(h, init, e);
    }
  }

  lemma {:induction false} TypesAreCodes(exts: seq<Ext>)
    ensures |Types(exts)| == |exts| && forall i :: 0 <= i < |exts| ==> HasCode(exts[i], Types(exts)[i])
  {
    if exts != [] { TypesAreCodes(exts[1..]); }
  }

  function FormatsOf(exts: seq<Ext>): Bytes {
    if exts == [] then []
    else FormatPart(exts[0]) + FormatsOf(exts[1..])
  }

  lemma FormatNext(h: Hello, e: Ext)
    ensures With(h, e).pointFormats == h.pointFormats + FormatPart(e)
  {
    assert h.pointFormats + [] == h.pointFormats;
  }

  lemma {:induction false} FormatsAccumulate(h: Hello, exts: seq<Ext>)
    ensures WithAll(h, exts).pointFormats == h.pointFormats + FormatsOf(exts)
    decreases |exts|
  {
    if exts == [] {
      assert h.pointFormats + [] == h.pointFormats;
    } else {
      var part := FormatPart(exts[0]);
      FormatsAccumulate(With(h, exts[0]), exts[1..]);
      FormatNext(h, exts[0]);
      Associate(h.pointFormats, part, FormatsOf(exts[1..]));
    }
  }

  lemma {:induction false} FormatsInOrder(exts: seq<Ext>) returns (at: seq<nat>)
    ensures Lists.Concatenates(FormatParts(exts), FormatsOf(exts), at)
  {
    at := [];
    if exts != [] {
      at := FormatsInOrder(exts[1..]);
      var part := FormatPart(exts[0]);
      Lists.ConcatenatesNext(part, FormatParts(exts[1..]), FormatsOf(exts[1..]), at);
      assert FormatParts(exts) == [part] + FormatParts(exts[1..]);
      at := [0] + Lists.Shifted(at, |part|);
    }
  }

  lemma FormatsShow(h: Hello, exts: seq<Ext>)
    requires h.pointFormats == []
    ensures exists at :: Lists.Concatenates(FormatParts(exts), WithAll(h, exts).pointFormats, at)
  {
    FormatsAccumulate(h, exts);
    assert [] + FormatsOf(exts) == FormatsOf(exts);
    var at := FormatsInOrder(exts);
  }

  lemma CodesShow(h: Hello, exts: seq<Ext>)
    requires h.extensions == []
    ensures var codes := WithAll(h, exts).extensions;
            |codes| == |exts| && forall i :: 0 <= i < |exts| ==> HasCode(exts[i], codes[i])
  {
    TypesInOrder(h, exts);
    TypesAreCodes(exts);
    assert [] + Types(exts) == Types(exts);
  }

  lemma SniShows(h: Hello, exts: seq<Ext>)
    requires !h.hasSni
    ensures WithAll(h, exts).hasSni <==> exists i :: 0 <= i < |exts| && exts[i].ServerName?
  {
    RestIsUnordered(h, exts);
    if i :| 0 <= i < |exts| && exts[i].ServerName? { assert exts[i] in exts; }
  }

  lemma MeaningShows(m: Message)
    ensures Shows(m, Meaning(m))
  {
    var exts := if m.exts.Some? then m.exts.value else [];
    var h := EMPTY.(legacyVersion := m.version, cipherSuites := m.suites);
    RestIsUnordered(h, exts);
    AllListsShow(h, exts);
    CodesShow(h, exts);
    SniShows(h, exts);
    FormatsShow(h, exts);
  }

  /** Any hello a client can write, with anything behind it, is read as what it says. */
  lemma HelloIsRead(m: Message, t: Bytes)
    requires Writable(m)
    ensures Parse(Handshake(PrintBody(m)) + t).Ok? && Shows(m, Parse(Handshake(PrintBody(m)) + t).value)
  {
    BareRoundTrip(m, t);
    MeaningShows(m);
  }

  // ---- the bytes it is written in ----

  /** Numbers are written most significant octet first. */
  lemma NetworkOrder(n: U16)
    ensures |Bytes2(n)| == 2 && 0x100 * (Bytes2(n)[0] as int) + Bytes2(n)[1] == n
  {
  }

  /** An extension is its code point, the length of its contents, and its contents. */
  lemma ExtensionBytes(e: Ext)
    requires GoodExt(e) && Long(Data(e))
    ensures var b := PrintExt(e);
            && |b| == 4 + |Data(e)| && b[4..] == Data(e) && 0x100 * (b[2] as int) + b[3] == |Data(e)|
            && HasCode(e, 0x100 * (b[0] as int) + b[1])
  {
    NetworkOrder(TypeOf(e));
    NetworkOrder(|Data(e)|);
  }
}
