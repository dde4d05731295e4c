/**
 * The TLS ClientHello parser (internal/upstream/fingerprint_test.go) against the
 * message format of section 4.1.2 of RFC 8446.
 */
module ClientHello {
  import opened Basics

  type U16 = n: int | 0 <= n < 0x10000

  /** The parsed fields, in wire order with GREASE still in. */
  datatype Hello = Hello(
    legacyVersion: U16, cipherSuites: seq<U16>, extensions: seq<U16>, curves: seq<U16>, pointFormats: Bytes,
    supportedVers: seq<U16>, sigAlgs: seq<U16>, alpn: seq<Bytes>, hasSni: bool)

  const EMPTY := Hello(0, [], [], [], [], [], [], [], false)

  datatype Error =
    | RecordTooLong
    | NotClientHello
    | MessageTooLong
    | Truncated(field: Field)

  datatype Field =
    | LegacyVersion | Random | SessionId | CipherSuites | CompressionMethods
    | ExtensionType | ExtensionLength | ExtensionBody

  datatype Result<+T> = Ok(value: T) | Err(error: Error)

  // ---- the specification of the parser ----

  function Pair(hi: Byte, lo: Byte): U16 {
    hi * 0x100 + lo
  }

  function Triple(hi: Byte, mid: Byte, lo: Byte): nat {
    var n: int := hi;
    n * 0x10000 + Pair(mid, lo)
  }

  function Take(b: Bytes, n: nat): Option<(Bytes, Bytes)> {
    if n > |b| then None else Some((b[..n], b[n..]))
  }

  /** A vector behind a length field of one or two bytes. */
  function Vec(b: Bytes, width: nat): Option<(Bytes, Bytes)> {
    if (width != 1 && width != 2) || |b| < width then None
    else Take(b[width..], if width == 1 then b[0] else Pair(b[0], b[1]))
  }

  /** Pairs of bytes; an odd byte at the end is dropped. */
  function Pairs(b: Bytes): seq<U16> {
    if |b| < 2 then [] else [Pair(b[0], b[1])] + Pairs(b[2..])
  }

  function PairsVec(b: Bytes, width: nat): seq<U16> {
    match Vec(b, width) case None => [] case Some((body, _)) => Pairs(body)
  }

  /** Length-prefixed names; one that does not fit ends the list. */
  function Names(b: Bytes): seq<Bytes> {
    if b == [] || 1 + b[0] > |b| then [] else [b[1..1 + b[0]]] + Names(b[1 + b[0]..])
  }

  function NamesVec(b: Bytes): seq<Bytes> {
    match Vec(b, 2) case None => [] case Some((body, _)) => Names(body)
  }

  const SERVER_NAME: U16 := 0x0000
  const SUPPORTED_GROUPS: U16 := 0x000a
  const EC_POINT_FORMATS: U16 := 0x000b
  const SIGNATURE_ALGORITHMS: U16 := 0x000d
  const ALPN: U16 := 0x0010
  const SUPPORTED_VERSIONS: U16 := 0x002b

  /** What one extension adds: its type, and its contents where the fingerprints need them. */
  function Note(h0: Hello, extType: U16, data: Bytes): Hello {
    var h := h0.(extensions := h0.extensions + [extType]);
    if extType == SERVER_NAME then h.(hasSni := true)
    else if extType == SUPPORTED_GROUPS then h.(curves := PairsVec(data, 2))
    else if extType == EC_POINT_FORMATS then
      if data != [] && 1 + data[0] <= |data| then h.(pointFormats := h.pointFormats + data[1..1 + data[0]]) else h
    else if extType == SIGNATURE_ALGORITHMS then h.(sigAlgs := PairsVec(data, 2))
    else if extType == ALPN then h.(alpn := NamesVec(data))
    else if extType == SUPPORTED_VERSIONS then h.(supportedVers := PairsVec(data, 1))
    else h
  }

  function ParseExts(h: Hello, b: Bytes): Result<Hello>
    decreases |b|
  {
    if b == [] then Ok(h)
    else if |b| < 2 then Err(Truncated(ExtensionType))
    else if |b| < 4 then Err(Truncated(ExtensionLength))
    else
      match Take(b[4..], Pair(b[2], b[3]))
      case None => Err(Truncated(ExtensionBody))
      case Some((data, rest)) => ParseExts(Note(h, Pair(b[0], b[1]), data), rest)
  }

  /** After the compression methods: extensions are optional. */
  function ParseTail(h: Hello, b: Bytes): Result<Hello> {
    match Vec(b, 2)
    case None => Ok(h)
    case Some((exts, _)) => ParseExts(h, exts)
  }

  /** The body of the handshake message. */
  function ParseMessage(b: Bytes): Result<Hello> {
    if |b| < 2 then Err(Truncated(LegacyVersion))
    else if |b| < 34 then Err(Truncated(Random))
    else
      match Vec(b[34..], 1)
      case None => Err(Truncated(SessionId))
      case Some((_, b2)) =>
        match Vec(b2, 2)
        case None => Err(Truncated(CipherSuites))
        case Some((suites, b3)) =>
          match Vec(b3, 1)
          case None => Err(Truncated(CompressionMethods))
          case Some((_, b4)) =>
            ParseTail(EMPTY.(legacyVersion := Pair(b[0], b[1]), cipherSuites := Pairs(suites)), b4)
  }

  function ParseHandshake(b: Bytes): Result<Hello> {
    if |b| < 4 || b[0] != 1 then Err(NotClientHello)
    else
      match Take(b[4..], Triple(b[1], b[2], b[3]))
      case None => Err(MessageTooLong)
      case Some((body, _)) => ParseMessage(body)
  }

  /** A TLS record around the handshake is stripped; what follows it is ignored. */
  function Parse(b: Bytes): Result<Hello> {
    if |b| >= 5 && b[0] == 0x16 && b[1] == 3 then
      match Take(b[5..], Pair(b[3], b[4]))
      case None => Err(RecordTooLong)
      case Some((body, _)) => ParseHandshake(body)
    else ParseHandshake(b)
  }

  // ---- messages as clients write them ----

  datatype Ext =
    | ServerName(data: Bytes)
    | Groups(groups: seq<U16>)
    | PointFormats(formats: Bytes)
    | SignatureAlgorithms(algs: seq<U16>)
    | Protocols(names: seq<Bytes>)
    | Versions(versions: seq<U16>)
    | Other(extType: U16, data: Bytes)

  datatype Message = Message(
    version: U16, random: Bytes, session: Bytes, suites: seq<U16>, compression: Bytes, exts: Option<seq<Ext>>)

  function TypeOf(e: Ext): U16 {
    match e
    case ServerName(_) => SERVER_NAME
    case Groups(_) => SUPPORTED_GROUPS
    case PointFormats(_) => EC_POINT_FORMATS
    case SignatureAlgorithms(_) => SIGNATURE_ALGORITHMS
    case Protocols(_) => ALPN
    case Versions(_) => SUPPORTED_VERSIONS
    case Other(t, _) => t
  }

  function Bytes2(n: U16): Bytes {
    [n / 0x100, n % 0x100]
  }

  function PrintPairs(vs: seq<U16>): Bytes {
    if vs == [] then [] else Bytes2(vs[0]) + PrintPairs(vs[1..])
  }

  predicate Fits(names: seq<Bytes>) {
    names == [] || (|names[0]| < 0x100 && Fits(names[1..]))
  }

  function PrintNames(names: seq<Bytes>): Bytes
    requires Fits(names)
  {
    if names == [] then [] else [|names[0]|] + names[0] + PrintNames(names[1..])
  }

  predicate Short(b: Bytes) {
    |b| < 0x100
  }

  predicate Long(b: Bytes) {
    |b| < 0x10000
  }

  function Vec1(b: Bytes): Bytes
    requires Short(b)
  {
    [|b|] + b
  }

  function Vec2(b: Bytes): Bytes
    requires Long(b)
  {
    Bytes2(|b|) + b
  }

  /** The contents of an extension fit their length fields; Other is none of the types above. */
  predicate GoodExt(e: Ext) {
    && match e
       case ServerName(_) => true
       case Groups(groups) => Long(PrintPairs(groups))
       case PointFormats(formats) => Short(formats)
       case SignatureAlgorithms(algs) => Long(PrintPairs(algs))
       case Protocols(names) => Fits(names) && Long(PrintNames(names))
       case Versions(versions) => Short(PrintPairs(versions))
       case Other(t, _) => t !in {SERVER_NAME, SUPPORTED_GROUPS, EC_POINT_FORMATS, SIGNATURE_ALGORITHMS, ALPN,
                                  SUPPORTED_VERSIONS}
  }

  function Data(e: Ext): Bytes
    requires GoodExt(e)
  {
    match e
    case ServerName(data) => data
    case Groups(groups) => Vec2(PrintPairs(groups))
    case PointFormats(formats) => Vec1(formats)
    case SignatureAlgorithms(algs) => Vec2(PrintPairs(algs))
    case Protocols(names) => Vec2(PrintNames(names))
    case Versions(versions) => Vec1(PrintPairs(versions))
    case Other(_, data) => data
  }

  predicate GoodExts(exts: seq<Ext>) {
    exts == [] || (GoodExt(exts[0]) && Long(Data(exts[0])) && GoodExts(exts[1..]))
  }

  function PrintExt(e: Ext): Bytes
    requires GoodExt(e) && Long(Data(e))
  {
    Bytes2(TypeOf(e)) + Vec2(Data(e))
  }

  function PrintExts(exts: seq<Ext>): Bytes
    requires GoodExts(exts)
  {
    if exts == [] then [] else PrintExt(exts[0]) + PrintExts(exts[1..])
  }

  predicate Good(m: Message) {
    && |m.random| == 32 && Short(m.session) && Long(PrintPairs(m.suites)) && Short(m.compression)
    && (m.exts.Some? ==> GoodExts(m.exts.value) && Long(PrintExts(m.exts.value)))
  }

  function PrintTail(m: Message): Bytes
    requires Good(m)
  {
    if m.exts.Some? then Vec2(PrintExts(m.exts.value)) else []
  }

  function PrintBody(m: Message): Bytes
    requires Good(m)
  {
    Bytes2(m.version)
    + (m.random + (Vec1(m.session) + (Vec2(PrintPairs(m.suites)) + (Vec1(m.compression) + PrintTail(m)))))
  }

  function Handshake(body: Bytes): Bytes
    requires |body| < 0x1000000
  {
    [1, |body| / 0x10000, |body| / 0x100 % 0x100, |body| % 0x100] + body
  }

  function Record(minor: Byte, fragment: Bytes): Bytes
    requires Long(fragment)
  {
    [0x16, 3, minor] + Vec2(fragment)
  }

  // ---- what a message means ----

  /** Lists of a repeated extension: the last one counts, point formats accumulate. */
  function With(h0: Hello, e: Ext): Hello {
    var h := h0.(extensions := h0.extensions + [TypeOf(e)]);
    match e
    case ServerName(_) => h.(hasSni := true)
    case Groups(groups) => h.(curves := groups)
    case PointFormats(formats) => h.(pointFormats := h.pointFormats + formats)
    case SignatureAlgorithms(algs) => h.(sigAlgs := algs)
    case Protocols(names) => h.(alpn := names)
    case Versions(versions) => h.(supportedVers := versions)
    case Other(_, _) => h
  }

  function WithAll(h: Hello, exts: seq<Ext>): Hello
    decreases |exts|
  {
    if exts == [] then h else WithAll(With(h, exts[0]), exts[1..])
  }

  function Meaning(m: Message): Hello {
    WithAll(EMPTY.(legacyVersion := m.version, cipherSuites := m.suites), if m.exts.Some? then m.exts.value else [])
  }

  // ---- round trips ----

  lemma TakeBack(b: Bytes, t: Bytes)
    ensures Take(b + t, |b|) == Some((b, t))
  {
    assert (b + t)[..|b|] == b && (b + t)[|b|..] == t;
  }

  lemma Vec1Back(b: Bytes, t: Bytes)
    requires Short(b)
    ensures Vec(Vec1(b) + t, 1) == Some((b, t))
  {
    assert (Vec1(b) + t)[1..] == b + t;
    TakeBack(b, t);
  }

  lemma PairBack(n: U16)
    ensures Pair(n / 0x100, n % 0x100) == n
  {
  }

  lemma Vec2Back(b: Bytes, t: Bytes)
    requires Long(b)
    ensures Vec(Vec2(b) + t, 2) == Some((b, t))
  {
    var all := Vec2(b) + t;
    assert all[2..] == b + t && all[0] == |b| / 0x100 && all[1] == |b| % 0x100;
    PairBack(|b|);
    TakeBack(b, t);
  }

  lemma {:induction false} PairsBack(vs: seq<U16>)
    ensures Pairs(PrintPairs(vs)) == vs
  {
    if vs != [] {
      var all := PrintPairs(vs);
      assert all[2..] == PrintPairs(vs[1..]) && all[0] == vs[0] / 0x100 && all[1] == vs[0] % 0x100;
      PairBack(vs[0]);
      PairsBack(vs[1..]);
      assert [vs[0]] + vs[1..] == vs;
    }
  }

  lemma {:induction false} NamesBack(names: seq<Bytes>)
    requires Fits(names)
    ensures Names(PrintNames(names)) == names
  {
    if names != [] {
      var first, more := names[0], PrintNames(names[1..]);
      var all := PrintNames(names);
      assert all == [|first|] + (first + more);
      assert all[1..1 + |first|] == first && all[1 + |first|..] == more;
      NamesBack(names[1..]);
      assert [first] + names[1..] == names;
    }
  }

  lemma WholeVec(b: Bytes)
    ensures Short(b) ==> Vec(Vec1(b), 1) == Some((b, []))
    ensures Long(b) ==> Vec(Vec2(b), 2) == Some((b, []))
  {
    if Short(b) {
      Vec1Back(b, []);
      assert Vec1(b) + [] == Vec1(b);
    }
    if Long(b) {
      Vec2Back(b, []);
      assert Vec2(b) + [] == Vec2(b);
    }
  }

  lemma GroupsBack(h: Hello, groups: seq<U16>)
    requires GoodExt(Groups(groups))
    ensures Note(h, SUPPORTED_GROUPS, Data(Groups(groups))) == With(h, Groups(groups))
  {
    WholeVec(PrintPairs(groups));
    PairsBack(groups);
  }

  lemma PointFormatsBack(h: Hello, formats: Bytes)
    requires GoodExt(PointFormats(formats))
    ensures Note(h, EC_POINT_FORMATS, Data(PointFormats(formats))) == With(h, PointFormats(formats))
  {
    var data := [|formats|] + formats;
    assert data[1..1 + data[0]] == formats;
  }

  lemma SignatureAlgorithmsBack(h: Hello, algs: seq<U16>)
    requires GoodExt(SignatureAlgorithms(algs))
    ensures Note(h, SIGNATURE_ALGORITHMS, Data(SignatureAlgorithms(algs))) == With(h, SignatureAlgorithms(algs))
  {
    WholeVec(PrintPairs(algs));
    PairsBack(algs);
  }

  lemma ProtocolsBack(h: Hello, names: seq<Bytes>)
    requires GoodExt(Protocols(names))
    ensures Note(h, ALPN, Data(Protocols(names))) == With(h, Protocols(names))
  {
    WholeVec(PrintNames(names));
    NamesBack(names);
  }

  lemma VersionsBack(h: Hello, versions: seq<U16>)
    requires GoodExt(Versions(versions))
    ensures Note(h, SUPPORTED_VERSIONS, Data(Versions(versions))) == With(h, Versions(versions))
  {
    WholeVec(PrintPairs(versions));
    PairsBack(versions);
  }

  lemma OtherBack(h: Hello, t: U16, data: Bytes)
    requires GoodExt(Other(t, data))
    ensures Note(h, t, data) == With(h, Other(t, data))
  {
  }

  /** Decoding the bytes of an extension is what the extension says. */
  lemma NoteIsWith(h: Hello, e: Ext)
    requires GoodExt(e)
    ensures Note(h, TypeOf(e), Data(e)) == With(h, e)
  {
    match e
    case ServerName(_) =>
    case Groups(groups) => GroupsBack(h, groups);
    case PointFormats(formats) => PointFormatsBack(h, formats);
    case SignatureAlgorithms(algs) => SignatureAlgorithmsBack(h, algs);
    case Protocols(names) => ProtocolsBack(h, names);
    case Versions(versions) => VersionsBack(h, versions);
    case Other(t, data) => OtherBack(h, t, data);
  }

  lemma {:induction false} ExtsBack(h: Hello, exts: seq<Ext>)
    requires GoodExts(exts)
    ensures ParseExts(h, PrintExts(exts)) == Ok(WithAll(h, exts))
    decreases |exts|
  {
    if exts != [] {
      NoteIsWith(h, exts[0]);
      ExtsBack(With(h, exts[0]), exts[1..]);
      OneExtBack(h, TypeOf(exts[0]), Data(exts[0]), PrintExts(exts[1..]));
    }
  }

  lemma OneExtBack(h: Hello, extType: U16, data: Bytes, more: Bytes)
    requires Long(data)
    ensures ParseExts(h, Bytes2(extType) + Vec2(data) + more) == ParseExts(Note(h, extType, data), more)
  {
    var all := Bytes2(extType) + Vec2(data) + more;
    assert all[4..] == data + more;
    assert all[0] == extType / 0x100 && all[1] == extType % 0x100;
    assert all[2] == |data| / 0x100 && all[3] == |data| % 0x100;
    PairBack(extType);
    PairBack(|data|);
    TakeBack(data, more);
  }

  lemma MessageBack(m: Message)
    requires Good(m)
    ensures ParseMessage(PrintBody(m)) == Ok(Meaning(m))
  {
    var tail := PrintTail(m);
    var b3 := Vec1(m.compression) + tail;
    var b2 := Vec2(PrintPairs(m.suites)) + b3;
    var b := PrintBody(m);
    assert b[34..] == Vec1(m.session) + b2;
    assert b[0] == m.version / 0x100 && b[1] == m.version % 0x100;
    PairBack(m.version);
    Vec1Back(m.session, b2);
    Vec2Back(PrintPairs(m.suites), b3);
    PairsBack(m.suites);
    Vec1Back(m.compression, tail);
    TailBack(EMPTY.(legacyVersion := m.version, cipherSuites := m.suites), m);
  }

  lemma TailBack(h: Hello, m: Message)
    requires Good(m)
    ensures ParseTail(h, PrintTail(m)) == Ok(WithAll(h, if m.exts.Some? then m.exts.value else []))
  {
    if m.exts.Some? {
      WholeVec(PrintExts(m.exts.value));
      ExtsBack(h, m.exts.value);
    }
  }

  lemma HandshakeBack(body: Bytes, t: Bytes)
    requires |body| < 0x1000000
    ensures ParseHandshake(Handshake(body) + t) == ParseMessage(body)
  {
    var b := Handshake(body) + t;
    assert b[4..] == body + t;
    LengthBack(|body|);
    TakeBack(body, t);
  }

  lemma LengthBack(n: int)
    requires 0 <= n < 0x1000000
    ensures n / 0x10000 * 0x10000 + n / 0x100 % 0x100 * 0x100 + n % 0x100 == n
  {
    assert n / 0x100 / 0x100 == n / 0x10000;
  }

  /** Parsing any serialised ClientHello, with anything behind it, recovers what it says. */
  lemma BareRoundTrip(m: Message, t: Bytes)
    requires Good(m) && |PrintBody(m)| < 0x1000000
    ensures Parse(Handshake(PrintBody(m)) + t) == Ok(Meaning(m))
  {
    MessageBack(m);
    HandshakeBack(PrintBody(m), t);
  }

  lemma RecordBack(minor: Byte, fragment: Bytes, after: Bytes)
    requires Long(fragment)
    ensures Parse(Record(minor, fragment) + after) == ParseHandshake(fragment)
  {
    var b := Record(minor, fragment) + after;
    assert b[5..] == fragment + after;
    assert b[3] == |fragment| / 0x100 && b[4] == |fragment| % 0x100;
    PairBack(|fragment|);
    TakeBack(fragment, after);
  }

  /** And so does parsing it inside a TLS record of any minor version. */
  lemma RecordRoundTrip(m: Message, minor: Byte, t: Bytes, after: Bytes)
    requires Good(m) && |PrintBody(m)| < 0x1000000 && Long(Handshake(PrintBody(m)) + t)
    ensures Parse(Record(minor, Handshake(PrintBody(m)) + t) + after) == Ok(Meaning(m))
  {
    RecordBack(minor, Handshake(PrintBody(m)) + t, after);
    MessageBack(m);
    HandshakeBack(PrintBody(m), t);
  }

  /** Extension types come out in wire order. */
  lemma {:induction false} TypesInOrder(h: Hello, exts: seq<Ext>)
    ensures WithAll(h, exts).extensions == h.extensions + Types(exts)
    decreases |exts|
  {
    if exts == [] {
      assert h.extensions + [] == h.extensions;
    } else {
      TypesInOrder(With(h, exts[0]), exts[1..]);
      assert With(h, exts[0]).extensions == h.extensions + [TypeOf(exts[0])];
      Associate(h.extensions, [TypeOf(exts[0])], Types(exts[1..]));
    }
  }

  function Types(exts: seq<Ext>): seq<U16> {
    if exts == [] then [] else [TypeOf(exts[0])] + Types(exts[1..])
  }
}
