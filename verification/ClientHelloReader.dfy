/** The ClientHello parser as it runs (internal/upstream/fingerprint_test.go): a reader that advances its slice. */
module ClientHelloReader {
  import opened Basics
  import opened ClientHello

  class Reader {
    var b: Bytes

    constructor (b: Bytes)
      ensures this.b == b
    {
      this.b := b;
    }

    method Take(n: nat) returns (out: Option<Bytes>)
      modifies this
      ensures match ClientHello.Take(old(b), n)
              case None => out == None && b == old(b)
              case Some((taken, rest)) => out == Some(taken) && b == rest
    {
      if n > |b| {
        return None;
      }
      out, b := Some(b[..n]), b[n..];
    }

    method U16() returns (v: Option<U16>)
      modifies this
      ensures if |old(b)| < 2 then v == None && b == old(b)
              else v == Some(Pair(old(b)[0], old(b)[1])) && b == old(b)[2..]
    {
      var two := Take(2);
      if two.None? {
        return None;
      }
      v := Some(Pair(two.value[0], two.value[1]));
    }

    /** `vec`: the length field is consumed even when the body behind it is short. */
    method Vec(width: nat) returns (body: Option<Bytes>)
      modifies this
      ensures match ClientHello.Vec(old(b), width)
              case None => body == None
              case Some((taken, rest)) => body == Some(taken) && b == rest
    {
      var n: nat;
      if width == 1 {
        var v := Take(1);
        if v.None? {
          return None;
        }
        n := v.value[0];
      } else if width == 2 {
        var v := U16();
        if v.None? {
          return None;
        }
        n := v.value;
      } else {
        return None;
      }
      body := Take(n);
    }
  }

  // ---- loops over a vector ----

  lemma PairsNext(b: Bytes, i: nat)
    requires 2 * i + 1 < |b|
    ensures Pairs(b[2 * i..]) == [Pair(b[2 * i], b[2 * i + 1])] + Pairs(b[2 * (i + 1)..])
  {
    assert b[2 * i..][2..] == b[2 * (i + 1)..];
  }

  method ReadPairs(b: Bytes) returns (out: seq<U16>)
    ensures out == Pairs(b)
  {
    out := [];
    var i := 0;
    assert b[0..] == b;
    while 2 * i + 1 < |b|
      invariant 2 * i <= |b| && Pairs(b) == out + Pairs(b[2 * i..])
    {
      PairsNext(b, i);
      Associate(out, [Pair(b[2 * i], b[2 * i + 1])], Pairs(b[2 * (i + 1)..]));
      out := out + [Pair(b[2 * i], b[2 * i + 1])];
      i := i + 1;
    }
  }

  /** `readU16Vec`. */
  method ReadU16Vec(b: Bytes, width: nat) returns (out: seq<U16>)
    ensures out == PairsVec(b, width)
  {
    var r := new Reader(b);
    var body := r.Vec(width);
    if body.None? {
      return [];
    }
    out := ReadPairs(body.value);
  }

  /** `readALPN`. */
  method ReadAlpn(b: Bytes) returns (out: seq<Bytes>)
    ensures out == NamesVec(b)
  {
    var r := new Reader(b);
    var vec := r.Vec(2);
    if vec.None? {
      return [];
    }
    var body := vec.value;
    out := [];
    var i := 0;
    assert body[0..] == body;
    while i < |body|
      invariant i <= |body| && Names(body) == out + Names(body[i..])
    {
      var n := body[i];
      if i + 1 + n > |body| {
        break;
      }
      assert body[i..][1 + n..] == body[i + 1 + n..] && body[i..][1..1 + n] == body[i + 1..i + 1 + n];
      out := out + [body[i + 1..i + 1 + n]];
      i := i + 1 + n;
    }
    assert out + [] == out;
  }

  // ---- the parser ----

  /** `parseExtensions`. */
  method ParseExtensions(h0: Hello, b: Bytes) returns (result: Result<Hello>)
    ensures result == ParseExts(h0, b)
  {
    var h := h0;
    var r := new Reader(b);
    while |r.b| > 0
      invariant ParseExts(h0, b) == ParseExts(h, r.b)
      decreases |r.b|
    {
      ghost var before := r.b;
      var extType := r.U16();
      if extType.None? {
        return Err(Truncated(ExtensionType));
      }
      var extLen := r.U16();
      if extLen.None? {
        return Err(Truncated(ExtensionLength));
      }
      assert r.b == before[4..];
      var data := r.Take(extLen.value);
      if data.None? {
        return Err(Truncated(ExtensionBody));
      }
      h := NoteExtension(h, extType.value, data.value);
    }
    result := Ok(h);
  }

  method NoteExtension(h0: Hello, extType: U16, data: Bytes) returns (h: Hello)
    ensures h == Note(h0, extType, data)
  {
    h := h0.(extensions := h0.extensions + [extType]);
    if extType == SERVER_NAME {
      h := h.(hasSni := true);
    } else if extType == SUPPORTED_GROUPS {
      var vs := ReadU16Vec(data, 2);
      h := h.(curves := vs);
    } else if extType == EC_POINT_FORMATS {
      if |data| > 0 {
        var n := data[0];
        if 1 + n <= |data| {
          h := h.(pointFormats := h.pointFormats + data[1..1 + n]);
        }
      }
    } else if extType == SIGNATURE_ALGORITHMS {
      var vs := ReadU16Vec(data, 2);
      h := h.(sigAlgs := vs);
    } else if extType == ALPN {
      var names := ReadAlpn(data);
      h := h.(alpn := names);
    } else if extType == SUPPORTED_VERSIONS {
      var vs := ReadU16Vec(data, 1);
      h := h.(supportedVers := vs);
    }
  }

  /** The message body after the handshake header. */
  method ReadMessage(b: Bytes) returns (result: Result<Hello>)
    ensures result == ParseMessage(b)
  {
    var r := new Reader(b);
    var version := r.U16();
    if version.None? {
      return Err(Truncated(LegacyVersion));
    }
    var random := r.Take(32);
    if random.None? {
      return Err(Truncated(Random));
    }
    assert r.b == b[34..];
    var session := r.Vec(1);
    if session.None? {
      return Err(Truncated(SessionId));
    }
    var cs := r.Vec(2);
    if cs.None? {
      return Err(Truncated(CipherSuites));
    }
    var suites := ReadPairs(cs.value);
    var compression := r.Vec(1);
    if compression.None? {
      return Err(Truncated(CompressionMethods));
    }
    var h := EMPTY.(legacyVersion := version.value, cipherSuites := suites);
    var exts := r.Vec(2);
    if exts.None? {
      return Ok(h);
    }
    result := ParseExtensions(h, exts.value);
  }

  /** `parseClientHello`. */
  method ParseClientHello(input: Bytes) returns (result: Result<Hello>)
    ensures result == Parse(input)
  {
    var b := input;
    if |b| >= 5 && b[0] == 0x16 && b[1] == 3 {
      var recLen := Pair(b[3], b[4]);
      if 5 + recLen > |b| {
        return Err(RecordTooLong);
      }
      assert b[5..][..recLen] == b[5..5 + recLen];
      b := b[5..5 + recLen];
    }
    if |b| < 4 || b[0] != 1 {
      return Err(NotClientHello);
    }
    var msgLen := Triple(b[1], b[2], b[3]);
    b := b[4..];
    if |b| < msgLen {
      return Err(MessageTooLong);
    }
    result := ReadMessage(b[..msgLen]);
  }
}
