/**
 * `h2conn`, the write side of an HTTP/2 connection as an object: the framer and
 * the shared encoder behind one lock (internal/capture/http2.go). Each method is
 * tied to the functions the step system is built from.
 */
module Http2Writer {
  import opened Basics
  import opened Http2Wire
  import opened Http2Engine

  /** `wire` after writing as many of `frames` as the connection still accepts. */
  function Clip(limit: nat, wire: seq<OutFrame>, frames: seq<OutFrame>): seq<OutFrame> {
    if |wire| + |frames| <= limit then wire + frames
    else if |wire| <= limit then wire + frames[..limit - |wire|]
    else wire
  }

  lemma ClipAppend(limit: nat, wire: seq<OutFrame>, a: seq<OutFrame>, b: seq<OutFrame>)
    requires |wire| + |a| <= limit
    ensures Clip(limit, wire, a + b) == Clip(limit, wire + a, b)
  {
    if |wire| + |a + b| <= limit {
      assert wire + (a + b) == (wire + a) + b;
    } else {
      assert wire + (a + b)[..limit - |wire|] == (wire + a) + b[..limit - |wire + a|];
    }
  }

  lemma ClipNothing(limit: nat, wire: seq<OutFrame>)
    requires |wire| <= limit
    ensures Clip(limit, wire, []) == wire
  {
  }

  lemma ClipClip(limit: nat, wire: seq<OutFrame>, a: seq<OutFrame>, b: seq<OutFrame>)
    requires |wire| <= limit
    ensures Clip(limit, Clip(limit, wire, a), b) == Clip(limit, wire, a + b)
  {
    if |wire| + |a| <= limit {
      ClipAppend(limit, wire, a, b);
    } else {
      assert (a + b)[..limit - |wire|] == a[..limit - |wire|];
      assert Clip(limit, wire, a) + b[..0] == Clip(limit, wire, a);
    }
  }

  lemma ClipTwo(limit: nat, wire: seq<OutFrame>, a: OutFrame, b: OutFrame)
    requires |wire| <= limit
    ensures Clip(limit, Clip(limit, wire, [a]), [b]) == Clip(limit, wire, [a, b])
    ensures Clip(limit, wire, []) == wire
  {
    if |wire| < limit {
      ClipAppend(limit, wire, [a], [b]);
      assert [a] + [b] == [a, b];
    } else {
      assert wire + [a, b][..0] == wire && wire + [a][..0] == wire && wire + [b][..0] == wire;
    }
  }

  /** The first frame of a response carries the answer's fields to a decoder in the encoder's state. */
  lemma FirstFrameCarries(c: Hpack, limit: nat, was: seq<OutFrame>, t: Table, id: nat, resp: Response)
    ensures var frames := ResponseFrames(c, t, id, resp);
            var now := Clip(limit, was, frames);
            Lawful(c) && |was| + |frames| <= limit ==>
              && |was| < |now| && now[|was|].HeadersOut? && now[|was|].id == id
              && Carries(c, t, now[|was|].block, EncodeBlock(c, t, ResponseFields(resp)).0, resp)
  {
    if Lawful(c) { BlockCarries(c, t, resp); }
  }

  /** `h2conn`: each method is one critical section of its write lock. */
  class FrameWriter {
    const codec: Hpack
    const limit: nat
    var wire: seq<OutFrame>
    var failed: bool
    var table: Table
    var encBuf: seq<Rep>

    ghost predicate Valid()
      reads this
    {
      |wire| <= limit && (failed ==> |wire| == limit)
    }

    constructor (codec: Hpack, limit: nat)
      ensures Valid() && this.codec == codec && this.limit == limit && wire == [] && !failed && table == []
    {
      this.codec, this.limit := codec, limit;
      wire, failed, table, encBuf := [], false, [], [];
    }

    /** The framer's write: a connection that has refused one frame refuses all. */
    method WriteFrame(f: OutFrame) returns (ok: bool)
      requires Valid()
      modifies this`wire, this`failed
      ensures Valid()
      ensures ok == (|old(wire)| < limit) && failed == (old(failed) || !ok)
      ensures wire == Clip(limit, old(wire), [f])
    {
      ok := |wire| < limit;
      if ok {
        wire := wire + [f];
      } else {
        failed := true;
      }
    }

    method SettingsAck()
      requires Valid()
      modifies this`wire, this`failed
      ensures Valid() && wire == Clip(limit, old(wire), [SettingsAckOut])
    {
      var _ := WriteFrame(SettingsAckOut);
    }

    method WindowUpdate(id: nat, n: nat)
      requires Valid()
      modifies this`wire, this`failed
      ensures Valid() && wire == Clip(limit, old(wire), [WindowUpdateOut(id, n)])
    {
      var _ := WriteFrame(WindowUpdateOut(id, n));
    }

    method PingAck(data: Bytes)
      requires Valid()
      modifies this`wire, this`failed
      ensures Valid() && wire == Clip(limit, old(wire), [PingAckOut(data)])
    {
      var _ := WriteFrame(PingAckOut(data));
    }

    method RstStream(id: nat)
      requires Valid()
      modifies this`wire, this`failed
      ensures Valid() && wire == Clip(limit, old(wire), [RstOut(id)])
    {
      var _ := WriteFrame(RstOut(id));
    }

    /** `enc.WriteField`. */
    method WriteField(h: Header)
      modifies this`table, this`encBuf
      ensures table == codec.encode(old(table), h).0
      ensures encBuf == old(encBuf) + [codec.encode(old(table), h).1]
    {
      var (t, rep) := codec.encode(table, h);
      table, encBuf := t, encBuf + [rep];
    }

    method WriteData(id: nat, body: Bytes) returns (ok: bool)
      requires Valid()
      modifies this`wire, this`failed
      ensures Valid()
      ensures wire == Clip(limit, old(wire), DataFrames(id, body))
      ensures ok == (|old(wire)| + |DataFrames(id, body)| <= limit) && failed == (old(failed) || !ok)
    {
      ghost var was := wire;
      ghost var sent: seq<OutFrame> := [];
      var rest := body;
      while |rest| > MAX_FRAME_SIZE
        invariant Valid() && failed == old(failed)
        invariant wire == was + sent
        invariant DataFrames(id, body) == sent + DataFrames(id, rest)
      {
        ghost var chunk := DataOut(id, false, rest[..MAX_FRAME_SIZE]);
        ClipAppend(limit, was, sent, DataFrames(id, rest));
        ok := WriteFrame(DataOut(id, false, rest[..MAX_FRAME_SIZE]));
        if !ok {
          return;
        }
        assert sent + DataFrames(id, rest) == (sent + [chunk]) + DataFrames(id, rest[MAX_FRAME_SIZE..]);
        sent := sent + [chunk];
        rest := rest[MAX_FRAME_SIZE..];
      }
      ClipAppend(limit, was, sent, DataFrames(id, rest));
      ok := WriteFrame(DataOut(id, true, rest));
    }

    /** The header block of a response in `encBuf`. */
    method EncodeFields(resp: Response)
      modifies this`table, this`encBuf
      ensures (table, encBuf) == EncodeBlock(codec, old(table), ResponseFields(resp))
    {
      ghost var fields, t0 := ResponseFields(resp), table;
      encBuf := [];
      WriteField(Header(":status", Itoa(resp.status)));
      assert fields[..1] == [Header(":status", Itoa(resp.status))] && fields[..1][..0] == [];
      for i := 0 to |resp.headers|
        invariant (table, encBuf) == EncodeBlock(codec, t0, fields[..i + 1])
      {
        var h := resp.headers[i];
        WriteField(Header(Lower(h.name), h.value));
        assert fields[..i + 2] == fields[..i + 1] + [Header(Lower(h.name), h.value)];
        assert fields[..i + 2][..i + 1] == fields[..i + 1];
      }
      assert fields[..|resp.headers| + 1] == fields;
    }

    /** `writeResponse`: the whole message in one critical section. */
    method WriteResponse(id: nat, resp: Response) returns (ok: bool)
      requires Valid()
      modifies this
      ensures Valid()
      ensures table == EncodeBlock(codec, old(table), ResponseFields(resp)).0
      ensures wire == Clip(limit, old(wire), ResponseFrames(codec, old(table), id, resp))
      ensures ok == (|old(wire)| + |ResponseFrames(codec, old(table), id, resp)| <= limit)
      ensures failed == (old(failed) || !ok)
      ensures Lawful(codec) && ok ==>
                && |old(wire)| < |wire| && wire[|old(wire)|].HeadersOut? && wire[|old(wire)|].id == id
                && Carries(codec, old(table), wire[|old(wire)|].block, table, resp)
    {
      FirstFrameCarries(codec, limit, wire, table, id, resp);
      ghost var frames, was := ResponseFrames(codec, table, id, resp), wire;
      EncodeFields(resp);
      var endStream := |resp.body| == 0;
      ghost var head := HeadersOut(id, encBuf, endStream);
      assert frames == [head] + if endStream then [] else DataFrames(id, resp.body);
      ok := WriteFrame(HeadersOut(id, encBuf, endStream));
      if !ok || endStream {
        return;
      }
      ClipAppend(limit, was, [head], DataFrames(id, resp.body));
      ok := WriteData(id, resp.body);
    }
  }

  // ---- a method call is a run of the handler's steps ----

  /** The server after `n` repetitions of a step. */
  function ContinueWith(c: Hpack, s: Server, step: Step, n: nat): Server
    decreases n
  {
    if n == 0 then s else ContinueWith(c, Do(c, s, step), step, n - 1)
  }

  /** A handler left alone with the lock writes its frames as `Clip` says, then only has to release it. */
  lemma {:induction false} WritesAll(c: Hpack, s: Server, k: nat)
    requires k < |s.phases| && |s.phases| == |s.live.jobs| && s.phases[k].Writing? && s.phases[k].rest != []
    requires |s.wire| <= s.limit && (s.failed ==> |s.wire| == s.limit)
    ensures var rest := s.phases[k].rest;
            var t := ContinueWith(c, s, Handler(k, Write), |rest|);
            && t.wire == Clip(s.limit, s.wire, rest)
            && |t.phases| == |s.phases| && t.table == s.table
            && t.phases[k] == Unlocking(s.phases[k].answer, |s.wire| + |rest| <= s.limit)
    decreases |s.phases[k].rest|
  {
    var rest, step := s.phases[k].rest, Handler(k, Write);
    var t := Do(c, s, step);
    if |s.wire| < s.limit {
      assert [rest[0]] + rest[1..] == rest;
      ClipAppend(s.limit, s.wire, [rest[0]], rest[1..]);
      if |rest| > 1 {
        WritesAll(c, t, k);
      } else {
        assert rest[1..] == [] && ContinueWith(c, t, step, 0) == t;
      }
    } else {
      assert s.wire + rest[..0] == s.wire;
      NothingLeftToWrite(c, t, k, |rest| - 1);
    }
  }

  lemma {:induction false} NothingLeftToWrite(c: Hpack, s: Server, k: nat, n: nat)
    requires k < |s.phases| && |s.phases| == |s.live.jobs| && s.phases[k].Unlocking?
    ensures ContinueWith(c, s, Handler(k, Write), n) == s
  {
    if n > 0 {
      NothingLeftToWrite(c, s, k, n - 1);
    }
  }

  /**
   * The steps Lock, Encode and Write of one handler leave the wire and the encoder
   * as `FrameWriter.WriteResponse` does, so the method is what the steps amount to.
   */
  lemma StepsAreWriteResponse(c: Hpack, s: Server, k: nat, resp: Response)
    requires Inv(c, s) && k < |s.phases| && s.owner.Free? && s.phases[k] == Waiting(Ok(resp))
    ensures var frames := ResponseFrames(c, s.table, s.live.jobs[k].id, resp);
            var locked := Do(c, Do(c, s, Handler(k, Lock)), Handler(k, Encode));
            var t := ContinueWith(c, locked, Handler(k, Write), |frames|);
            && t.wire == Clip(s.limit, s.wire, frames)
            && t.table == EncodeBlock(c, s.table, ResponseFields(resp)).0
            && |t.phases| == |s.phases|
            && t.phases[k] == Unlocking(Ok(resp), |s.wire| + |frames| <= s.limit)
  {
    WritesAll(c, Do(c, Do(c, s, Handler(k, Lock)), Handler(k, Encode)), k);
  }
}
