/**
 * What the client reads, on every run: each handler's answer field by field, and
 * an acknowledgement for every SETTINGS and PING, in order
 * (internal/capture/http2.go).
 */
module Http2Answers {
  import opened Basics
  import opened Http2Engine
  import opened Http2Model
  import opened Http2Theorems
  import opened Http2Wire
  import opened Lists

  // ---- answers ----

  /** `m` is what a handler of stream `id` answered. */
  ghost predicate ShowsAnswer(m: Message, id: nat, answer: Answer) {
    match answer
    case Ok(resp) => m.Reply? && m.id == id && AnswersWith(resp, m.fields) && m.body == resp.body
    case Err => m == Reset(id)
  }

  lemma MessageShowsAnswer(id: nat, answer: Answer)
    ensures ShowsAnswer(MessageOf(id, answer), id, answer)
  {
    if answer.Ok? { FieldsAnswer(answer.resp); }
  }

  /** On every schedule the peer's i-th message is the answer of the i-th job that finished writing. */
  lemma ClientReadsAnswers(c: Hpack, limit: nat, steps: seq<Step>, i: nat)
    requires Lawful(c) && i < |Heard(c, Run(c, limit, steps)).got|
    ensures var s := Run(c, limit, steps);
            && i < |s.ended| && s.ended[i] < |s.phases| == |s.live.jobs| && !s.phases[s.ended[i]].Running?
            && ShowsAnswer(Heard(c, s).got[i], s.live.jobs[s.ended[i]].id, s.phases[s.ended[i]].answer)
  {
    RunInv(c, limit, steps);
    var s := Run(c, limit, steps);
    assert Heard(c, s).got[i] == Delivered(s)[i];
    assert Finished(s.phases[s.ended[i]]);
    MessageShowsAnswer(s.live.jobs[s.ended[i]].id, s.phases[s.ended[i]].answer);
  }

  // ---- acknowledgements ----

  predicate IsAck(f: OutFrame) {
    f.SettingsAckOut? || f.PingAckOut?
  }

  predicate Asks(f: InFrame) {
    (f.SettingsIn? || f.PingIn?) && !f.ack
  }

  /** SETTINGS is acknowledged, PING with its own data. */
  function AckOf(f: InFrame): OutFrame {
    if f.PingIn? then PingAckOut(f.opaqueData) else SettingsAckOut
  }

  function AcksIn(frames: seq<OutFrame>): seq<OutFrame> {
    Keep(frames, IsAck)
  }

  /** The acknowledgements due for what was read. */
  function Asked(read: seq<InFrame>): seq<OutFrame> {
    Map(Keep(read, Asks), AckOf)
  }

  /** While writes succeed all are written or about to be; after a failure those written are the first ones. */
  ghost predicate AckInv(s: Server) {
    && (s.failed ==> |s.wire| >= s.limit)
    && (!s.failed ==> AcksIn(s.wire) + AcksIn(ToSend(s.loop)) == Asked(s.read))
    && AcksIn(s.wire) <= Asked(s.read)
  }

  lemma AskedSnoc(read: seq<InFrame>, f: InFrame)
    ensures Asked(read + [f]) == Asked(read) + if Asks(f) then [AckOf(f)] else []
  {
    KeepSnoc(read, f, Asks);
    if Asks(f) {
      MapSnoc(Keep(read, Asks), f, AckOf);
    } else {
      assert Keep(read, Asks) + [] == Keep(read, Asks);
    }
  }

  lemma AcksSnoc(frames: seq<OutFrame>, f: OutFrame)
    ensures AcksIn(frames + [f]) == AcksIn(frames) + if IsAck(f) then [f] else []
  {
    KeepSnoc(frames, f, IsAck);
  }

  lemma AcksHead(frames: seq<OutFrame>)
    requires frames != []
    ensures AcksIn(frames) == (if IsAck(frames[0]) then [frames[0]] else []) + AcksIn(frames[1..])
  {
  }

  /** The loop's replies to a frame acknowledge it if it asks, and acknowledge nothing else. */
  lemma RepliesAck(r: Reader, f: InFrame)
    ensures AcksIn(Replies(r, f)) == if Asks(f) then [AckOf(f)] else []
  {
    var sends := Replies(r, f);
    if f.DataIn? {
      KeepNone(sends, IsAck);
    } else if sends != [] {
      AcksHead(sends);
      assert sends[1..] == [] && AcksIn([]) == [];
    }
  }

  lemma ReadKeepsAcks(s: Server, f: InFrame)
    requires LoopInv(s) && AckInv(s) && s.loop.Reading?
    ensures AckInv(OnRead(s, f))
  {
    AskedSnoc(s.read, f);
    RepliesAck(s.live, f);
  }

  lemma SendKeepsAcks(s: Server)
    requires LoopInv(s) && AckInv(s) && s.loop.Sending? && s.loop.sends != []
    ensures AckInv(LoopStep(s, LoopSend))
  {
    var f := s.loop.sends[0];
    AcksSnoc(s.wire, f);
    AcksHead(s.loop.sends);
    Associate(AcksIn(s.wire), if IsAck(f) then [f] else [], AcksIn(s.loop.sends[1..]));
  }

  lemma LoopKeepsAcks(s: Server, step: Step)
    requires LoopInv(s) && AckInv(s)
    ensures AckInv(LoopStep(s, step))
  {
    if step.ReadFrame? {
      if s.loop.Reading? { ReadKeepsAcks(s, step.frame); }
    } else if step.LoopSend? {
      if s.loop.Sending? && s.loop.sends != [] { SendKeepsAcks(s); }
    }
  }

  lemma NoAckInReply(c: Hpack, s: Server, k: nat)
    requires Inv(c, s) && k < |s.phases| && NextFrame(s, k).Some?
    ensures !IsAck(NextFrame(s, k).value)
  {
    WriteStepMaps(s, k);
    if s.phases[k].Writing? {
      assert MidReply(s);
    }
  }

  lemma EmitKeepsAcks(s: Server, f: OutFrame)
    requires AckInv(s) && !IsAck(f)
    ensures AckInv(Emit(s, f))
  {
    AcksSnoc(s.wire, f);
    assert AcksIn(s.wire) + [] == AcksIn(s.wire);
  }

  lemma OnlyWritesWrite(c: Hpack, s: Server, k: nat, move: Move)
    requires k < |s.phases| && |s.phases| == |s.live.jobs| && (move.Write? ==> NextFrame(s, k).None?)
    ensures var t := HandlerStep(c, s, k, move);
            t.wire == s.wire && t.failed == s.failed && t.loop == s.loop && t.read == s.read
  {
  }

  lemma HandlerKeepsAcks(c: Hpack, s: Server, k: nat, move: Move)
    requires Inv(c, s) && AckInv(s) && k < |s.phases|
    ensures AckInv(HandlerStep(c, s, k, move))
  {
    if move.Write? && NextFrame(s, k).Some? {
      WriteStepShape(s, k);
      NoAckInReply(c, s, k);
      EmitKeepsAcks(s, NextFrame(s, k).value);
    } else {
      OnlyWritesWrite(c, s, k, move);
    }
  }

  /** On every schedule. */
  lemma {:induction false} RunAcks(c: Hpack, limit: nat, steps: seq<Step>)
    requires Lawful(c)
    ensures AckInv(Run(c, limit, steps))
  {
    if steps == [] {
      assert [SettingsOut][1..] == [] && AcksIn([SettingsOut]) == [];
    } else {
      var init, step := steps[..|steps| - 1], steps[|steps| - 1];
      RunAcks(c, limit, init);
      RunInv(c, limit, init);
      if step.Handler? {
        var s := Run(c, limit, init);
        if step.k < |s.phases| == |s.live.jobs| { HandlerKeepsAcks(c, s, step.k, step.move); }
      } else {
        LoopKeepsAcks(Run(c, limit, init), step);
      }
    }
  }

  /** Between frames, while writes succeed, every SETTINGS and PING has been acknowledged, once and in order. */
  lemma EverythingAcknowledged(c: Hpack, limit: nat, steps: seq<Step>)
    requires Lawful(c)
    requires var s := Run(c, limit, steps); !s.failed && ToSend(s.loop) == []
    ensures var s := Run(c, limit, steps); AcksIn(s.wire) == Asked(s.read)
    ensures var s := Run(c, limit, steps);
            forall f :: f in s.read && f.PingIn? && !f.ack ==> PingAckOut(f.opaqueData) in s.wire
  {
    var s := Run(c, limit, steps);
    RunAcks(c, limit, steps);
    assert AcksIn(s.wire) + [] == AcksIn(s.wire);
    forall f | f in s.read && f.PingIn? && !f.ack
      ensures PingAckOut(f.opaqueData) in s.wire
    {
      KeepIn(s.read, Asks, f);
      var i :| 0 <= i < |Keep(s.read, Asks)| && Keep(s.read, Asks)[i] == f;
      MapAt(Keep(s.read, Asks), AckOf, i);
      KeepIn(s.wire, IsAck, PingAckOut(f.opaqueData));
    }
  }
}
