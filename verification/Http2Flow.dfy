/**
 * Flow-control credit (sections 6.9 and 6.9.1 of RFC 9113): what the read loop
 * gives back against what the client has sent.
 */
module Http2Flow {
  import opened Basics
  import opened Http2Model
  import opened Http2Wire
  import opened Http2Capture
  import opened Http2Engine

  const INITIAL_WINDOW: nat := 65535

  /** The credit `frames` give on `id`; 0 is the connection. */
  function Credit(frames: seq<OutFrame>, id: nat): nat {
    if frames == [] then 0
    else
      var f := frames[|frames| - 1];
      Credit(frames[..|frames| - 1], id) + if f.WindowUpdateOut? && f.id == id then f.increment else 0
  }

  /** DATA payload received on `id` while that stream was open; on any stream when `id` is 0. */
  function Accepted(read: seq<InFrame>, id: nat): nat {
    if read == [] then 0
    else
      var init, f := read[..|read| - 1], read[|read| - 1];
      Accepted(init, id)
      + if f.DataIn? && (id == 0 || f.id == id) && LifeOf(init, f.id).Some? then |f.data| else 0
  }

  /** What the client has spent of its connection window: payload and padding of every DATA frame. */
  function Spent(read: seq<InFrame>): nat {
    if read == [] then 0
    else
      var f := read[|read| - 1];
      Spent(read[..|read| - 1]) + if f.DataIn? then |f.data| + f.padding else 0
  }

  /** DATA that is never credited: padding, and payload on streams that are not open. */
  predicate Uncredited(read: seq<InFrame>, i: nat)
    requires i < |read|
  {
    read[i].DataIn? && (read[i].padding > 0 || (LifeOf(read[..i], read[i].id).None? && read[i].data != []))
  }

  function Leaked(read: seq<InFrame>): nat {
    if read == [] then 0
    else
      var init, f := read[..|read| - 1], read[|read| - 1];
      Leaked(init)
      + if f.DataIn? then f.padding + (if LifeOf(init, f.id).None? then |f.data| else 0) else 0
  }

  /** The client's connection send window, from what it sent and the credit on the wire. */
  function ClientWindow(s: Server): int {
    INITIAL_WINDOW - Spent(s.read) + Credit(s.wire, 0)
  }

  lemma {:induction false} CreditAppend(a: seq<OutFrame>, b: seq<OutFrame>, id: nat)
    ensures Credit(a + b, id) == Credit(a, id) + Credit(b, id)
  {
    if b == [] {
      assert a + b == a;
    } else {
      assert (a + b)[..|a + b| - 1] == a + b[..|b| - 1];
      CreditAppend(a, b[..|b| - 1], id);
    }
  }

  lemma CreditOne(f: OutFrame, id: nat)
    ensures Credit([f], id) == if f.WindowUpdateOut? && f.id == id then f.increment else 0
  {
    assert [f][..0] == [];
  }

  lemma CreditHead(frames: seq<OutFrame>, id: nat)
    requires frames != []
    ensures Credit(frames, id)
            == Credit(frames[1..], id)
               + if frames[0].WindowUpdateOut? && frames[0].id == id then frames[0].increment else 0
  {
    assert frames == [frames[0]] + frames[1..];
    CreditAppend([frames[0]], frames[1..], id);
    CreditOne(frames[0], id);
  }

  predicate PositiveCredits(frames: seq<OutFrame>) {
    forall f :: f in frames && f.WindowUpdateOut? ==> f.increment > 0
  }

  lemma PositiveParts(a: seq<OutFrame>, b: seq<OutFrame>)
    ensures PositiveCredits(a + b) <==> PositiveCredits(a) && PositiveCredits(b)
  {
    assert forall f :: f in a + b <==> f in a || f in b;
  }

  /** Credit on the wire and still `due` adds up to what was accepted, or to less once a write has failed. */
  predicate Flows(wire: seq<OutFrame>, due: seq<OutFrame>, accepted: nat, failed: bool, id: nat) {
    && PositiveCredits(wire) && PositiveCredits(due)
    && Credit(wire, id) + Credit(due, id) <= accepted
    && (!failed ==> Credit(wire, id) + Credit(due, id) == accepted)
  }

  predicate FlowInv(s: Server, id: nat) {
    Flows(s.wire, ToSend(s.loop), Accepted(s.read, id), s.failed, id)
  }

  /** Both windows are credited with the payload of a DATA frame. */
  lemma PairCredit(stream: nat, n: nat, id: nat)
    requires stream != 0 && n > 0
    ensures var sends := [WindowUpdateOut(0, n), WindowUpdateOut(stream, n)];
            PositiveCredits(sends) && Credit(sends, id) == if id == 0 || id == stream then n else 0
  {
    var a, b := WindowUpdateOut(0, n), WindowUpdateOut(stream, n);
    assert [a, b] == [a] + [b];
    CreditAppend([a], [b], id);
    CreditOne(a, id);
    CreditOne(b, id);
  }

  lemma DataCredit(r: Reader, read: seq<InFrame>, f: InFrame, id: nat)
    requires r == ReadAll(read) && !Malformed(f) && f.DataIn?
    ensures PositiveCredits(Replies(r, f))
    ensures Accepted(read + [f], id) == Accepted(read, id) + Credit(Replies(r, f), id)
  {
    AcceptedSnoc(read, f, id);
    StreamsAreLives(read, f.id);
    if f.id in r.streams && f.data != [] {
      PairCredit(f.id, |f.data|, id);
    }
  }

  /** An acknowledgement credits nothing. */
  lemma AckCredit(r: Reader, f: InFrame, id: nat)
    requires !f.DataIn?
    ensures PositiveCredits(Replies(r, f)) && Credit(Replies(r, f), id) == 0
  {
    var sends := Replies(r, f);
    if sends != [] {
      CreditOne(sends[0], id);
    }
  }

  lemma RepliesCredit(r: Reader, read: seq<InFrame>, f: InFrame, id: nat)
    requires r == ReadAll(read) && !Malformed(f)
    ensures PositiveCredits(Replies(r, f))
    ensures Accepted(read + [f], id) == Accepted(read, id) + Credit(Replies(r, f), id)
  {
    if f.DataIn? {
      DataCredit(r, read, f, id);
    } else {
      AcceptedSnoc(read, f, id);
      AckCredit(r, f, id);
    }
  }

  /** Credit to be sent becomes credit on the wire. */
  lemma CreditMoves(wire: seq<OutFrame>, sends: seq<OutFrame>, id: nat)
    requires sends != []
    ensures Credit(wire + [sends[0]], id) + Credit(sends[1..], id) == Credit(wire, id) + Credit(sends, id)
    ensures Credit(sends[1..], id) <= Credit(sends, id)
    ensures PositiveCredits(wire) && PositiveCredits(sends) ==>
              PositiveCredits(wire + [sends[0]]) && PositiveCredits(sends[1..])
  {
    CreditHead(sends, id);
    CreditAppend(wire, [sends[0]], id);
    CreditOne(sends[0], id);
    PositiveParts(wire, [sends[0]]);
    PositiveParts([sends[0]], sends[1..]);
    assert sends == [sends[0]] + sends[1..];
  }

  lemma SendFlows(wire: seq<OutFrame>, due: seq<OutFrame>, accepted: nat, failed: bool, id: nat)
    requires Flows(wire, due, accepted, failed, id) && due != []
    ensures Flows(wire + [due[0]], due[1..], accepted, failed, id)
    ensures Flows(wire, due[1..], accepted, true, id)
  {
    CreditMoves(wire, due, id);
  }

  lemma LoopSendFlow(s: Server, id: nat)
    requires LoopInv(s) && FlowInv(s, id) && s.loop.Sending?
    ensures FlowInv(LoopStep(s, LoopSend), id)
  {
    assert LoopStep(s, LoopSend) == Emit(s, s.loop.sends[0]).(loop := Sent(s.loop.sends[1..], s.loop.spawn));
    SendFlows(s.wire, s.loop.sends, Accepted(s.read, id), s.failed, id);
  }

  lemma LoopReadFlow(s: Server, f: InFrame, id: nat)
    requires LoopInv(s) && FlowInv(s, id) && s.loop.Reading?
    ensures FlowInv(OnRead(s, f), id)
  {
    if !Malformed(f) {
      RepliesCredit(s.live, s.read, f, id);
    }
  }

  lemma LoopStepFlow(s: Server, step: Step, id: nat)
    requires LoopInv(s) && FlowInv(s, id)
    ensures FlowInv(LoopStep(s, step), id)
  {
    if step.ReadFrame? {
      if s.loop.Reading? { LoopReadFlow(s, step.frame, id); }
    } else if step.LoopSend? {
      if s.loop.Sending? { LoopSendFlow(s, id); }
    }
  }

  lemma OnlyWriteWrites(c: Hpack, s: Server, k: nat, move: Move)
    requires k < |s.phases| && |s.phases| == |s.live.jobs| && (move.Write? ==> NextFrame(s, k).None?)
    ensures var t := HandlerStep(c, s, k, move);
            t.wire == s.wire && t.failed == s.failed && t.loop == s.loop && t.read == s.read
  {
  }

  lemma NoWindowUpdateInReply(c: Hpack, s: Server, k: nat)
    requires Inv(c, s) && k < |s.phases| && NextFrame(s, k).Some?
    ensures !NextFrame(s, k).value.WindowUpdateOut?
  {
    WriteStepMaps(s, k);
    if s.phases[k].Writing? {
      assert MidReply(s);
    }
  }

  lemma ReplyFlows(wire: seq<OutFrame>, due: seq<OutFrame>, accepted: nat, failed: bool, f: OutFrame, id: nat)
    requires Flows(wire, due, accepted, failed, id) && !f.WindowUpdateOut?
    ensures Flows(wire + [f], due, accepted, failed, id) && Flows(wire, due, accepted, true, id)
  {
    CreditAppend(wire, [f], id);
    CreditOne(f, id);
    PositiveParts(wire, [f]);
  }

  lemma EmitFlow(s: Server, f: OutFrame, id: nat)
    requires FlowInv(s, id) && !f.WindowUpdateOut?
    ensures FlowInv(Emit(s, f), id)
  {
    ReplyFlows(s.wire, ToSend(s.loop), Accepted(s.read, id), s.failed, f, id);
  }

  lemma HandlerStepFlow(c: Hpack, s: Server, k: nat, move: Move, id: nat)
    requires Inv(c, s) && FlowInv(s, id) && k < |s.phases|
    ensures FlowInv(HandlerStep(c, s, k, move), id)
  {
    if move.Write? && NextFrame(s, k).Some? {
      WriteStepShape(s, k);
      NoWindowUpdateInReply(c, s, k);
      EmitFlow(s, NextFrame(s, k).value, id);
    } else {
      OnlyWriteWrites(c, s, k, move);
    }
  }

  /** On every schedule no more is credited than was accepted, and while writes succeed exactly that. */
  lemma {:induction false} RunFlow(c: Hpack, limit: nat, steps: seq<Step>, id: nat)
    requires Lawful(c)
    ensures FlowInv(Run(c, limit, steps), id)
  {
    if steps == [] {
      if limit > 0 {
        assert [SettingsOut][..0] == [];
      }
    } else {
      var s, step := Run(c, limit, steps[..|steps| - 1]), steps[|steps| - 1];
      RunInv(c, limit, steps[..|steps| - 1]);
      RunFlow(c, limit, steps[..|steps| - 1], id);
      if step.Handler? {
        if step.k < |s.phases| { HandlerStepFlow(c, s, step.k, step.move, id); }
      } else {
        LoopStepFlow(s, step, id);
      }
    }
  }

  lemma {:induction false} LeakedIsTheRest(read: seq<InFrame>)
    ensures Spent(read) == Accepted(read, 0) + Leaked(read)
    ensures Leaked(read) == 0 <==> forall i :: 0 <= i < |read| ==> !Uncredited(read, i)
  {
    if read != [] {
      var n := |read| - 1;
      var init := read[..n];
      LeakedIsTheRest(init);
      forall i | 0 <= i < n
        ensures Uncredited(read, i) == Uncredited(init, i)
      {
        assert init[..i] == read[..i];
      }
      assert Leaked(read) == 0 <==> Leaked(init) == 0 && !Uncredited(read, n);
    }
  }

  /**
   * The client's connection window never exceeds its initial value. Between
   * frames, while writes succeed, it is short by exactly the DATA octets the loop
   * does not credit, and it is whole if and only if there were none.
   */
  lemma ConnectionWindow(c: Hpack, limit: nat, steps: seq<Step>)
    requires Lawful(c)
    ensures var s := Run(c, limit, steps);
            && ClientWindow(s) <= INITIAL_WINDOW
            && (ToSend(s.loop) == [] && !s.failed ==>
                  && ClientWindow(s) == INITIAL_WINDOW - Leaked(s.read)
                  && (ClientWindow(s) == INITIAL_WINDOW
                      <==> forall i :: 0 <= i < |s.read| ==> !Uncredited(s.read, i)))
  {
    RunFlow(c, limit, steps, 0);
    LeakedIsTheRest(Run(c, limit, steps).read);
  }

  lemma AfterTwo(c: Hpack, limit: nat, a: Step, b: Step)
    ensures Run(c, limit, [a]) == Do(c, Start(limit), a)
    ensures Run(c, limit, [a, b]) == Do(c, Do(c, Start(limit), a), b)
  {
    assert [a][..0] == [] && [a, b][..1] == [a];
  }

  lemma SpentOnTwo(f: InFrame, g: InFrame)
    ensures Spent([f]) == if f.DataIn? then |f.data| + f.padding else 0
    ensures Spent([f, g]) == Spent([f]) + if g.DataIn? then |g.data| + g.padding else 0
  {
    assert [f][..0] == [] && [f, g][..1] == [f];
  }

  /** A client whose window stays short: a padded frame on an open stream takes its padding for good, */
  lemma PaddingLeaks(c: Hpack, limit: nat, fields: seq<Header>, padding: nat)
    requires limit > 0 && padding > 0
    ensures var open, data := HeadersIn(1, fields, false), DataIn(1, [], padding, false);
            var s := Run(c, limit, [ReadFrame(open), ReadFrame(data)]);
            && s.loop.Reading? && !s.failed && 1 in s.live.streams
            && ClientWindow(s) == INITIAL_WINDOW - padding && ClientWindow(s) < INITIAL_WINDOW
  {
    var open, data := HeadersIn(1, fields, false), DataIn(1, [], padding, false);
    AfterTwo(c, limit, ReadFrame(open), ReadFrame(data));
    var one := Do(c, Start(limit), ReadFrame(open));
    assert one.read == [open] && one.loop.Reading?;
    assert Do(c, one, ReadFrame(data)).read == [open, data];
    SpentOnTwo(open, data);
    CreditOne(SettingsOut, 0);
  }

  /** and DATA on an id that is not held takes all of its payload. */
  lemma StrayDataLeaks(c: Hpack, limit: nat, id: nat, data: Bytes)
    requires limit > 0 && id > 0 && data != []
    ensures var s := Run(c, limit, [ReadFrame(DataIn(id, data, 0, false))]);
            && s.loop.Reading? && !s.failed
            && ClientWindow(s) == INITIAL_WINDOW - |data| && ClientWindow(s) < INITIAL_WINDOW
  {
    var f := DataIn(id, data, 0, false);
    AfterTwo(c, limit, ReadFrame(f), ReadEnd);
    SpentOnTwo(f, f);
    CreditOne(SettingsOut, 0);
  }

  lemma {:induction false} NothingAcceptedBefore(read: seq<InFrame>, id: nat)
    requires NoBlockOn(read, id) && id != 0
    ensures Accepted(read, id) == 0
  {
    if read != [] {
      NothingAcceptedBefore(read[..|read| - 1], id);
      NothingBeforeOpening(read[..|read| - 1], id);
    }
  }

  lemma AcceptedSnoc(read: seq<InFrame>, f: InFrame, id: nat)
    ensures Accepted(read + [f], id)
            == Accepted(read, id)
               + if f.DataIn? && (id == 0 || f.id == id) && LifeOf(read, f.id).Some? then |f.data| else 0
  {
    assert (read + [f])[..|read|] == read;
  }

  lemma {:induction false} AcceptedIsBody(pre: seq<InFrame>, id: nat, fields: seq<Header>, post: seq<InFrame>)
    requires id != 0 && NoBlockOn(pre, id) && NoBlockOn(post, id) && FateOf(post, id).StillOpen?
    ensures Accepted(pre + [HeadersIn(id, fields, false)] + post, id) == |Payloads(post, id)|
  {
    var h := HeadersIn(id, fields, false);
    if post == [] {
      NothingAcceptedBefore(pre, id);
      AcceptedSnoc(pre, h, id);
      assert pre + [h] + post == pre + [h];
    } else {
      var init, f := post[..|post| - 1], post[|post| - 1];
      AcceptedIsBody(pre, id, fields, init);
      AfterOpening(pre, id, fields, init);
      AcceptedSnoc(pre + [h] + init, f, id);
      assert pre + [h] + post == (pre + [h] + init) + [f];
    }
  }

  /** The credit on a stream opened once and still open equals the length of the body it has accumulated. */
  lemma StreamCreditIsBody(c: Hpack, limit: nat, steps: seq<Step>, pre: seq<InFrame>, id: nat, fields: seq<Header>,
                           post: seq<InFrame>)
    requires Lawful(c) && id != 0
    requires var s := Run(c, limit, steps);
             && !s.failed && s.loop.Reading? && s.read == pre + [HeadersIn(id, fields, false)] + post
             && id in s.live.streams
    requires NoBlockOn(pre, id) && NoBlockOn(post, id)
    ensures var s := Run(c, limit, steps); Credit(s.wire, id) == |s.live.streams[id].body|
  {
    var s := Run(c, limit, steps);
    RunInv(c, limit, steps);
    RunFlow(c, limit, steps, id);
    AfterOpening(pre, id, fields, post);
    StreamsAreLives(s.read, id);
    AcceptedIsBody(pre, id, fields, post);
  }
}
