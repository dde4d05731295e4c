/**
 * `ServeHTTP2` as a step system. The read loop and any number of handler
 * goroutines interleave in single steps: read a frame, acquire or release the
 * write lock, encode a header block, write one frame, start a goroutine, return.
 * A run is a sequence of steps chosen by an arbitrary scheduler; a step that is
 * not enabled does nothing.
 */
module Http2Engine {
  import opened Basics
  import opened Http2Model
  import opened Http2Wire

  /** What the handler returned. */
  datatype Answer = Ok(resp: Response) | Err

  /** A handler goroutine. From `Holding` to `Unlocking` it owns the write lock. */
  datatype Phase =
    | Running
    | Waiting(answer: Answer)
    | Holding(answer: Answer)
    | Writing(answer: Answer, rest: seq<OutFrame>)
    | Unlocking(answer: Answer, delivered: bool)
    | Done(answer: Answer, delivered: bool)

  /** The read loop: between frames, or with control frames to send and a stream to dispatch. */
  datatype Loop =
    | Reading
    | Acting(sends: seq<OutFrame>, spawn: Option<nat>)
    | Sending(sends: seq<OutFrame>, spawn: Option<nat>)
    | Sent(sends: seq<OutFrame>, spawn: Option<nat>)
    | Draining
    | Returned

  datatype Owner = Free | ByLoop | ByHandler(k: nat)

  /**
   * `limit` is how many frames the connection accepts before writes fail for
   * good; `read` and `ended` (jobs in the order they finished writing) are history.
   */
  datatype Server = Server(
    limit: nat, wire: seq<OutFrame>, failed: bool, table: Table, owner: Owner,
    read: seq<InFrame>, live: Reader, loop: Loop, phases: seq<Phase>, ended: seq<nat>)

  datatype Step =
    | ReadFrame(frame: InFrame)
    | ReadEnd
    | LoopLock
    | LoopSend
    | LoopUnlock
    | LoopSpawn
    | LoopReturn
    | Handler(k: nat, move: Move)

  /** What handler goroutine `k` does next: `handle` returns, or one action of its write. */
  datatype Move = Return(answer: Answer) | Lock | Encode | Write | Unlock

  /** After the preface: SETTINGS is written before any goroutine exists; a failure there ends the connection. */
  function Start(limit: nat): Server {
    var s := Server(limit, [], false, [], Free, [], FRESH_READER, Reading, [], []);
    if limit == 0 then s.(failed := true, loop := Returned) else s.(wire := [SettingsOut])
  }

  /** Frames the framer itself rejects with an error. */
  predicate Malformed(f: InFrame) {
    match f
    case HeadersIn(id, _, _) => id == 0
    case DataIn(id, _, _, _) => id == 0
    case RstIn(id) => id == 0
    case PriorityIn(p) => p.streamId == 0
    case WindowUpdateIn(_, increment) => increment == 0
    case _ => false
  }

  /** The control frames the read loop sends for `f`. */
  function Replies(r: Reader, f: InFrame): seq<OutFrame> {
    match f
    case SettingsIn(ack, _) => if ack then [] else [SettingsAckOut]
    case DataIn(id, data, _, _) =>
      if id in r.streams && data != [] then [WindowUpdateOut(0, |data|), WindowUpdateOut(id, |data|)] else []
    case PingIn(ack, data) => if ack then [] else [PingAckOut(data)]
    case _ => []
  }

  function Resume(sends: seq<OutFrame>, spawn: Option<nat>): Loop {
    if sends == [] && spawn.None? then Reading else Acting(sends, spawn)
  }

  /** One attempt to write a frame. */
  function Emit(s: Server, f: OutFrame): Server {
    if |s.wire| < s.limit then s.(wire := s.wire + [f]) else s.(failed := true)
  }

  function SetPhase(s: Server, k: nat, p: Phase): Server
    requires k < |s.phases|
  {
    s.(phases := s.phases[k := p])
  }

  function OnRead(s: Server, f: InFrame): Server {
    if f.GoAwayIn? || Malformed(f) then s.(read := if Malformed(f) then s.read else s.read + [f], loop := Draining)
    else
      var spawn := if Completes(s.live, f) then Some(f.id) else None;
      s.(read := s.read + [f], live := Absorb(s.live, f), loop := Resume(Replies(s.live, f), spawn))
  }

  function LoopStep(s: Server, step: Step): Server {
    match (step, s.loop)
    case (ReadFrame(f), Reading) => OnRead(s, f)
    case (ReadEnd, Reading) => s.(loop := Draining)
    case (LoopLock, Acting(sends, spawn)) =>
      if sends != [] && s.owner.Free? then s.(owner := ByLoop, loop := Sending(sends, spawn)) else s
    case (LoopSend, Sending(sends, spawn)) =>
      if sends == [] then s else Emit(s, sends[0]).(loop := Sent(sends[1..], spawn))
    case (LoopUnlock, Sent(sends, spawn)) => s.(owner := Free, loop := Resume(sends, spawn))
    case (LoopSpawn, Acting(sends, Some(id))) =>
      if sends == [] && id in s.live.streams
      then s.(live := HandOver(s.live, id), phases := s.phases + [Running], loop := Reading)
      else s
    case (LoopReturn, Draining) =>
      if forall k :: 0 <= k < |s.phases| ==> s.phases[k].Done? then s.(loop := Returned) else s
    case _ => s
  }

  /** `writeResponse` and `rstStream` under the lock, one frame at a time. */
  function WriteStep(s: Server, k: nat): Server
    requires k < |s.phases| && |s.phases| == |s.live.jobs|
  {
    match s.phases[k]
    case Holding(Err) =>
      var s1 := Emit(s, RstOut(s.live.jobs[k].id));
      if s1.failed then SetPhase(s1, k, Unlocking(Err, false))
      else SetPhase(s1, k, Unlocking(Err, true)).(ended := s.ended + [k])
    case Writing(answer, rest) =>
      if rest == [] then s
      else
        var s1 := Emit(s, rest[0]);
        if s1.failed then SetPhase(s1, k, Unlocking(answer, false))
        else if |rest| == 1 then SetPhase(s1, k, Unlocking(answer, true)).(ended := s.ended + [k])
        else SetPhase(s1, k, Writing(answer, rest[1..]))
    case _ => s
  }

  function HandlerStep(c: Hpack, s: Server, k: nat, move: Move): Server
    requires k < |s.phases| && |s.phases| == |s.live.jobs|
  {
    match (move, s.phases[k])
    case (Return(answer), Running) => SetPhase(s, k, Waiting(answer))
    case (Lock, Waiting(answer)) =>
      if s.owner.Free? then SetPhase(s, k, Holding(answer)).(owner := ByHandler(k)) else s
    case (Encode, Holding(Ok(resp))) =>
      SetPhase(s, k, Writing(Ok(resp), ResponseFrames(c, s.table, s.live.jobs[k].id, resp)))
      .(table := EncodeBlock(c, s.table, ResponseFields(resp)).0)
    case (Write, _) => WriteStep(s, k)
    case (Unlock, Unlocking(answer, delivered)) => SetPhase(s, k, Done(answer, delivered)).(owner := Free)
    case _ => s
  }

  function Do(c: Hpack, s: Server, step: Step): Server {
    if step.Handler?
    then if step.k < |s.phases| && |s.phases| == |s.live.jobs| then HandlerStep(c, s, step.k, step.move) else s
    else LoopStep(s, step)
  }

  /** The server after a schedule. */
  function Run(c: Hpack, limit: nat, steps: seq<Step>): Server {
    if steps == [] then Start(limit) else Do(c, Run(c, limit, steps[..|steps| - 1]), steps[|steps| - 1])
  }

  lemma RunSnoc(c: Hpack, limit: nat, steps: seq<Step>, step: Step)
    ensures Run(c, limit, steps + [step]) == Do(c, Run(c, limit, steps), step)
  {
    assert (steps + [step])[..|steps|] == steps;
  }

  // ---- what every step keeps ----

  predicate Holds(p: Phase) {
    p.Holding? || p.Writing? || p.Unlocking?
  }

  function Pending(loop: Loop): Option<nat> {
    match loop
    case Acting(_, spawn) => spawn
    case Sending(_, spawn) => spawn
    case Sent(_, spawn) => spawn
    case _ => None
  }

  function ToSend(loop: Loop): seq<OutFrame> {
    match loop
    case Acting(sends, _) => sends
    case Sending(sends, _) => sends
    case Sent(sends, _) => sends
    case _ => []
  }

  predicate IsControl(f: OutFrame) {
    f.SettingsAckOut? || f.WindowUpdateOut? || f.PingAckOut?
  }

  /** The live maps are the fold of the input, but for a dispatch still to come. */
  predicate LoopInv(s: Server) {
    && |s.phases| == |s.live.jobs|
    && (Pending(s.loop).None? ==> s.live == ReadAll(s.read))
    && (Pending(s.loop).Some? ==>
          Pending(s.loop).value in s.live.streams && HandOver(s.live, Pending(s.loop).value) == ReadAll(s.read))
    && (s.loop.Sending? ==> s.loop.sends != [])
    && (s.loop.Acting? ==> s.loop.sends != [] || s.loop.spawn.Some?)
    && (forall f :: f in ToSend(s.loop) ==> IsControl(f))
    && (s.loop.Returned? ==> forall k :: 0 <= k < |s.phases| ==> s.phases[k].Done?)
  }

  predicate LockInv(s: Server) {
    && (s.owner.ByLoop? <==> s.loop.Sending? || s.loop.Sent?)
    && (forall k :: 0 <= k < |s.phases| ==> (Holds(s.phases[k]) <==> s.owner == ByHandler(k)))
    && (s.owner.ByHandler? ==> s.owner.k < |s.phases|)
  }

  function MessageOf(id: nat, answer: Answer): Message {
    if answer.Ok? then Reply(id, ResponseFields(answer.resp), answer.resp.body) else Reset(id)
  }

  predicate Finished(p: Phase) {
    (p.Unlocking? || p.Done?) && p.delivered
  }

  predicate EndedInv(s: Server)
  {
    && |s.phases| == |s.live.jobs|
    && (forall i :: 0 <= i < |s.ended| ==> s.ended[i] < |s.phases| && Finished(s.phases[s.ended[i]]))
    && (forall i, j :: 0 <= i < j < |s.ended| ==> s.ended[i] != s.ended[j])
    && (forall k :: 0 <= k < |s.phases| && Finished(s.phases[k]) ==> k in s.ended)
    && (forall k :: 0 <= k < |s.phases| && (s.phases[k].Unlocking? || s.phases[k].Done?) ==>
          s.phases[k].delivered || s.failed)
  }

  /** The messages of the jobs that finished writing, in that order. */
  function Delivered(s: Server): seq<Message>
    requires EndedInv(s)
  {
    seq(|s.ended|, i requires 0 <= i < |s.ended| =>
      MessageOf(s.live.jobs[s.ended[i]].id, s.phases[s.ended[i]].answer))
  }

  predicate MidReply(s: Server) {
    s.owner.ByHandler? && s.owner.k < |s.phases| && s.phases[s.owner.k].Writing?
  }

  function Heard(c: Hpack, s: Server): Peer {
    HearAll(c, FRESH_PEER, s.wire)
  }

  /** Frames of one reply still to be written: END_STREAM is on the last one and only there. */
  predicate RestOfReply(rest: seq<OutFrame>) {
    && rest != []
    && forall i :: 0 <= i < |rest| ==>
         (rest[i].HeadersOut? || rest[i].DataOut?) && (rest[i].end <==> i == |rest| - 1)
  }

  /** The peer accepts the wire, has received what was delivered, and its decoder follows the encoder. */
  predicate WireInv(c: Hpack, s: Server)
    requires EndedInv(s)
  {
    var p := Heard(c, s);
    && p.ok
    && p.got == Delivered(s)
    && |s.wire| <= s.limit
    && (s.failed ==> |s.wire| == s.limit)
    && (!s.failed ==> p.greeted)
    && (!s.failed && !MidReply(s) ==> p.current.None? && p.table == s.table)
    && (MidReply(s) ==>
          var w := s.phases[s.owner.k];
          && RestOfReply(w.rest) && w.answer.Ok?
          && (!s.failed ==>
                HearAll(c, p, w.rest)
                == Peer(s.table, true, true, None, p.got + [MessageOf(s.live.jobs[s.owner.k].id, w.answer)])))
  }

  predicate Inv(c: Hpack, s: Server) {
    LoopInv(s) && LockInv(s) && EndedInv(s) && WireInv(c, s)
  }

  lemma StartInv(c: Hpack, limit: nat)
    ensures Inv(c, Start(limit))
  {
    if limit > 0 {
      HearOne(c, FRESH_PEER, [], SettingsOut);
      assert [] + [SettingsOut] == [SettingsOut];
    }
  }

  lemma OnReadLoopInv(s: Server, f: InFrame)
    requires LoopInv(s) && s.loop.Reading?
    ensures LoopInv(OnRead(s, f))
  {
    if !Malformed(f) {
      ReadAllSnoc(s.read, f);
    }
  }

  lemma DeliveredUnchanged(s: Server, t: Server)
    requires EndedInv(s) && EndedInv(t)
    requires s.ended == t.ended && s.live.jobs <= t.live.jobs && |s.phases| <= |t.phases|
    requires forall k :: 0 <= k < |s.phases| && Finished(s.phases[k]) ==> t.phases[k].answer == s.phases[k].answer
    ensures Delivered(s) == Delivered(t)
  {
    assert forall i :: 0 <= i < |s.ended| ==> s.live.jobs[s.ended[i]] == t.live.jobs[s.ended[i]];
  }

  /** Steps that touch neither the wire, the encoder nor a reply in flight keep the wire invariant. */
  lemma WireUntouched(c: Hpack, s: Server, t: Server)
    requires EndedInv(s) && WireInv(c, s) && EndedInv(t) && Delivered(s) == Delivered(t)
    requires t.limit == s.limit && t.wire == s.wire && t.failed == s.failed && t.table == s.table
    requires MidReply(s) == MidReply(t)
    requires MidReply(t) ==> t.owner == s.owner && t.phases[t.owner.k] == s.phases[t.owner.k]
                             && s.owner.k < |s.live.jobs| && s.live.jobs[s.owner.k] == t.live.jobs[s.owner.k]
    ensures WireInv(c, t)
  {
  }

  lemma SendKeepsLoop(s: Server)
    requires LoopInv(s) && s.loop.Sending?
    ensures LoopInv(LoopStep(s, LoopSend)) && IsControl(s.loop.sends[0])
  {
    var f, rest := s.loop.sends[0], s.loop.sends[1..];
    assert f in ToSend(s.loop);
    assert forall g :: g in rest ==> g in s.loop.sends;
  }

  lemma LoopSendMaps(s: Server)
    requires LoopInv(s) && LockInv(s) && EndedInv(s) && s.loop.Sending?
    ensures var t, f := LoopStep(s, LoopSend), s.loop.sends[0];
            && LoopInv(t) && LockInv(t) && EndedInv(t) && IsControl(f) && !MidReply(s) && !MidReply(t)
            && t == Emit(s, f).(loop := t.loop)
  {
    var f, rest := s.loop.sends[0], s.loop.sends[1..];
    SendKeepsLoop(s);
    assert LoopStep(s, LoopSend) == Emit(s, f).(loop := Sent(rest, s.loop.spawn));
  }

  lemma LoopSendInv(c: Hpack, s: Server)
    requires Inv(c, s)
    ensures Inv(c, LoopStep(s, LoopSend))
  {
    if s.loop.Sending? {
      LoopSendMaps(s);
      DeliveredUnchanged(s, LoopStep(s, LoopSend));
      HearOne(c, FRESH_PEER, s.wire, s.loop.sends[0]);
    }
  }

  /** A goroutine more holds no lock and has ended nothing. */
  lemma OneMorePhase(s: Server, t: Server)
    requires LockInv(s) && EndedInv(s) && t.phases == s.phases + [Running] && |t.live.jobs| == |t.phases|
    requires t.owner == s.owner && t.ended == s.ended && t.failed == s.failed && !s.owner.ByLoop?
    requires !t.loop.Sending? && !t.loop.Sent?
    ensures LockInv(t) && EndedInv(t) && MidReply(s) == MidReply(t)
  {
    assert forall k :: 0 <= k < |s.phases| ==> t.phases[k] == s.phases[k];
    assert t.phases[|s.phases|] == Running;
  }

  lemma SpawnKeepsLoop(s: Server)
    requires LoopInv(s)
    ensures LoopInv(LoopStep(s, LoopSpawn))
  {
  }

  lemma LoopSpawnMaps(s: Server)
    requires LoopInv(s) && LockInv(s) && EndedInv(s)
    ensures var t := LoopStep(s, LoopSpawn);
            && LoopInv(t) && LockInv(t) && EndedInv(t) && MidReply(s) == MidReply(t)
            && t == s.(live := t.live, phases := t.phases, loop := t.loop)
            && s.live.jobs <= t.live.jobs && s.phases <= t.phases
  {
    if s.loop.Acting? && s.loop.sends == [] && s.loop.spawn.Some? {
      SpawnKeepsLoop(s);
      OneMorePhase(s, LoopStep(s, LoopSpawn));
    }
  }

  lemma LoopSpawnInv(c: Hpack, s: Server)
    requires Inv(c, s)
    ensures Inv(c, LoopStep(s, LoopSpawn))
  {
    LoopSpawnMaps(s);
    DeliveredUnchanged(s, LoopStep(s, LoopSpawn));
    WireUntouched(c, s, LoopStep(s, LoopSpawn));
  }

  lemma LoopQuietLoop(s: Server, step: Step)
    requires LoopInv(s) && !step.LoopSend? && !step.LoopSpawn?
    ensures LoopInv(LoopStep(s, step))
  {
    if step.ReadFrame? && s.loop.Reading? {
      OnReadLoopInv(s, step.frame);
    }
  }

  lemma LoopQuietShape(s: Server, step: Step)
    requires (s.owner.ByLoop? <==> s.loop.Sending? || s.loop.Sent?) && !step.LoopSend? && !step.LoopSpawn?
    ensures var t := LoopStep(s, step);
            && t == s.(read := t.read, live := t.live, loop := t.loop, owner := t.owner)
            && t.live.jobs == s.live.jobs && (t.owner.ByLoop? <==> t.loop.Sending? || t.loop.Sent?)
            && (t.owner == s.owner || (!s.owner.ByHandler? && !t.owner.ByHandler?))
  {
  }

  /** The loop's own bookkeeping and the lock, for the steps that send and start nothing. */
  lemma LoopQuietMaps(s: Server, step: Step)
    requires LoopInv(s) && LockInv(s) && !step.LoopSend? && !step.LoopSpawn?
    ensures var t := LoopStep(s, step);
            && LoopInv(t) && LockInv(t)
            && t == s.(read := t.read, live := t.live, loop := t.loop, owner := t.owner)
            && t.live.jobs == s.live.jobs
            && (t.owner == s.owner || (!s.owner.ByHandler? && !t.owner.ByHandler?))
  {
    LoopQuietLoop(s, step);
    LoopQuietShape(s, step);
  }

  lemma LoopQuietInv(c: Hpack, s: Server, step: Step)
    requires Inv(c, s) && !step.LoopSend? && !step.LoopSpawn?
    ensures Inv(c, LoopStep(s, step))
  {
    LoopQuietMaps(s, step);
    DeliveredUnchanged(s, LoopStep(s, step));
    WireUntouched(c, s, LoopStep(s, step));
  }

  lemma LoopStepInv(c: Hpack, s: Server, step: Step)
    requires Inv(c, s)
    ensures Inv(c, LoopStep(s, step))
  {
    match step
    case LoopSend => LoopSendInv(c, s);
    case LoopSpawn => LoopSpawnInv(c, s);
    case _ => LoopQuietInv(c, s, step);
  }

  /** The frame a handler that holds the lock writes next. */
  function NextFrame(s: Server, k: nat): Option<OutFrame>
    requires k < |s.phases| && |s.phases| == |s.live.jobs|
  {
    match s.phases[k]
    case Holding(Err) => Some(RstOut(s.live.jobs[k].id))
    case Writing(_, rest) => if rest == [] then None else Some(rest[0])
    case _ => None
  }

  lemma WriteStepShape(s: Server, k: nat)
    requires k < |s.phases| && |s.phases| == |s.live.jobs| && NextFrame(s, k).Some?
    ensures var t := WriteStep(s, k);
            && t == Emit(s, NextFrame(s, k).value).(phases := s.phases[k := t.phases[k]], ended := t.ended)
            && Holds(s.phases[k]) && Holds(t.phases[k]) && !s.phases[k].Unlocking?
            && t.phases[k].answer == s.phases[k].answer
            && (|| (t.phases[k].Writing? && t.ended == s.ended)
                || (t.phases[k].Unlocking? && t.phases[k].delivered && t.ended == s.ended + [k])
                || (t.phases[k].Unlocking? && !t.phases[k].delivered && t.ended == s.ended && t.failed))
  {
  }

  lemma WriteStepLocks(s: Server, k: nat)
    requires LoopInv(s) && LockInv(s) && k < |s.phases| && NextFrame(s, k).Some?
    ensures LoopInv(WriteStep(s, k)) && LockInv(WriteStep(s, k)) && s.owner == ByHandler(k)
  {
    WriteStepShape(s, k);
  }

  lemma WriteStepMaps(s: Server, k: nat)
    requires LoopInv(s) && LockInv(s) && EndedInv(s) && k < |s.phases| && NextFrame(s, k).Some?
    ensures var t := WriteStep(s, k);
            && LoopInv(t) && LockInv(t) && EndedInv(t) && s.owner == ByHandler(k)
            && t == Emit(s, NextFrame(s, k).value).(phases := t.phases, ended := t.ended)
            && (forall j :: 0 <= j < |s.phases| && j != k ==> t.phases[j] == s.phases[j])
            && (t.ended == s.ended || t.ended == s.ended + [k])
            && k !in s.ended
            && (t.ended != s.ended ==> t.phases[k].Unlocking? && t.phases[k].answer == s.phases[k].answer)
  {
    WriteStepShape(s, k);
    WriteStepLocks(s, k);
    EndedStep(s, WriteStep(s, k), k);
  }

  lemma DeliveredOneMore(s: Server, t: Server, k: nat)
    requires EndedInv(s) && EndedInv(t) && t.live == s.live && k < |s.phases| == |t.phases|
    requires t.ended == s.ended + [k] && k !in s.ended && !s.phases[k].Running? && !t.phases[k].Running?
    requires t.phases[k].answer == s.phases[k].answer
    requires forall j :: 0 <= j < |s.phases| && j != k ==> t.phases[j] == s.phases[j]
    ensures Delivered(t) == Delivered(s) + [MessageOf(s.live.jobs[k].id, s.phases[k].answer)]
  {
    assert forall i :: 0 <= i < |s.ended| ==> t.ended[i] == s.ended[i] && s.ended[i] != k;
  }

  lemma WriteStepDelivers(s: Server, k: nat)
    requires LoopInv(s) && LockInv(s) && EndedInv(s) && k < |s.phases| && NextFrame(s, k).Some?
    ensures var t := WriteStep(s, k);
            && EndedInv(t)
            && (t.ended == s.ended ==> Delivered(t) == Delivered(s))
            && (t.ended != s.ended ==>
                  Delivered(t) == Delivered(s) + [MessageOf(s.live.jobs[k].id, s.phases[k].answer)])
  {
    var t := WriteStep(s, k);
    WriteStepMaps(s, k);
    if t.ended == s.ended {
      DeliveredUnchanged(s, t);
    } else {
      DeliveredOneMore(s, t, k);
    }
  }

  /** What a handler's write does to the wire and to what the peer has heard. */
  lemma WriteHeard(c: Hpack, s: Server, f: OutFrame)
    requires |s.wire| <= s.limit && (s.failed ==> |s.wire| == s.limit)
    ensures var t := Emit(s, f);
            && |t.wire| <= t.limit && (t.failed ==> |t.wire| == t.limit && t.wire == s.wire)
            && (!t.failed ==> !s.failed && t.wire == s.wire + [f] && Heard(c, t) == Hear(c, Heard(c, s), f))
  {
    HearOne(c, FRESH_PEER, s.wire, f);
  }

  /** A reset is heard at once. */
  lemma WriteResetInv(c: Hpack, s: Server, k: nat)
    requires Inv(c, s) && k < |s.phases| && s.phases[k] == Holding(Err)
    ensures EndedInv(WriteStep(s, k)) && WireInv(c, WriteStep(s, k))
  {
    WriteStepMaps(s, k);
    WriteStepDelivers(s, k);
    WriteHeard(c, s, NextFrame(s, k).value);
  }

  lemma RestIsHeard(c: Hpack, p: Peer, rest: seq<OutFrame>, last: Peer)
    requires p.ok && RestOfReply(rest) && HearAll(c, p, rest) == last && last.ok && last.current.None?
    ensures var q := Hear(c, p, rest[0]);
            && q.ok && HearAll(c, q, rest[1..]) == last
            && (|rest| == 1 ==> q == last)
            && (|rest| > 1 ==> RestOfReply(rest[1..]) && q.got == p.got && q.greeted == p.greeted)
  {
    var q := Hear(c, p, rest[0]);
    if |rest| == 1 {
      assert rest[1..] == [];
    } else {
      BadStaysBad(c, q, rest[1..]);
      assert !rest[0].end;
    }
  }

  lemma WriteRestInv(c: Hpack, s: Server, k: nat)
    requires Inv(c, s) && k < |s.phases| && s.phases[k].Writing? && s.phases[k].rest != []
    ensures EndedInv(WriteStep(s, k)) && WireInv(c, WriteStep(s, k))
  {
    var rest := s.phases[k].rest;
    WriteStepMaps(s, k);
    WriteStepDelivers(s, k);
    WriteHeard(c, s, rest[0]);
    assert MidReply(s);
    if !WriteStep(s, k).failed {
      RestIsHeard(c, Heard(c, s), rest, HearAll(c, Heard(c, s), rest));
    } else if |rest| > 1 {
      assert !MidReply(WriteStep(s, k));
    }
  }

  lemma WriteStepInv(c: Hpack, s: Server, k: nat)
    requires Inv(c, s) && k < |s.phases|
    ensures Inv(c, WriteStep(s, k))
  {
    if NextFrame(s, k).Some? {
      WriteStepMaps(s, k);
      if s.phases[k].Holding? {
        WriteResetInv(c, s, k);
      } else {
        WriteRestInv(c, s, k);
      }
    }
  }

  lemma EndedStep(s: Server, t: Server, k: nat)
    requires LockInv(s) && EndedInv(s) && k < |s.phases| && Holds(s.phases[k]) && !s.phases[k].Unlocking?
    requires t.live == s.live && |t.phases| == |s.phases| && (s.failed ==> t.failed)
    requires forall j :: 0 <= j < |s.phases| && j != k ==> t.phases[j] == s.phases[j]
    requires
      || (t.phases[k].Writing? && t.ended == s.ended)
      || (t.phases[k].Unlocking? && t.phases[k].delivered && t.ended == s.ended + [k])
      || (t.phases[k].Unlocking? && !t.phases[k].delivered && t.ended == s.ended && t.failed)
    ensures EndedInv(t)
  {
    assert k !in s.ended;
    forall j | 0 <= j < |t.phases| && Finished(t.phases[j])
      ensures j in t.ended
    {
      if j == k { assert t.ended[|s.ended|] == k; } else { assert j in s.ended; }
    }
  }

  lemma ResponseFramesAreReply(c: Hpack, t: Table, id: nat, resp: Response)
    ensures RestOfReply(ResponseFrames(c, t, id, resp))
  {
    DataFramesShape(id, resp.body);
    var frames, data := ResponseFrames(c, t, id, resp), DataFrames(id, resp.body);
    forall i | 0 <= i < |frames|
      ensures (frames[i].HeadersOut? || frames[i].DataOut?) && (frames[i].end <==> i == |frames| - 1)
    {
      if i > 0 { assert frames[i] == data[i - 1]; }
    }
  }

  lemma HandlerEncodeInv(c: Hpack, s: Server, k: nat)
    requires Lawful(c) && Inv(c, s) && k < |s.phases| && s.phases[k].Holding? && s.phases[k].answer.Ok?
    ensures Inv(c, HandlerStep(c, s, k, Encode))
  {
    var t := HandlerStep(c, s, k, Encode);
    var id, resp := s.live.jobs[k].id, s.phases[k].answer.resp;
    assert Holds(s.phases[k]);
    EndedStep(s, t, k);
    DeliveredUnchanged(s, t);
    ResponseFramesAreReply(c, s.table, id, resp);
    if !s.failed {
      HearFields(c, Heard(c, s), id, ResponseFields(resp), resp.body);
    }
  }

  /** A move that neither starts, continues nor ends a write. */
  predicate QuietMove(s: Server, t: Server)
    requires LoopInv(s) && LockInv(s) && EndedInv(s)
  {
    && LoopInv(t) && LockInv(t) && EndedInv(t)
    && t == s.(phases := t.phases, owner := t.owner) && |t.phases| == |s.phases|
    && MidReply(s) == MidReply(t)
    && (MidReply(s) ==> t.owner == s.owner && t.phases[s.owner.k] == s.phases[s.owner.k])
    && (forall j :: 0 <= j < |s.phases| && Finished(s.phases[j]) ==> t.phases[j].answer == s.phases[j].answer)
  }

  lemma QuietMoveInv(c: Hpack, s: Server, t: Server)
    requires Inv(c, s) && QuietMove(s, t)
    ensures Inv(c, t)
  {
    DeliveredUnchanged(s, t);
    WireUntouched(c, s, t);
  }

  lemma PhaseEnded(s: Server, t: Server, k: nat, p: Phase)
    requires EndedInv(s) && k < |s.phases| && t.phases == s.phases[k := p]
    requires t.ended == s.ended && t.live == s.live && t.failed == s.failed
    requires Finished(p) == Finished(s.phases[k])
    requires p.Unlocking? || p.Done? ==> p.delivered || s.failed
    ensures EndedInv(t)
  {
  }

  /** One phase changes, and the lock with it. */
  lemma PhaseLocks(s: Server, t: Server, k: nat, p: Phase)
    requires LoopInv(s) && LockInv(s) && k < |s.phases| && t == s.(phases := s.phases[k := p], owner := t.owner)
    requires !s.phases[k].Done?
    requires
      || (Holds(p) == Holds(s.phases[k]) && t.owner == s.owner)
      || (Holds(p) && s.owner.Free? && t.owner == ByHandler(k))
      || (!Holds(p) && Holds(s.phases[k]) && t.owner.Free?)
    ensures LoopInv(t) && LockInv(t)
  {
  }

  lemma QuietPhase(s: Server, t: Server, k: nat, p: Phase)
    requires LoopInv(s) && LockInv(s) && EndedInv(s) && LoopInv(t) && LockInv(t) && k < |s.phases|
    requires t == s.(phases := s.phases[k := p], owner := t.owner) && Finished(p) == Finished(s.phases[k])
    requires p.Unlocking? || p.Done? ==> s.phases[k].Unlocking? && p.answer == s.phases[k].answer
                                         && p.delivered == s.phases[k].delivered
    requires !s.phases[k].Writing? && !p.Writing? && (s.owner.ByHandler? ==> s.owner.k == k)
    ensures QuietMove(s, t)
  {
    PhaseEnded(s, t, k, p);
  }

  lemma SameMidReply(s: Server, t: Server, k: nat, p: Phase)
    requires LockInv(s) && k < |s.phases| && t == s.(phases := s.phases[k := p]) && !Holds(s.phases[k]) && !Holds(p)
    ensures MidReply(s) == MidReply(t) && (MidReply(s) ==> t.phases[s.owner.k] == s.phases[s.owner.k])
  {
  }

  lemma ReturnIsQuiet(c: Hpack, s: Server, k: nat, answer: Answer)
    requires LoopInv(s) && LockInv(s) && EndedInv(s) && k < |s.phases|
    ensures QuietMove(s, HandlerStep(c, s, k, Return(answer)))
  {
    var t := HandlerStep(c, s, k, Return(answer));
    if s.phases[k].Running? {
      PhaseLocks(s, t, k, t.phases[k]);
      PhaseEnded(s, t, k, t.phases[k]);
      SameMidReply(s, t, k, t.phases[k]);
    }
  }

  lemma LockIsQuiet(c: Hpack, s: Server, k: nat)
    requires LoopInv(s) && LockInv(s) && EndedInv(s) && k < |s.phases|
    ensures QuietMove(s, HandlerStep(c, s, k, Lock))
  {
    var t := HandlerStep(c, s, k, Lock);
    if s.phases[k].Waiting? && s.owner.Free? {
      PhaseLocks(s, t, k, t.phases[k]);
      QuietPhase(s, t, k, t.phases[k]);
    }
  }

  lemma UnlockIsQuiet(c: Hpack, s: Server, k: nat)
    requires LoopInv(s) && LockInv(s) && EndedInv(s) && k < |s.phases|
    ensures QuietMove(s, HandlerStep(c, s, k, Unlock))
  {
    var t := HandlerStep(c, s, k, Unlock);
    if s.phases[k].Unlocking? {
      assert Holds(s.phases[k]);
      PhaseLocks(s, t, k, t.phases[k]);
      QuietPhase(s, t, k, t.phases[k]);
    }
  }

  lemma HandlerStepInv(c: Hpack, s: Server, k: nat, move: Move)
    requires Lawful(c) && Inv(c, s) && k < |s.phases|
    ensures Inv(c, HandlerStep(c, s, k, move))
  {
    if move.Encode? {
      if s.phases[k].Holding? && s.phases[k].answer.Ok? { HandlerEncodeInv(c, s, k); }
    } else if move.Write? {
      WriteStepInv(c, s, k);
    } else {
      match move {
        case Return(answer) => ReturnIsQuiet(c, s, k, answer);
        case Lock => LockIsQuiet(c, s, k);
        case Unlock => UnlockIsQuiet(c, s, k);
      }
      QuietMoveInv(c, s, HandlerStep(c, s, k, move));
    }
  }

  lemma DoInv(c: Hpack, s: Server, step: Step)
    requires Lawful(c) && Inv(c, s)
    ensures Inv(c, Do(c, s, step))
  {
    if step.Handler? {
      if step.k < |s.phases| { HandlerStepInv(c, s, step.k, step.move); }
    } else {
      LoopStepInv(c, s, step);
    }
  }

  /** Every schedule keeps every invariant. */
  lemma {:induction false} RunInv(c: Hpack, limit: nat, steps: seq<Step>)
    requires Lawful(c)
    ensures Inv(c, Run(c, limit, steps))
  {
    if steps == [] {
      StartInv(c, limit);
    } else {
      RunInv(c, limit, steps[..|steps| - 1]);
      DoInv(c, Run(c, limit, steps[..|steps| - 1]), steps[|steps| - 1]);
    }
  }
}
