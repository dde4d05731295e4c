/**
 * What `ServeHTTP2` guarantees over every schedule of its read loop and handler
 * goroutines.
 */
module Http2Theorems {
  import opened Basics
  import opened Http2Model
  import opened Http2Wire
  import opened Http2Capture
  import opened Http2Engine

  /**
   * On every schedule the peer accepts the whole wire and has received, in the
   * order they finished, exactly the messages of the jobs that finished writing.
   */
  lemma PeerHearsWhatWasDelivered(c: Hpack, limit: nat, steps: seq<Step>)
    requires Lawful(c)
    ensures var s := Run(c, limit, steps);
            EndedInv(s) && Heard(c, s).ok && Heard(c, s).got == Delivered(s)
  {
    RunInv(c, limit, steps);
  }

  /** No schedule puts a control frame or another stream's frame inside a reply. */
  lemma NoFrameInsideReply(c: Hpack, limit: nat, steps: seq<Step>, i: nat, j: nat)
    requires Lawful(c)
    requires var wire := Run(c, limit, steps).wire;
             i < j < |wire| && wire[i].HeadersOut? && !wire[i].end && NoEnd(wire[i + 1..j])
    ensures var wire := Run(c, limit, steps).wire;
            wire[j].DataOut? && wire[j].id == wire[i].id && 0 < |wire[j].data| <= MAX_FRAME_SIZE
  {
    RunInv(c, limit, steps);
    RepliesAreContiguous(c, Run(c, limit, steps).wire, i, j);
  }

  /** While writes succeed the peer's decoder is in the encoder's state whenever no reply is being written. */
  lemma DecoderFollowsEncoder(c: Hpack, limit: nat, steps: seq<Step>)
    requires Lawful(c) && !Run(c, limit, steps).failed && !MidReply(Run(c, limit, steps))
    ensures var s := Run(c, limit, steps); Heard(c, s).table == s.table && Heard(c, s).current == None
  {
    RunInv(c, limit, steps);
  }

  // ---- goroutines and their inputs ----

  /** The jobs started are those the input completes, except one about to be started. */
  lemma StartedJobs(c: Hpack, limit: nat, steps: seq<Step>)
    requires Lawful(c)
    ensures var s := Run(c, limit, steps);
            var jobs := HandoffsUpTo(s.read, |s.read|);
            if Pending(s.loop).None? then s.live.jobs == jobs
            else |jobs| == |s.live.jobs| + 1 && s.live.jobs == jobs[..|s.live.jobs|]
  {
    RunInv(c, limit, steps);
    JobsAreHandoffs(Run(c, limit, steps).read);
  }

  function AnswerOf(p: Phase): Option<Answer> {
    if p.Running? then None else Some(p.answer)
  }

  /** A later state keeps every job, what its handler returned, how it ended, and all that was written. */
  ghost predicate Extends(s: Server, t: Server) {
    && s.live.jobs <= t.live.jobs && s.wire <= t.wire && s.ended <= t.ended && s.read <= t.read
    && |s.phases| <= |t.phases|
    && (forall k :: 0 <= k < |s.phases| ==>
          && (AnswerOf(s.phases[k]).Some? ==> AnswerOf(t.phases[k]) == AnswerOf(s.phases[k]))
          && (s.phases[k].Done? ==> t.phases[k] == s.phases[k]))
  }

  lemma LoopStepExtends(s: Server, step: Step)
    ensures Extends(s, LoopStep(s, step))
  {
  }

  /** A handler's move touches the loop's history not at all, and one phase. */
  lemma HandlerStepFrame(c: Hpack, s: Server, k: nat, move: Move)
    requires k < |s.phases| && |s.phases| == |s.live.jobs|
    ensures var t := HandlerStep(c, s, k, move);
            && t.live == s.live && t.read == s.read && t.loop == s.loop && t.limit == s.limit
            && |t.phases| == |s.phases| && t.phases == s.phases[k := t.phases[k]]
  {
  }

  lemma HandlerStepAnswer(c: Hpack, s: Server, k: nat, move: Move)
    requires k < |s.phases| && |s.phases| == |s.live.jobs|
    ensures var (p, q) := (s.phases[k], HandlerStep(c, s, k, move).phases[k]);
            && (AnswerOf(p).Some? ==> AnswerOf(q) == AnswerOf(p)) && (p.Done? ==> q == p)
  {
  }

  lemma HandlerStepAppends(c: Hpack, s: Server, k: nat, move: Move)
    requires k < |s.phases| && |s.phases| == |s.live.jobs|
    ensures s.wire <= HandlerStep(c, s, k, move).wire && s.ended <= HandlerStep(c, s, k, move).ended
  {
  }

  lemma HandlerStepExtends(c: Hpack, s: Server, k: nat, move: Move)
    requires k < |s.phases| && |s.phases| == |s.live.jobs|
    ensures Extends(s, HandlerStep(c, s, k, move))
  {
    HandlerStepFrame(c, s, k, move);
    HandlerStepAnswer(c, s, k, move);
    HandlerStepAppends(c, s, k, move);
  }

  lemma DoExtends(c: Hpack, s: Server, step: Step)
    ensures Extends(s, Do(c, s, step))
  {
    if step.Handler? {
      if step.k < |s.phases| == |s.live.jobs| { HandlerStepExtends(c, s, step.k, step.move); }
    } else {
      LoopStepExtends(s, step);
    }
  }

  lemma ExtendsTransitive(s: Server, t: Server, u: Server)
    requires Extends(s, t) && Extends(t, u)
    ensures Extends(s, u)
  {
    forall k | 0 <= k < |s.phases|
      ensures AnswerOf(s.phases[k]).Some? ==> AnswerOf(u.phases[k]) == AnswerOf(s.phases[k])
      ensures s.phases[k].Done? ==> u.phases[k] == s.phases[k]
    {
      assert AnswerOf(s.phases[k]).Some? ==> AnswerOf(t.phases[k]) == AnswerOf(s.phases[k]);
    }
  }

  /** Requests and snapshots handed over, answers and frames written are never changed by later steps. */
  lemma {:induction false} HistoryIsPermanent(c: Hpack, limit: nat, steps: seq<Step>, more: seq<Step>)
    ensures Extends(Run(c, limit, steps), Run(c, limit, steps + more))
  {
    if more == [] {
      assert steps + more == steps;
    } else {
      var init, last := more[..|more| - 1], more[|more| - 1];
      HistoryIsPermanent(c, limit, steps, init);
      DoExtends(c, Run(c, limit, steps + init), last);
      RunSnoc(c, limit, steps + init, last);
      assert steps + more == (steps + init) + [last];
      ExtendsTransitive(Run(c, limit, steps), Run(c, limit, steps + init), Run(c, limit, steps + more));
    }
  }

  // ---- the end of the connection ----

  /** Once `ServeHTTP2` has returned nothing runs and nothing is written any more. */
  lemma {:induction false} ReturnedIsFinal(c: Hpack, limit: nat, steps: seq<Step>, step: Step)
    requires Lawful(c) && Run(c, limit, steps).loop.Returned?
    ensures Do(c, Run(c, limit, steps), step) == Run(c, limit, steps)
    ensures forall k :: 0 <= k < |Run(c, limit, steps).phases| ==> Run(c, limit, steps).phases[k].Done?
  {
    RunInv(c, limit, steps);
  }

  /** `m` is what the handler given `job` answered. */
  ghost predicate AnswersJob(s: Server, m: Message, job: Handoff) {
    exists k :: 0 <= k < |s.live.jobs| && k < |s.phases| && s.live.jobs[k] == job
      && AnswerOf(s.phases[k]).Some? && m == MessageOf(job.id, AnswerOf(s.phases[k]).value)
  }

  /** Message `i` of `got` is the only one on stream `id`. */
  predicate OnlyMessage(got: seq<Message>, id: nat, i: nat) {
    && i < |got| && got[i].id == id
    && forall j :: 0 <= j < |got| && got[j].id == id ==> j == i
  }

  predicate NoMessage(got: seq<Message>, id: nat) {
    forall i :: 0 <= i < |got| ==> got[i].id != id
  }

  /** Every message on the wire answers its own job, and two messages never answer the same one. */
  lemma MessagesAnswerJobs(c: Hpack, limit: nat, steps: seq<Step>, i: nat)
    requires Lawful(c) && i < |Heard(c, Run(c, limit, steps)).got|
    ensures var s := Run(c, limit, steps);
            && i < |s.ended| == |Heard(c, s).got| && s.ended[i] < |s.live.jobs|
            && Heard(c, s).got[i].id == s.live.jobs[s.ended[i]].id
            && AnswersJob(s, Heard(c, s).got[i], s.live.jobs[s.ended[i]])
            && (forall j :: 0 <= j < |s.ended| && s.ended[j] == s.ended[i] ==> j == i)
  {
    RunInv(c, limit, steps);
    var s := Run(c, limit, steps);
    assert Heard(c, s).got[i] == Delivered(s)[i];
    forall j | 0 <= j < |s.ended| && s.ended[j] == s.ended[i]
      ensures j == i
    {
    }
  }

  /** When `ServeHTTP2` returns, every job has its one outcome on the wire unless a write failed. */
  lemma EveryJobIsAnswered(c: Hpack, limit: nat, steps: seq<Step>, k: nat) returns (i: nat)
    requires Lawful(c)
    requires var s := Run(c, limit, steps); s.loop.Returned? && !s.failed && k < |s.live.jobs|
    ensures var s := Run(c, limit, steps);
            && i < |s.ended| == |Heard(c, s).got| && s.ended[i] == k
            && AnswersJob(s, Heard(c, s).got[i], s.live.jobs[k])
            && Heard(c, s).got[i].id == s.live.jobs[k].id
  {
    RunInv(c, limit, steps);
    var s := Run(c, limit, steps);
    assert s.phases[k].Done? && Finished(s.phases[k]);
    assert k in s.ended;
    i :| 0 <= i < |s.ended| && s.ended[i] == k;
    assert |Delivered(s)| == |s.ended|;
    MessagesAnswerJobs(c, limit, steps, i);
  }

  lemma {:induction false} JobsForIndex(jobs: seq<Handoff>, id: nat, k: nat)
    requires k < |jobs| && jobs[k].id == id
    ensures jobs[k] in JobsFor(jobs, id)
    ensures forall j :: 0 <= j < |jobs| && j != k && jobs[j].id == id ==> |JobsFor(jobs, id)| >= 2
  {
    var init := jobs[..|jobs| - 1];
    if k < |init| {
      JobsForIndex(init, id, k);
    } else {
      forall j | 0 <= j < |init| && jobs[j].id == id
        ensures |JobsFor(init, id)| >= 1
      {
        JobsForIndex(init, id, j);
      }
    }
  }

  lemma {:induction false} JobsForWitness(jobs: seq<Handoff>, id: nat) returns (k: nat)
    requires JobsFor(jobs, id) != []
    ensures k < |jobs| && jobs[k].id == id
  {
    if jobs[|jobs| - 1].id == id {
      k := |jobs| - 1;
    } else {
      k := JobsForWitness(jobs[..|jobs| - 1], id);
    }
  }

  lemma {:induction false} JobsForIds(jobs: seq<Handoff>, id: nat)
    ensures forall j :: j in JobsFor(jobs, id) ==> j.id == id
  {
    if jobs != [] { JobsForIds(jobs[..|jobs| - 1], id); }
  }

  /** A message on stream `id` answers a job of stream `id`, so there is such a job. */
  lemma MessageNeedsJob(c: Hpack, limit: nat, steps: seq<Step>, id: nat, j: nat)
    requires Lawful(c) && j < |Heard(c, Run(c, limit, steps)).got| && Heard(c, Run(c, limit, steps)).got[j].id == id
    ensures var s := Run(c, limit, steps);
            && j < |s.ended| && s.ended[j] < |s.live.jobs| && s.live.jobs[s.ended[j]].id == id
            && JobsFor(s.live.jobs, id) != []
  {
    MessagesAnswerJobs(c, limit, steps, j);
    JobsForIndex(Run(c, limit, steps).live.jobs, id, Run(c, limit, steps).ended[j]);
  }

  lemma SameJobSameMessage(c: Hpack, limit: nat, steps: seq<Step>, id: nat, i: nat, j: nat)
    requires Lawful(c) && |JobsFor(Run(c, limit, steps).live.jobs, id)| <= 1
    requires var got := Heard(c, Run(c, limit, steps)).got;
             i < |got| && j < |got| && got[i].id == id == got[j].id
    ensures i == j
  {
    var s := Run(c, limit, steps);
    MessageNeedsJob(c, limit, steps, id, i);
    MessageNeedsJob(c, limit, steps, id, j);
    JobsForIndex(s.live.jobs, id, s.ended[i]);
    MessagesAnswerJobs(c, limit, steps, i);
  }

  lemma NoJobNoMessage(c: Hpack, limit: nat, steps: seq<Step>, id: nat)
    requires Lawful(c) && JobsFor(Run(c, limit, steps).live.jobs, id) == []
    ensures NoMessage(Heard(c, Run(c, limit, steps)).got, id)
  {
    var got := Heard(c, Run(c, limit, steps)).got;
    forall j | 0 <= j < |got|
      ensures got[j].id != id
    {
      if got[j].id == id { MessageNeedsJob(c, limit, steps, id, j); }
    }
  }

  lemma OnlyJob(jobs: seq<Handoff>, id: nat) returns (k: nat)
    requires |JobsFor(jobs, id)| == 1
    ensures k < |jobs| && jobs[k].id == id && JobsFor(jobs, id)[0] == jobs[k]
  {
    k := JobsForWitness(jobs, id);
    JobsForIndex(jobs, id, k);
  }

  lemma TheJobsMessage(c: Hpack, limit: nat, steps: seq<Step>, id: nat) returns (i: nat)
    requires Lawful(c)
    requires var s := Run(c, limit, steps); s.loop.Returned? && !s.failed && |JobsFor(s.live.jobs, id)| == 1
    ensures var s := Run(c, limit, steps);
            var got := Heard(c, s).got;
            OnlyMessage(got, id, i) && AnswersJob(s, got[i], JobsFor(s.live.jobs, id)[0])
  {
    var k := OnlyJob(Run(c, limit, steps).live.jobs, id);
    i := EveryJobIsAnswered(c, limit, steps, k);
    var got := Heard(c, Run(c, limit, steps)).got;
    forall j | 0 <= j < |got| && got[j].id == id
      ensures j == i
    {
      SameJobSameMessage(c, limit, steps, id, i, j);
    }
  }

  /** Served to the end without a write failure, a stream with one job gets its one message; one with none, none. */
  lemma OneJobOneMessage(c: Hpack, limit: nat, steps: seq<Step>, id: nat) returns (i: nat)
    requires Lawful(c)
    requires var s := Run(c, limit, steps); s.loop.Returned? && !s.failed && |JobsFor(s.live.jobs, id)| <= 1
    ensures var s := Run(c, limit, steps);
            var got, jobs := Heard(c, s).got, JobsFor(s.live.jobs, id);
            if jobs == [] then NoMessage(got, id)
            else OnlyMessage(got, id, i) && AnswersJob(s, got[i], jobs[0])
  {
    i := 0;
    if JobsFor(Run(c, limit, steps).live.jobs, id) == [] {
      NoJobNoMessage(c, limit, steps, id);
    } else {
      i := TheJobsMessage(c, limit, steps, id);
    }
  }

  /** The client received exactly one message on the job's stream: the answer of the handler given `job`. */
  ghost predicate OneAnswerFor(s: Server, got: seq<Message>, job: Handoff) {
    exists i: nat :: OnlyMessage(got, job.id, i) && AnswersJob(s, got[i], job)
  }

  /** What the client may expect on a stream it opens with `start`'s last frame and continues in `post`. */
  ghost predicate ServedOnce(s: Server, got: seq<Message>, start: seq<InFrame>, id: nat, fields: seq<Header>,
                             end: bool, post: seq<InFrame>) {
    && (end ==> OneAnswerFor(s, got, Handoff(id, RequestAfter(id, fields, []), FingerprintOf(start))))
    && (!end ==> forall e :: EndsAt(post, id, e) ==>
          OneAnswerFor(s, got, Handoff(id, RequestAfter(id, fields, post[..e + 1]),
                                       FingerprintOf(start + post[..e + 1]))))
    && ((!end && forall e :: !EndsAt(post, id, e)) ==> NoMessage(got, id))
  }

  /**
   * End to end, for a stream the client opens once on a connection that has been
   * served to the end without a write failure. If END_STREAM arrived before any
   * RST_STREAM, one handler was given the stream's own request and the fold of the
   * frames read up to END_STREAM, and the client received exactly one message on
   * the stream: that handler's answer. Otherwise it received none.
   */
  lemma OpenedOnceServedOnce(c: Hpack, limit: nat, steps: seq<Step>, pre: seq<InFrame>, id: nat, fields: seq<Header>,
                             end: bool, post: seq<InFrame>)
    requires Lawful(c)
    requires var s := Run(c, limit, steps);
             s.loop.Returned? && !s.failed && s.read == pre + [HeadersIn(id, fields, end)] + post
    requires NoBlockOn(pre, id) && NoBlockOn(post, id)
    ensures var s := Run(c, limit, steps);
            ServedOnce(s, Heard(c, s).got, pre + [HeadersIn(id, fields, end)], id, fields, end, post)
  {
    RunInv(c, limit, steps);
    OneHandlerPerStream(pre, id, fields, end, post);
    assert Run(c, limit, steps).live == ReadAll(pre + [HeadersIn(id, fields, end)] + post);
    var i := OneJobOneMessage(c, limit, steps, id);
    var jobs := JobsFor(Run(c, limit, steps).live.jobs, id);
    assert jobs != [] ==> OneAnswerFor(Run(c, limit, steps), Heard(c, Run(c, limit, steps)).got, jobs[0]) by {
      if jobs != [] { JobsForIds(Run(c, limit, steps).live.jobs, id); }
    }
  }

  // ---- the drain ends ----

  /** Steps a handler that has returned may still take, bounded by the frames of its answer. */
  function PhaseWork(p: Phase): nat {
    match p
    case Running => 0
    case Waiting(answer) => 6 + if answer.Ok? then |answer.resp.body| else 0
    case Holding(answer) => 5 + if answer.Ok? then |answer.resp.body| else 0
    case Writing(_, rest) => 2 + |rest|
    case Unlocking(_, _) => 1
    case Done(_, _) => 0
  }

  function Work(phases: seq<Phase>): nat {
    if phases == [] then 0 else Work(phases[..|phases| - 1]) + PhaseWork(phases[|phases| - 1])
  }

  function StillRunning(phases: seq<Phase>): nat {
    if phases == [] then 0
    else StillRunning(phases[..|phases| - 1]) + if phases[|phases| - 1].Running? then 1 else 0
  }

  lemma {:induction false} WorkUpdate(phases: seq<Phase>, k: nat, p: Phase)
    requires k < |phases|
    ensures Work(phases[k := p]) == Work(phases) - PhaseWork(phases[k]) + PhaseWork(p)
    ensures StillRunning(phases[k := p])
            == StillRunning(phases) - (if phases[k].Running? then 1 else 0) + if p.Running? then 1 else 0
  {
    var init := phases[..|phases| - 1];
    if k < |init| {
      WorkUpdate(init, k, p);
      assert phases[k := p][..|phases| - 1] == init[k := p];
    } else {
      assert phases[k := p][..|phases| - 1] == init;
    }
  }

  lemma {:induction false} FewDataFrames(id: nat, body: Bytes)
    ensures |DataFrames(id, body)| <= 1 + |body|
    decreases |body|
  {
    if |body| > MAX_FRAME_SIZE {
      FewDataFrames(id, body[MAX_FRAME_SIZE..]);
    }
  }

  ghost predicate Progress(s: Server, t: Server) {
    || t.loop.Returned?
    || (t.loop.Draining? && StillRunning(t.phases) < StillRunning(s.phases))
    || (t.loop.Draining? && StillRunning(t.phases) == StillRunning(s.phases) && Work(t.phases) < Work(s.phases))
  }

  lemma EncodeMakesProgress(c: Hpack, s: Server, k: nat)
    requires k < |s.phases| && |s.phases| == |s.live.jobs| && s.phases[k].Holding? && s.phases[k].answer.Ok?
    ensures PhaseWork(HandlerStep(c, s, k, Encode).phases[k]) < PhaseWork(s.phases[k])
  {
    FewDataFrames(s.live.jobs[k].id, s.phases[k].answer.resp.body);
  }

  lemma WriteMakesProgress(s: Server, k: nat)
    requires k < |s.phases| && |s.phases| == |s.live.jobs| && WriteStep(s, k) != s
    ensures var p := WriteStep(s, k).phases[k]; !p.Running? && PhaseWork(p) < PhaseWork(s.phases[k])
  {
  }

  lemma MoveMakesProgress(c: Hpack, s: Server, k: nat, move: Move)
    requires k < |s.phases| && |s.phases| == |s.live.jobs| && HandlerStep(c, s, k, move) != s
    ensures var p := HandlerStep(c, s, k, move).phases[k];
            && !p.Running? && (!s.phases[k].Running? ==> PhaseWork(p) < PhaseWork(s.phases[k]))
  {
    if move.Encode? {
      EncodeMakesProgress(c, s, k);
    } else if move.Write? {
      WriteMakesProgress(s, k);
    }
  }

  /**
   * Once the loop drains, every step that does anything makes progress: a running
   * handler returns, or the work left to the handlers that have returned shrinks,
   * or `ServeHTTP2` returns.
   */
  lemma DrainMakesProgress(c: Hpack, s: Server, step: Step)
    requires Inv(c, s) && s.loop.Draining? && Do(c, s, step) != s
    ensures Progress(s, Do(c, s, step))
  {
    if step.Handler? {
      MoveMakesProgress(c, s, step.k, step.move);
      HandlerStepFrame(c, s, step.k, step.move);
      WorkUpdate(s.phases, step.k, Do(c, s, step).phases[step.k]);
    }
  }

  /** No handler goroutine is in the middle of `handle` or of a write. */
  predicate AllDone(s: Server) {
    forall k :: 0 <= k < |s.phases| ==> s.phases[k].Done?
  }

  predicate IsReadStep(step: Step) {
    step.ReadFrame? || step.ReadEnd?
  }

  /**
   * No deadlock: in every reachable state, unless `ServeHTTP2` has returned or the
   * loop is waiting for the client with no handler left, some step other than a
   * read changes the state.
   */
  lemma SomeStepIsEnabled(c: Hpack, s: Server) returns (step: Step)
    requires Inv(c, s) && !s.loop.Returned? && !(s.loop.Reading? && AllDone(s))
    ensures !IsReadStep(step) && Do(c, s, step) != s
  {
    if s.owner.ByHandler? {
      step := HolderStep(c, s);
    } else if s.loop.Sending? || s.loop.Sent? || s.loop.Acting? {
      step := LoopMove(s.loop);
      LoopMoves(s);
    } else if !AllDone(s) {
      step := IdleStep(c, s);
    } else {
      step := LoopReturn;
    }
  }

  /** What the read loop does next between frames. */
  function LoopMove(loop: Loop): Step {
    match loop
    case Sending(_, _) => LoopSend
    case Sent(_, _) => LoopUnlock
    case Acting(sends, _) => if sends != [] then LoopLock else LoopSpawn
    case _ => LoopReturn
  }

  lemma LoopMoves(s: Server)
    requires LoopInv(s) && LockInv(s) && !s.owner.ByHandler? && (s.loop.Sending? || s.loop.Sent? || s.loop.Acting?)
    ensures LoopStep(s, LoopMove(s.loop)).loop != s.loop
  {
  }

  /** Without an owner of the lock a handler that is not done can return or take it. */
  lemma IdleStep(c: Hpack, s: Server) returns (step: Step)
    requires Inv(c, s) && s.owner.Free? && !AllDone(s)
    ensures step.Handler? && Do(c, s, step) != s
  {
    var k :| 0 <= k < |s.phases| && !s.phases[k].Done?;
    assert !Holds(s.phases[k]);
    step := Handler(k, if s.phases[k].Running? then Return(Err) else Lock);
    assert Do(c, s, step).phases[k] != s.phases[k];
  }

  /** The move of the handler that owns the lock: it can always take it. */
  function HolderMove(p: Phase): Move {
    if p.Unlocking? then Unlock else if p.Holding? && p.answer.Ok? then Encode else Write
  }

  lemma HolderMoves(c: Hpack, s: Server, k: nat)
    requires k < |s.phases| && |s.phases| == |s.live.jobs| && Holds(s.phases[k])
    requires s.phases[k].Writing? ==> s.phases[k].rest != []
    ensures HandlerStep(c, s, k, HolderMove(s.phases[k])).phases[k] != s.phases[k]
  {
  }

  lemma HolderStep(c: Hpack, s: Server) returns (step: Step)
    requires Inv(c, s) && s.owner.ByHandler?
    ensures !IsReadStep(step) && Do(c, s, step) != s
  {
    var k := s.owner.k;
    assert s.phases[k].Writing? ==> MidReply(s);
    HolderMoves(c, s, k);
    step := Handler(k, HolderMove(s.phases[k]));
  }

  /** The server after further steps. */
  function Continue(c: Hpack, s: Server, steps: seq<Step>): Server
    decreases |steps|
  {
    if steps == [] then s else Continue(c, Do(c, s, steps[0]), steps[1..])
  }

  lemma {:induction false} RunContinues(c: Hpack, limit: nat, steps: seq<Step>, more: seq<Step>)
    ensures Run(c, limit, steps + more) == Continue(c, Run(c, limit, steps), more)
    decreases |more|
  {
    if more == [] {
      assert steps + more == steps;
    } else {
      MoveHead(steps, more);
      RunSnoc(c, limit, steps, more[0]);
      RunContinues(c, limit, steps + [more[0]], more[1..]);
    }
  }

  lemma {:induction false} DrainFinishes(c: Hpack, s: Server) returns (more: seq<Step>)
    requires Lawful(c) && Inv(c, s) && s.loop.Draining?
    ensures Continue(c, s, more).loop.Returned?
    decreases StillRunning(s.phases), Work(s.phases)
  {
    var step := SomeStepIsEnabled(c, s);
    var t := Do(c, s, step);
    DoInv(c, s, step);
    DrainMakesProgress(c, s, step);
    var tail := [];
    if !t.loop.Returned? {
      tail := DrainFinishes(c, t);
    }
    more := [step] + tail;
    assert more[1..] == tail;
  }

  /**
   * From every reachable draining state the connection can be closed in order:
   * whatever the schedule did, it can be continued to the point where every
   * handler is done and `ServeHTTP2` has returned.
   */
  lemma DrainCanFinish(c: Hpack, limit: nat, steps: seq<Step>) returns (more: seq<Step>)
    requires Lawful(c) && Run(c, limit, steps).loop.Draining?
    ensures Run(c, limit, steps + more).loop.Returned?
  {
    RunInv(c, limit, steps);
    more := DrainFinishes(c, Run(c, limit, steps));
    RunContinues(c, limit, steps, more);
  }

  /** The server after the first `n` steps of an endless schedule. */
  function Follow(c: Hpack, s: Server, next: nat -> Step, n: nat): Server {
    if n == 0 then s else Do(c, Follow(c, s, next, n - 1), next(n - 1))
  }

  lemma {:induction false} DrainEndsFrom(c: Hpack, s: Server, next: nat -> Step, i: nat) returns (n: nat)
    requires Lawful(c) && Inv(c, Follow(c, s, next, i)) && Follow(c, s, next, i).loop.Draining?
    ensures var t := Follow(c, s, next, n); t.loop.Returned? || (t.loop.Draining? && Do(c, t, next(n)) == t)
    decreases StillRunning(Follow(c, s, next, i).phases), Work(Follow(c, s, next, i).phases)
  {
    var t := Follow(c, s, next, i);
    if Do(c, t, next(i)) == t {
      n := i;
    } else {
      DoInv(c, t, next(i));
      DrainMakesProgress(c, t, next(i));
      assert Follow(c, s, next, i + 1) == Do(c, t, next(i));
      if Do(c, t, next(i)).loop.Returned? {
        n := i + 1;
      } else {
        n := DrainEndsFrom(c, s, next, i + 1);
      }
    }
  }

  /**
   * No drain goes on for ever: from every reachable draining state each endless
   * schedule returns or comes to a step that does nothing, so one that keeps
   * taking steps that do something (and one always can) returns.
   */
  lemma EveryDrainEnds(c: Hpack, limit: nat, steps: seq<Step>, next: nat -> Step) returns (n: nat)
    requires Lawful(c) && Run(c, limit, steps).loop.Draining?
    ensures var t := Follow(c, Run(c, limit, steps), next, n);
            t.loop.Returned? || (t.loop.Draining? && Do(c, t, next(n)) == t)
  {
    RunInv(c, limit, steps);
    n := DrainEndsFrom(c, Run(c, limit, steps), next, 0);
  }
}
