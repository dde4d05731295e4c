/**
 * What the read loop captures, stated without the read loop: the fingerprint is
 * a fold of the connection-level frames, a stream's life depends on its own
 * frames only, and every hand-over is fixed by the frames read before it.
 */
module Http2Capture {
  import opened Basics
  import opened Http2Blocks
  import opened Http2Model

  // ---- the connection fingerprint ----

  function FrameSettings(f: InFrame): seq<Setting> {
    if f.SettingsIn? && !f.ack then f.settings else []
  }

  function FramePriorities(f: InFrame): seq<Priority> {
    if f.PriorityIn? then [f.priority] else []
  }

  function FrameFlow(f: InFrame): nat {
    if f.WindowUpdateIn? && f.id == 0 then f.increment else 0
  }

  function SettingsOf(read: seq<InFrame>): seq<Setting> {
    if read == [] then [] else FrameSettings(read[0]) + SettingsOf(read[1..])
  }

  function PrioritiesOf(read: seq<InFrame>): seq<Priority> {
    if read == [] then [] else FramePriorities(read[0]) + PrioritiesOf(read[1..])
  }

  /** The sum, unbounded, of the connection-level WINDOW_UPDATE increments. */
  function FlowOf(read: seq<InFrame>): nat {
    if read == [] then 0 else FrameFlow(read[0]) + FlowOf(read[1..])
  }

  /** The pseudo-header order of the first header block that has pseudo-headers. */
  function FirstPseudo(read: seq<InFrame>): seq<string> {
    if read == [] then []
    else if read[0].HeadersIn? && PseudoNames(read[0].fields) != [] then PseudoNames(read[0].fields)
    else FirstPseudo(read[1..])
  }

  /** The header order of the first header block that has regular headers. */
  function FirstHeaders(read: seq<InFrame>): seq<string> {
    if read == [] then []
    else if read[0].HeadersIn? && Regular(read[0].fields) != [] then Names(Regular(read[0].fields))
    else FirstHeaders(read[1..])
  }

  function FingerprintOf(read: seq<InFrame>): Fingerprint {
    Fingerprint(SettingsOf(read), FlowOf(read) % 0x1_0000_0000, PrioritiesOf(read), FirstPseudo(read),
                FirstHeaders(read))
  }

  lemma {:induction false} SettingsParts(a: seq<InFrame>, b: seq<InFrame>)
    ensures SettingsOf(a + b) == SettingsOf(a) + SettingsOf(b)
  {
    if a == [] {
      assert a + b == b;
    } else {
      assert (a + b)[1..] == a[1..] + b;
      SettingsParts(a[1..], b);
    }
  }

  lemma {:induction false} PrioritiesParts(a: seq<InFrame>, b: seq<InFrame>)
    ensures PrioritiesOf(a + b) == PrioritiesOf(a) + PrioritiesOf(b)
  {
    if a == [] {
      assert a + b == b;
    } else {
      assert (a + b)[1..] == a[1..] + b;
      PrioritiesParts(a[1..], b);
    }
  }

  lemma {:induction false} FlowParts(a: seq<InFrame>, b: seq<InFrame>)
    ensures FlowOf(a + b) == FlowOf(a) + FlowOf(b)
  {
    if a == [] {
      assert a + b == b;
    } else {
      assert (a + b)[1..] == a[1..] + b;
      FlowParts(a[1..], b);
    }
  }

  lemma {:induction false} OrderParts(a: seq<InFrame>, b: seq<InFrame>)
    ensures FirstPseudo(a + b) == if FirstPseudo(a) != [] then FirstPseudo(a) else FirstPseudo(b)
    ensures FirstHeaders(a + b) == if FirstHeaders(a) != [] then FirstHeaders(a) else FirstHeaders(b)
  {
    if a == [] {
      assert a + b == b;
    } else {
      assert (a + b)[1..] == a[1..] + b;
      OrderParts(a[1..], b);
    }
  }

  lemma OneFrame(f: InFrame)
    ensures SettingsOf([f]) == FrameSettings(f) && PrioritiesOf([f]) == FramePriorities(f)
    ensures FlowOf([f]) == FrameFlow(f)
    ensures FirstPseudo([f]) == if f.HeadersIn? then PseudoNames(f.fields) else []
    ensures FirstHeaders([f]) == if f.HeadersIn? then Names(Regular(f.fields)) else []
  {
    assert [f][1..] == [];
    assert FirstPseudo([]) == [] && FirstHeaders([]) == [];
  }

  /** `next` is `fp` with frame `f` recorded. */
  predicate Notes(fp: Fingerprint, f: InFrame, next: Fingerprint) {
    && next.settings == fp.settings + FrameSettings(f)
    && next.priorities == fp.priorities + FramePriorities(f)
    && next.connectionFlow == (fp.connectionFlow + FrameFlow(f)) % 0x1_0000_0000
    && next.pseudoOrder == (if f.HeadersIn? && fp.pseudoOrder == [] then PseudoNames(f.fields) else fp.pseudoOrder)
    && next.headerOrder
       == (if f.HeadersIn? && fp.headerOrder == [] then Names(Regular(f.fields)) else fp.headerOrder)
  }

  lemma ListsSnoc(read: seq<InFrame>, f: InFrame)
    ensures SettingsOf(read + [f]) == SettingsOf(read) + FrameSettings(f)
    ensures PrioritiesOf(read + [f]) == PrioritiesOf(read) + FramePriorities(f)
    ensures FlowOf(read + [f]) == FlowOf(read) + FrameFlow(f)
  {
    SettingsParts(read, [f]);
    PrioritiesParts(read, [f]);
    FlowParts(read, [f]);
    OneFrame(f);
  }

  lemma OrdersSnoc(read: seq<InFrame>, f: InFrame)
    ensures FirstPseudo(read + [f])
            == if f.HeadersIn? && FirstPseudo(read) == [] then PseudoNames(f.fields) else FirstPseudo(read)
    ensures FirstHeaders(read + [f])
            == if f.HeadersIn? && FirstHeaders(read) == [] then Names(Regular(f.fields)) else FirstHeaders(read)
  {
    OrderParts(read, [f]);
    OneFrame(f);
  }

  lemma FingerprintSnoc(read: seq<InFrame>, f: InFrame)
    ensures Notes(FingerprintOf(read), f, FingerprintOf(read + [f]))
  {
    ListsSnoc(read, f);
    OrdersSnoc(read, f);
    WrapsOnce(FlowOf(read), FrameFlow(f));
  }

  lemma WrapsOnce(a: nat, b: nat)
    ensures (a + b) % 0x1_0000_0000 == (a % 0x1_0000_0000 + b) % 0x1_0000_0000
  {
  }

  /** The live fingerprint is the fold of every frame read so far. */
  lemma {:induction false} FingerprintIsFold(read: seq<InFrame>)
    ensures ReadAll(read).fp == FingerprintOf(read)
  {
    if read != [] {
      var init, f := read[..|read| - 1], read[|read| - 1];
      FingerprintIsFold(init);
      assert read == init + [f];
      ReadAllSnoc(init, f);
      FingerprintFoldStep(ReadAll(init), init, f);
    }
  }

  lemma NotesFixesNext(fp: Fingerprint, f: InFrame, a: Fingerprint, b: Fingerprint)
    requires Notes(fp, f, a) && Notes(fp, f, b)
    ensures a == b
  {
  }

  lemma FingerprintFoldStep(r: Reader, read: seq<InFrame>, f: InFrame)
    requires r.fp == FingerprintOf(read)
    ensures OnFrame(r, f).fp == FingerprintOf(read + [f])
  {
    FingerprintSnoc(read, f);
    AbsorbedFingerprint(r, f);
    NotesFixesNext(r.fp, f, OnFrame(r, f).fp, FingerprintOf(read + [f]));
  }

  lemma AbsorbedFingerprint(r: Reader, f: InFrame)
    requires r.fp.connectionFlow < 0x1_0000_0000
    ensures Notes(r.fp, f, OnFrame(r, f).fp)
  {
  }

  // ---- one stream ----

  /** What frame `f` makes of the stream object the map holds for `id`. */
  function LifeAfter(before: Option<Stream>, f: InFrame, id: nat): Option<Stream> {
    match f
    case HeadersIn(i, fields, end) =>
      if i != id then before else if end then None else Some(OpenedBy(id, fields))
    case DataIn(i, data, _, end) =>
      if i != id || before.None? then before
      else if end then None
      else Some(before.value.(body := before.value.body + data))
    case RstIn(i) => if i != id then before else None
    case _ => before
  }

  /** The stream object the read loop's map holds for `id` after `read`, from frames on `id` only. */
  function LifeOf(read: seq<InFrame>, id: nat): Option<Stream> {
    if read == [] then None else LifeAfter(LifeOf(read[..|read| - 1], id), read[|read| - 1], id)
  }

  lemma LifeSnoc(read: seq<InFrame>, f: InFrame, id: nat)
    ensures LifeOf(read + [f], id) == LifeAfter(LifeOf(read, id), f, id)
  {
    assert (read + [f])[..|read|] == read;
  }

  lemma {:induction false} StreamsAreLives(read: seq<InFrame>, id: nat)
    ensures id in ReadAll(read).streams <==> LifeOf(read, id).Some?
    ensures id in ReadAll(read).streams ==> ReadAll(read).streams[id] == LifeOf(read, id).value
  {
    if read != [] {
      StreamsAreLives(read[..|read| - 1], id);
    }
  }

  predicate OnStream(f: InFrame, id: nat) {
    match f
    case HeadersIn(i, _, _) => i == id
    case DataIn(i, _, _, _) => i == id
    case RstIn(i) => i == id
    case _ => false
  }

  function Project(read: seq<InFrame>, id: nat): seq<InFrame> {
    if read == [] then []
    else
      var init, f := Project(read[..|read| - 1], id), read[|read| - 1];
      if OnStream(f, id) then init + [f] else init
  }

  /** However streams interleave, a stream's state is that of its own frames read alone. */
  lemma {:induction false} InterleavingIsInvisible(read: seq<InFrame>, id: nat)
    ensures LifeOf(read, id) == LifeOf(Project(read, id), id)
  {
    if read != [] {
      var init, f := read[..|read| - 1], read[|read| - 1];
      InterleavingIsInvisible(init, id);
      assert read == init + [f];
      LifeSnoc(init, f, id);
      LifeSnoc(Project(init, id), f, id);
    }
  }

  // ---- hand-overs ----

  /** The n-th frame read completes an open stream. */
  predicate DispatchedAt(read: seq<InFrame>, n: nat)
    requires 0 < n <= |read|
  {
    match read[n - 1]
    case HeadersIn(_, _, end) => end
    case DataIn(id, _, _, end) => end && LifeOf(read[..n - 1], id).Some?
    case _ => false
  }

  /** The hand-over the n-th frame triggers: request and snapshot from the first n frames only. */
  function HandoffAt(read: seq<InFrame>, n: nat): Handoff
    requires 0 < n <= |read| && DispatchedAt(read, n)
  {
    match read[n - 1]
    case HeadersIn(id, fields, _) => Handoff(id, RequestOf(OpenedBy(id, fields)), FingerprintOf(read[..n]))
    case DataIn(id, data, _, _) =>
      var st := LifeOf(read[..n - 1], id).value;
      Handoff(id, RequestOf(st.(body := st.body + data)), FingerprintOf(read[..n]))
  }

  function HandoffsUpTo(read: seq<InFrame>, n: nat): seq<Handoff>
    requires n <= |read|
  {
    if n == 0 then []
    else if DispatchedAt(read, n) then HandoffsUpTo(read, n - 1) + [HandoffAt(read, n)]
    else HandoffsUpTo(read, n - 1)
  }

  lemma {:induction false} HandoffsArePrefixStable(read: seq<InFrame>, more: seq<InFrame>, n: nat)
    requires n <= |read|
    ensures HandoffsUpTo(read + more, n) == HandoffsUpTo(read, n)
  {
    if n > 0 {
      assert (read + more)[..n] == read[..n];
      assert (read + more)[..n - 1] == read[..n - 1];
      HandoffsArePrefixStable(read, more, n - 1);
    }
  }

  /** The goroutines started are exactly the completions in the input, each with the fold of its own past. */
  lemma {:induction false} JobsAreHandoffs(read: seq<InFrame>)
    ensures ReadAll(read).jobs == HandoffsUpTo(read, |read|)
  {
    if read != [] {
      var init, f := read[..|read| - 1], read[|read| - 1];
      assert read == init + [f];
      JobsAreHandoffs(init);
      HandoffsArePrefixStable(init, [f], |init|);
      assert read[..|read|] == read;
      FingerprintIsFold(read);
      FingerprintIsFold(init);
      match f
      case HeadersIn(id, _, _) =>
      case DataIn(id, _, _, _) => StreamsAreLives(init, id);
      case _ =>
    }
  }

  lemma FramesOnlyAddJobs(r: Reader, f: InFrame)
    ensures r.jobs <= OnFrame(r, f).jobs
  {
  }

  lemma {:induction false} EarlierJobsStay(read: seq<InFrame>, n: nat)
    requires n <= |read|
    ensures ReadAll(read[..n]).jobs <= ReadAll(read).jobs
  {
    if n == |read| {
      assert read[..n] == read;
    } else {
      var init := read[..|read| - 1];
      EarlierJobsStay(init, n);
      assert init[..n] == read[..n];
      FramesOnlyAddJobs(ReadAll(init), read[|read| - 1]);
    }
  }

  /** A hand-over never changes once made: later frames only add hand-overs after it. */
  lemma LaterFramesOnlyAppend(read: seq<InFrame>, more: seq<InFrame>)
    ensures ReadAll(read).jobs <= ReadAll(read + more).jobs
  {
    EarlierJobsStay(read + more, |read|);
    assert (read + more)[..|read|] == read;
  }

  /** Each job's frame count, kept to order the snapshots. */
  lemma {:induction false} JobPoint(read: seq<InFrame>, n: nat, i: nat) returns (p: nat)
    requires n <= |read| && i < |HandoffsUpTo(read, n)|
    ensures 0 < p <= n && DispatchedAt(read, p)
    ensures HandoffsUpTo(read, n)[i] == HandoffAt(read, p)
    ensures |HandoffsUpTo(read, p)| == i + 1
  {
    if DispatchedAt(read, n) && i == |HandoffsUpTo(read, n)| - 1 {
      p := n;
    } else {
      p := JobPoint(read, n - 1, i);
    }
  }

  lemma {:induction false} HandoffsGrow(read: seq<InFrame>, m: nat, n: nat)
    requires m <= n <= |read|
    ensures |HandoffsUpTo(read, m)| <= |HandoffsUpTo(read, n)|
  {
    if m < n {
      HandoffsGrow(read, m, n - 1);
    }
  }

  /** What one fold of the frames says about a longer one. */
  lemma FoldGrows(read: seq<InFrame>, m: nat, n: nat)
    requires m <= n <= |read|
    ensures var a, b := FingerprintOf(read[..m]), FingerprintOf(read[..n]);
            && a.settings <= b.settings
            && a.priorities <= b.priorities
            && (a.pseudoOrder != [] ==> b.pseudoOrder == a.pseudoOrder)
            && (a.headerOrder != [] ==> b.headerOrder == a.headerOrder)
  {
    assert read[..n] == read[..m] + read[m..n];
    SettingsParts(read[..m], read[m..n]);
    PrioritiesParts(read[..m], read[m..n]);
    OrderParts(read[..m], read[m..n]);
  }

  /**
   * Earlier snapshots are prefixes of later ones where lists grow, and once a
   * snapshot has an order every later snapshot has the same one.
   */
  lemma SnapshotsGrow(read: seq<InFrame>, i: nat, j: nat)
    requires i < j < |ReadAll(read).jobs|
    ensures var a, b := ReadAll(read).jobs[i].snapshot, ReadAll(read).jobs[j].snapshot;
            && a.settings <= b.settings
            && a.priorities <= b.priorities
            && (a.pseudoOrder != [] ==> b.pseudoOrder == a.pseudoOrder)
            && (a.headerOrder != [] ==> b.headerOrder == a.headerOrder)
  {
    JobsAreHandoffs(read);
    var m := JobPoint(read, |read|, i);
    var n := JobPoint(read, |read|, j);
    if n < m {
      HandoffsGrow(read, n, m);
    }
    FoldGrows(read, m, n);
  }

  // ---- the first and the last dispatch ----

  ghost predicate FirstDispatch(read: seq<InFrame>, p: nat) {
    0 < p <= |read| && DispatchedAt(read, p) && forall n :: 0 < n < p ==> !DispatchedAt(read, n)
  }

  ghost predicate LastDispatch(read: seq<InFrame>, q: nat) {
    0 < q <= |read| && DispatchedAt(read, q) && forall n :: q < n <= |read| ==> !DispatchedAt(read, n)
  }

  lemma DispatchCounts(read: seq<InFrame>, m: nat, n: nat)
    requires 0 < m < n <= |read| && DispatchedAt(read, m) && DispatchedAt(read, n)
    ensures 0 < |HandoffsUpTo(read, m)| < |HandoffsUpTo(read, n)|
  {
    HandoffsGrow(read, m, n - 1);
  }

  lemma FirstJobAt(read: seq<InFrame>, p: nat)
    requires FirstDispatch(read, p)
    ensures ReadAll(read).jobs != [] && ReadAll(read).jobs[0] == HandoffAt(read, p)
  {
    JobsAreHandoffs(read);
    HandoffsGrow(read, p, |read|);
    var m := JobPoint(read, |read|, 0);
    if p < m { DispatchCounts(read, p, m); }
  }

  lemma LastJobAt(read: seq<InFrame>, q: nat)
    requires LastDispatch(read, q)
    ensures var jobs := ReadAll(read).jobs; jobs != [] && jobs[|jobs| - 1] == HandoffAt(read, q)
  {
    JobsAreHandoffs(read);
    HandoffsGrow(read, q, |read|);
    var m := JobPoint(read, |read|, |ReadAll(read).jobs| - 1);
    if m < q { DispatchCounts(read, m, q); }
  }

  /** Where anything was dispatched there is a first and a last dispatch. */
  lemma DispatchEnds(read: seq<InFrame>) returns (p: nat, q: nat)
    requires ReadAll(read).jobs != []
    ensures FirstDispatch(read, p) && LastDispatch(read, q)
  {
    JobsAreHandoffs(read);
    p := JobPoint(read, |read|, 0);
    q := JobPoint(read, |read|, |ReadAll(read).jobs| - 1);
    forall n | 0 < n < p
      ensures !DispatchedAt(read, n)
    {
      if DispatchedAt(read, n) { DispatchCounts(read, n, p); }
    }
    forall n | q < n <= |read|
      ensures !DispatchedAt(read, n)
    {
      if DispatchedAt(read, n) {
        DispatchCounts(read, q, n);
        HandoffsGrow(read, n, |read|);
      }
    }
  }

  lemma OrderIsKept(read: seq<InFrame>, i: nat, j: nat)
    requires i <= j < |ReadAll(read).jobs|
    ensures var a, b := ReadAll(read).jobs[i].snapshot.pseudoOrder, ReadAll(read).jobs[j].snapshot.pseudoOrder;
            a != [] ==> b == a
  {
    if i < j { SnapshotsGrow(read, i, j); }
  }

  /** Every snapshot's order is empty or the last one's, and the first one's if that is not empty. */
  lemma OrderOfAny(read: seq<InFrame>, p: nat, q: nat, i: nat)
    requires FirstDispatch(read, p) && LastDispatch(read, q) && i < |ReadAll(read).jobs|
    ensures var order := ReadAll(read).jobs[i].snapshot.pseudoOrder;
            && (order == [] || order == FirstPseudo(read[..q]))
            && (FirstPseudo(read[..p]) != [] ==> order == FirstPseudo(read[..p]))
  {
    FirstJobAt(read, p);
    LastJobAt(read, q);
    OrderIsKept(read, 0, i);
    OrderIsKept(read, i, |ReadAll(read).jobs| - 1);
  }

  ghost predicate OneOrder(jobs: seq<Handoff>) {
    forall i, j :: 0 <= i < |jobs| && 0 <= j < |jobs| ==> jobs[i].snapshot.pseudoOrder == jobs[j].snapshot.pseudoOrder
  }

  /**
   * Whichever goroutine reads its snapshot first, all see one pseudo-header order
   * exactly when some block up to the first dispatch has pseudo-headers, or none
   * up to the last one has.
   */
  lemma OneOrderForAll(read: seq<InFrame>, p: nat, q: nat)
    requires FirstDispatch(read, p) && LastDispatch(read, q)
    ensures OneOrder(ReadAll(read).jobs) <==> FirstPseudo(read[..p]) != [] || FirstPseudo(read[..q]) == []
  {
    var jobs := ReadAll(read).jobs;
    FirstJobAt(read, p);
    LastJobAt(read, q);
    forall i | 0 <= i < |jobs|
      ensures jobs[i].snapshot.pseudoOrder == [] || jobs[i].snapshot.pseudoOrder == FirstPseudo(read[..q])
      ensures FirstPseudo(read[..p]) != [] ==> jobs[i].snapshot.pseudoOrder == FirstPseudo(read[..p])
    {
      OrderOfAny(read, p, q, i);
    }
  }

  /** The first header block of the connection carries pseudo-headers. */
  predicate StartsWithPseudo(read: seq<InFrame>) {
    read != [] &&
    if read[0].HeadersIn? then PseudoNames(read[0].fields) != [] else StartsWithPseudo(read[1..])
  }

  predicate HasBlock(read: seq<InFrame>) {
    exists i :: 0 <= i < |read| && read[i].HeadersIn?
  }

  lemma {:induction false} FirstBlockDecides(read: seq<InFrame>, n: nat)
    requires n <= |read| && StartsWithPseudo(read) && HasBlock(read[..n])
    ensures FirstPseudo(read[..n]) == FirstPseudo(read) != []
  {
    if !read[0].HeadersIn? {
      assert read[..n][1..] == read[1..][..n - 1];
      assert HasBlock(read[1..][..n - 1]) by {
        var i :| 0 <= i < n && read[..n][i].HeadersIn?;
        assert read[1..][..n - 1][i - 1].HeadersIn?;
      }
      FirstBlockDecides(read[1..], n - 1);
    }
  }

  lemma {:induction false} OpenNeedsBlock(read: seq<InFrame>, id: nat)
    requires LifeOf(read, id).Some?
    ensures HasBlock(read)
  {
    var init, f := read[..|read| - 1], read[|read| - 1];
    if f.HeadersIn? {
      assert read[|read| - 1].HeadersIn?;
    } else {
      OpenNeedsBlock(init, id);
      var i :| 0 <= i < |init| && init[i].HeadersIn?;
      assert read[i].HeadersIn?;
    }
  }

  /** If the first header block has pseudo-headers, every snapshot has its order. */
  lemma FirstBlockFixesEverySnapshot(read: seq<InFrame>, i: nat)
    requires StartsWithPseudo(read) && i < |ReadAll(read).jobs|
    ensures ReadAll(read).jobs[i].snapshot.pseudoOrder == FirstPseudo(read) != []
  {
    JobsAreHandoffs(read);
    var n := JobPoint(read, |read|, i);
    assert HasBlock(read[..n]) by {
      if read[n - 1].HeadersIn? {
        assert read[..n][n - 1].HeadersIn?;
      } else {
        OpenNeedsBlock(read[..n - 1], read[n - 1].id);
        var k :| 0 <= k < n - 1 && read[..n - 1][k].HeadersIn?;
        assert read[..n][k].HeadersIn?;
      }
    }
    FirstBlockDecides(read, n);
  }

  // ---- a stream opened once ----

  function JobsFor(jobs: seq<Handoff>, id: nat): seq<Handoff> {
    if jobs == [] then []
    else
      var init, last := JobsFor(jobs[..|jobs| - 1], id), jobs[|jobs| - 1];
      if last.id == id then init + [last] else init
  }

  predicate NoBlockOn(frames: seq<InFrame>, id: nat) {
    forall i :: 0 <= i < |frames| ==> !(frames[i].HeadersIn? && frames[i].id == id)
  }

  /** The DATA payloads on `id`, joined. */
  function Payloads(frames: seq<InFrame>, id: nat): Bytes {
    if frames == [] then []
    else
      var init, f := Payloads(frames[..|frames| - 1], id), frames[|frames| - 1];
      if f.DataIn? && f.id == id then init + f.data else init
  }

  predicate IsEnd(f: InFrame, id: nat) {
    f.DataIn? && f.id == id && f.end
  }

  predicate IsReset(f: InFrame, id: nat) {
    f.RstIn? && f.id == id
  }

  /** Frame `e` of `frames` is the first END_STREAM on `id` and no RST_STREAM on `id` precedes it. */
  predicate EndsAt(frames: seq<InFrame>, id: nat, e: nat) {
    && e < |frames|
    && IsEnd(frames[e], id)
    && forall i :: 0 <= i < e ==> !IsEnd(frames[i], id) && !IsReset(frames[i], id)
  }

  /** `Handled` keeps the frames read up to and including the END_STREAM. */
  datatype Fate = StillOpen | Handled(upTo: seq<InFrame>) | Dropped

  /** What becomes of an open stream while `frames` are read. */
  function FateOf(frames: seq<InFrame>, id: nat): Fate {
    if frames == [] then StillOpen
    else
      var n := |frames| - 1;
      var before := FateOf(frames[..n], id);
      if before != StillOpen then before
      else if IsEnd(frames[n], id) then Handled(frames)
      else if IsReset(frames[n], id) then Dropped
      else StillOpen
  }

  /** A stream's fate, said without the recursion. */
  lemma {:induction false} FateMeans(frames: seq<InFrame>, id: nat)
    ensures var fate := FateOf(frames, id);
            fate.Handled? ==>
              0 < |fate.upTo| && EndsAt(frames, id, |fate.upTo| - 1) && fate.upTo == frames[..|fate.upTo|]
    ensures FateOf(frames, id).Dropped? ==> forall e :: !EndsAt(frames, id, e)
    ensures FateOf(frames, id).StillOpen?
            <==> forall i :: 0 <= i < |frames| ==> !IsEnd(frames[i], id) && !IsReset(frames[i], id)
  {
    if frames != [] {
      var n := |frames| - 1;
      FateMeans(frames[..n], id);
      assert forall e: nat :: e < n ==> EndsAt(frames, id, e) == EndsAt(frames[..n], id, e);
    }
  }

  /** One more frame hands over stream `id`, whose object is `life`, or leaves its hand-overs alone. */
  function JobsAfter(jobs: seq<Handoff>, life: Option<Stream>, f: InFrame, id: nat, fp: Fingerprint): seq<Handoff> {
    if f.HeadersIn? && f.id == id && f.end then jobs + [Handoff(id, RequestOf(OpenedBy(id, f.fields)), fp)]
    else if IsEnd(f, id) && life.Some?
    then jobs + [Handoff(id, RequestOf(life.value.(body := life.value.body + f.data)), fp)]
    else jobs
  }

  lemma JobsForSnoc(jobs: seq<Handoff>, job: Handoff, id: nat)
    ensures JobsFor(jobs + [job], id) == JobsFor(jobs, id) + if job.id == id then [job] else []
  {
    assert (jobs + [job])[..|jobs|] == jobs;
  }

  lemma JobsForStep(read: seq<InFrame>, f: InFrame, id: nat)
    ensures JobsFor(ReadAll(read + [f]).jobs, id)
            == JobsAfter(JobsFor(ReadAll(read).jobs, id), LifeOf(read, id), f, id, FingerprintOf(read + [f]))
  {
    var r := ReadAll(read);
    ReadAllSnoc(read, f);
    StreamsAreLives(read, id);
    FingerprintIsFold(read + [f]);
    if Completes(r, f) {
      JobsForSnoc(r.jobs, Handoff(f.id, RequestOf(Absorb(r, f).streams[f.id]), Absorb(r, f).fp), id);
      assert JobsFor(r.jobs, id) + [] == JobsFor(r.jobs, id);
    }
  }

  lemma {:induction false} NothingBeforeOpening(read: seq<InFrame>, id: nat)
    requires NoBlockOn(read, id)
    ensures LifeOf(read, id) == None && JobsFor(ReadAll(read).jobs, id) == []
  {
    if read != [] {
      var init, f := read[..|read| - 1], read[|read| - 1];
      NothingBeforeOpening(init, id);
      assert read == init + [f];
      JobsForStep(init, f, id);
    }
  }

  /** The request a stream opened by `fields` amounts to once `frames` are read. */
  function RequestAfter(id: nat, fields: seq<Header>, frames: seq<InFrame>): Request {
    RequestOf(OpenedBy(id, fields).(body := Payloads(frames, id)))
  }

  /** What is due of stream `id`, opened at the end of `start` and then sent `post`. */
  ghost predicate FateState(life: Option<Stream>, jobs: seq<Handoff>, start: seq<InFrame>, id: nat,
                            fields: seq<Header>, post: seq<InFrame>)
  {
    match FateOf(post, id)
    case StillOpen => life == Some(OpenedBy(id, fields).(body := Payloads(post, id))) && jobs == []
    case Handled(upTo) =>
      life == None && jobs == [Handoff(id, RequestAfter(id, fields, upTo), FingerprintOf(start + upTo))]
    case Dropped => life == None && jobs == []
  }

  /** The state of stream `id` after its only header block (without END_STREAM) and then `post`. */
  ghost predicate FollowsFate(start: seq<InFrame>, id: nat, fields: seq<Header>, post: seq<InFrame>) {
    FateState(LifeOf(start + post, id), JobsFor(ReadAll(start + post).jobs, id), start, id, fields, post)
  }

  lemma PayloadsSnoc(frames: seq<InFrame>, f: InFrame, id: nat)
    ensures Payloads(frames + [f], id)
            == Payloads(frames, id) + if f.DataIn? && f.id == id then f.data else []
  {
    assert (frames + [f])[..|frames|] == frames;
  }

  lemma FateSnoc(frames: seq<InFrame>, f: InFrame, id: nat)
    ensures FateOf(frames + [f], id)
            == if FateOf(frames, id) != StillOpen then FateOf(frames, id)
               else if IsEnd(f, id) then Handled(frames + [f])
               else if IsReset(f, id) then Dropped
               else StillOpen
  {
    assert (frames + [f])[..|frames|] == frames;
  }

  lemma FateStateSnoc(life: Option<Stream>, jobs: seq<Handoff>, start: seq<InFrame>, id: nat, fields: seq<Header>,
                      post: seq<InFrame>, f: InFrame)
    requires FateState(life, jobs, start, id, fields, post) && !(f.HeadersIn? && f.id == id)
    ensures FateState(LifeAfter(life, f, id), JobsAfter(jobs, life, f, id, FingerprintOf(start + (post + [f]))),
                      start, id, fields, post + [f])
  {
    FateSnoc(post, f, id);
    PayloadsSnoc(post, f, id);
  }

  lemma FollowsFateSnoc(start: seq<InFrame>, id: nat, fields: seq<Header>, post: seq<InFrame>, f: InFrame)
    requires FollowsFate(start, id, fields, post) && !(f.HeadersIn? && f.id == id)
    ensures FollowsFate(start, id, fields, post + [f])
  {
    var read := start + post;
    Associate(start, post, [f]);
    JobsForStep(read, f, id);
    LifeSnoc(read, f, id);
    FateStateSnoc(LifeOf(read, id), JobsFor(ReadAll(read).jobs, id), start, id, fields, post, f);
  }

  lemma {:induction false} AfterOpening(pre: seq<InFrame>, id: nat, fields: seq<Header>, post: seq<InFrame>)
    requires NoBlockOn(pre, id) && NoBlockOn(post, id)
    ensures FollowsFate(pre + [HeadersIn(id, fields, false)], id, fields, post)
  {
    var h := HeadersIn(id, fields, false);
    if post == [] {
      NothingBeforeOpening(pre, id);
      LifeSnoc(pre, h, id);
      JobsForStep(pre, h, id);
      assert pre + [h] + post == pre + [h];
    } else {
      var init, f := post[..|post| - 1], post[|post| - 1];
      assert post == init + [f];
      AfterOpening(pre, id, fields, init);
      FollowsFateSnoc(pre + [h], id, fields, init, f);
    }
  }

  /** Whatever its body, a request from the block reads as the block does, field by field. */
  lemma RequestsRead(id: nat, fields: seq<Header>)
    ensures forall frames :: ReadsAs(fields, RequestAfter(id, fields, frames))
  {
    forall frames
      ensures ReadsAs(fields, RequestAfter(id, fields, frames))
    {
      BlockIsRead(id, fields, Payloads(frames, id));
    }
  }

  /**
   * A stream whose client opens it once: its handler is started exactly once if
   * END_STREAM comes before any RST_STREAM, never otherwise, and the request is
   * its own field list with its own DATA payloads, whatever else is interleaved.
   */
  lemma OneHandlerPerStream(pre: seq<InFrame>, id: nat, fields: seq<Header>, end: bool, post: seq<InFrame>)
    requires NoBlockOn(pre, id) && NoBlockOn(post, id)
    ensures var opening := pre + [HeadersIn(id, fields, end)];
            var jobs := JobsFor(ReadAll(opening + post).jobs, id);
            && (|jobs| == 1 <==> end || exists e :: EndsAt(post, id, e))
            && (|jobs| == 0 <==> !end && forall e :: !EndsAt(post, id, e))
            && (end ==> jobs == [Handoff(id, RequestAfter(id, fields, []), FingerprintOf(opening))])
            && (!end ==> forall e :: EndsAt(post, id, e) ==>
                  jobs == [Handoff(id, RequestAfter(id, fields, post[..e + 1]),
                                   FingerprintOf(opening + post[..e + 1]))])
            && (forall job :: job in jobs ==> ReadsAs(fields, job.request))
  {
    RequestsRead(id, fields);
    if end {
      EndedAtOnce(pre, id, fields, post);
    } else {
      AfterOpening(pre, id, fields, post);
      FateMeans(post, id);
      forall e, d | EndsAt(post, id, e) && EndsAt(post, id, d)
        ensures e == d
      {
      }
    }
  }

  lemma {:induction false} EndedAtOnce(pre: seq<InFrame>, id: nat, fields: seq<Header>, post: seq<InFrame>)
    requires NoBlockOn(pre, id) && NoBlockOn(post, id)
    ensures var opening := pre + [HeadersIn(id, fields, true)];
            && LifeOf(opening + post, id) == None
            && JobsFor(ReadAll(opening + post).jobs, id)
               == [Handoff(id, RequestAfter(id, fields, []), FingerprintOf(opening))]
  {
    var h := HeadersIn(id, fields, true);
    var opening := pre + [h];
    if post == [] {
      assert opening + post == opening;
      NothingBeforeOpening(pre, id);
      LifeSnoc(pre, h, id);
      JobsForStep(pre, h, id);
    } else {
      var init, f := post[..|post| - 1], post[|post| - 1];
      assert opening + post == (opening + init) + [f];
      EndedAtOnce(pre, id, fields, init);
      LifeSnoc(opening + init, f, id);
      JobsForStep(opening + init, f, id);
    }
  }
}
