/**
 * What handlers are given, on every run: each request is its own stream's header
 * block, field by field, with the DATA read after it, and each snapshot's orders
 * are those of the first blocks that have any (internal/capture/http2.go).
 */
module Http2Requests {
  import opened Basics
  import opened Http2Blocks
  import opened Http2Capture
  import opened Http2Engine
  import opened Http2Model
  import opened Http2Theorems
  import opened Http2Wire
  import Lists

  // ---- the orders of a snapshot ----

  ghost predicate NoneOf(fields: seq<Header>, pseudo: bool) {
    forall i :: 0 <= i < |fields| ==> StartsWithColon(fields[i]) != pseudo
  }

  /** Frame `i` is the first block with a field of that kind, and `order` names those; or there is none. */
  ghost predicate FirstOrderAt(read: seq<InFrame>, pseudo: bool, order: seq<string>, i: nat) {
    && i <= |read|
    && (forall j :: 0 <= j < i && read[j].HeadersIn? ==> NoneOf(read[j].fields, pseudo))
    && (if i == |read| then order == []
        else read[i].HeadersIn? && !NoneOf(read[i].fields, pseudo) && NamesOf(read[i].fields, pseudo, order))
  }

  /** `order` names the fields of that kind of the first block that has any. */
  ghost predicate FirstOrder(read: seq<InFrame>, pseudo: bool, order: seq<string>) {
    exists i: nat :: FirstOrderAt(read, pseudo, order, i)
  }

  lemma NoNames(fields: seq<Header>, pseudo: bool, names: seq<string>)
    requires NamesOf(fields, pseudo, names)
    ensures names == [] <==> NoneOf(fields, pseudo)
  {
    var at :| Positions(at, fields, pseudo) && NamedFrom(fields, at, names);
    if at != [] { assert at[0] in at; }
    forall i | 0 <= i < |fields| && at == []
      ensures StartsWithColon(fields[i]) != pseudo
    {
      assert i !in at;
    }
  }

  lemma OrderAfter(f: InFrame, rest: seq<InFrame>, pseudo: bool, order: seq<string>, i: nat)
    requires (f.HeadersIn? ==> NoneOf(f.fields, pseudo)) && FirstOrderAt(rest, pseudo, order, i)
    ensures FirstOrderAt([f] + rest, pseudo, order, i + 1)
  {
    var all := [f] + rest;
    forall j | 0 <= j < i + 1 && all[j].HeadersIn?
      ensures NoneOf(all[j].fields, pseudo)
    {
      if j > 0 { assert all[j] == rest[j - 1]; }
    }
  }

  lemma {:induction false} PseudoIsFirst(read: seq<InFrame>) returns (i: nat)
    ensures FirstOrderAt(read, true, FirstPseudo(read), i)
  {
    i := 0;
    if read != [] {
      var f := read[0];
      assert read == [f] + read[1..];
      if f.HeadersIn? {
        BlockIsSplit(f.fields);
        NoNames(f.fields, true, PseudoNames(f.fields));
      }
      if !f.HeadersIn? || PseudoNames(f.fields) == [] {
        i := PseudoIsFirst(read[1..]);
        OrderAfter(f, read[1..], true, FirstPseudo(read[1..]), i);
        i := i + 1;
      }
    }
  }

  lemma {:induction false} HeadersAreFirst(read: seq<InFrame>) returns (i: nat)
    ensures FirstOrderAt(read, false, FirstHeaders(read), i)
  {
    i := 0;
    if read != [] {
      var f := read[0];
      assert read == [f] + read[1..];
      if f.HeadersIn? {
        RegularAreNamed(f.fields);
        NoNames(f.fields, false, Names(Regular(f.fields)));
      }
      if !f.HeadersIn? || Regular(f.fields) == [] {
        i := HeadersAreFirst(read[1..]);
        OrderAfter(f, read[1..], false, FirstHeaders(read[1..]), i);
        i := i + 1;
      }
    }
  }

  // ---- the rest of a snapshot, and bodies ----

  /** What a frame adds to the captured settings: its own, unless it acknowledges. */
  function SettingsFrom(f: InFrame): seq<Setting> {
    match f case SettingsIn(false, settings) => settings case _ => []
  }

  function PriorityFrom(f: InFrame): seq<Priority> {
    match f case PriorityIn(p) => [p] case _ => []
  }

  /** What a frame adds to the body of stream `id`. */
  function DataFrom(f: InFrame, id: nat): Bytes {
    match f case DataIn(i, data, _, _) => if i == id then data else [] case _ => []
  }

  /** What the connection's window was given. */
  function Given(read: seq<InFrame>): nat {
    if read == [] then 0
    else Given(read[1..]) + match read[0] case WindowUpdateIn(0, increment) => increment case _ => 0
  }

  function SettingsParts(read: seq<InFrame>): seq<seq<Setting>> {
    seq(|read|, i requires 0 <= i < |read| => SettingsFrom(read[i]))
  }

  function PriorityParts(read: seq<InFrame>): seq<seq<Priority>> {
    seq(|read|, i requires 0 <= i < |read| => PriorityFrom(read[i]))
  }

  function DataParts(read: seq<InFrame>, id: nat): seq<Bytes> {
    seq(|read|, i requires 0 <= i < |read| => DataFrom(read[i], id))
  }

  /** Settings and priorities of all frames, one behind the other; increments added up in 32 bits. */
  ghost predicate ConnectionShows(past: seq<InFrame>, fp: Fingerprint) {
    && (exists at :: Lists.Concatenates(SettingsParts(past), fp.settings, at))
    && (exists at :: Lists.Concatenates(PriorityParts(past), fp.priorities, at))
    && fp.connectionFlow == Given(past) % 0x1_0000_0000
  }

  ghost predicate BodyShows(frames: seq<InFrame>, id: nat, body: Bytes) {
    exists at :: Lists.Concatenates(DataParts(frames, id), body, at)
  }

  lemma {:induction false} SettingsInOrder(read: seq<InFrame>) returns (at: seq<nat>)
    ensures Lists.Concatenates(SettingsParts(read), SettingsOf(read), at)
  {
    at := [];
    if read != [] {
      at := SettingsInOrder(read[1..]);
      Lists.ConcatenatesNext(SettingsFrom(read[0]), SettingsParts(read[1..]), SettingsOf(read[1..]), at);
      assert SettingsParts(read) == [SettingsFrom(read[0])] + SettingsParts(read[1..]);
      at := [0] + Lists.Shifted(at, |SettingsFrom(read[0])|);
    }
  }

  lemma {:induction false} PrioritiesInOrder(read: seq<InFrame>) returns (at: seq<nat>)
    ensures Lists.Concatenates(PriorityParts(read), PrioritiesOf(read), at)
  {
    at := [];
    if read != [] {
      at := PrioritiesInOrder(read[1..]);
      Lists.ConcatenatesNext(PriorityFrom(read[0]), PriorityParts(read[1..]), PrioritiesOf(read[1..]), at);
      assert PriorityParts(read) == [PriorityFrom(read[0])] + PriorityParts(read[1..]);
      at := [0] + Lists.Shifted(at, |PriorityFrom(read[0])|);
    }
  }

  lemma {:induction false} FlowIsGiven(read: seq<InFrame>)
    ensures FlowOf(read) == Given(read)
  {
    if read != [] { FlowIsGiven(read[1..]); }
  }

  lemma {:induction false} PayloadsHead(f: InFrame, rest: seq<InFrame>, id: nat)
    ensures Payloads([f] + rest, id) == DataFrom(f, id) + Payloads(rest, id)
  {
    if rest == [] {
      assert [f] + rest == [f] && [f][..0] == [] && DataFrom(f, id) + [] == DataFrom(f, id);
    } else {
      var init, last := rest[..|rest| - 1], rest[|rest| - 1];
      PayloadsHead(f, init, id);
      assert [f] + rest == ([f] + init) + [last] && rest == init + [last];
      PayloadsSnoc([f] + init, last, id);
      PayloadsSnoc(init, last, id);
      Associate(DataFrom(f, id), Payloads(init, id), DataFrom(last, id));
    }
  }

  lemma {:induction false} PayloadsInOrder(read: seq<InFrame>, id: nat) returns (at: seq<nat>)
    ensures Lists.Concatenates(DataParts(read, id), Payloads(read, id), at)
  {
    at := [];
    if read != [] {
      at := PayloadsInOrder(read[1..], id);
      PayloadsHead(read[0], read[1..], id);
      assert read == [read[0]] + read[1..];
      Lists.ConcatenatesNext(DataFrom(read[0], id), DataParts(read[1..], id), Payloads(read[1..], id), at);
      assert DataParts(read, id) == [DataFrom(read[0], id)] + DataParts(read[1..], id);
      at := [0] + Lists.Shifted(at, |DataFrom(read[0], id)|);
    }
  }

  lemma SnapshotShows(past: seq<InFrame>)
    ensures ConnectionShows(past, FingerprintOf(past))
  {
    var a := SettingsInOrder(past);
    var b := PrioritiesInOrder(past);
    FlowIsGiven(past);
  }

  // ---- the block of a stream ----

  /** Frame `m` is the last header block on `id`, and did not end the stream. */
  ghost predicate OpenedAt(read: seq<InFrame>, id: nat, m: nat) {
    m < |read| && read[m].HeadersIn? && read[m].id == id && !read[m].end && NoBlockOn(read[m + 1..], id)
  }

  lemma OpenedLater(init: seq<InFrame>, f: InFrame, id: nat, m: nat)
    requires OpenedAt(init, id, m) && !(f.HeadersIn? && f.id == id)
    ensures OpenedAt(init + [f], id, m) && (init + [f])[m + 1..] == init[m + 1..] + [f]
    ensures Payloads((init + [f])[m + 1..], id)
            == Payloads(init[m + 1..], id) + if f.DataIn? && f.id == id then f.data else []
  {
    assert (init + [f])[m + 1..] == init[m + 1..] + [f];
    PayloadsSnoc(init[m + 1..], f, id);
  }

  /** What the map holds for a stream opened at `m`. */
  function Shown(read: seq<InFrame>, id: nat, m: nat): Stream
    requires m < |read| && read[m].HeadersIn?
  {
    OpenedBy(id, read[m].fields).(body := Payloads(read[m + 1..], id))
  }

  lemma ShownNext(init: seq<InFrame>, f: InFrame, id: nat, m: nat)
    requires OpenedAt(init, id, m) && LifeOf(init, id) == Some(Shown(init, id, m))
    requires !(f.HeadersIn? && f.id == id) && LifeOf(init + [f], id).Some?
    ensures OpenedAt(init + [f], id, m) && LifeOf(init + [f], id) == Some(Shown(init + [f], id, m))
  {
    LifeSnoc(init, f, id);
    OpenedLater(init, f, id, m);
  }

  lemma ShownAtOnce(init: seq<InFrame>, f: InFrame)
    requires f.HeadersIn? && !f.end
    ensures OpenedAt(init + [f], f.id, |init|) && LifeOf(init + [f], f.id) == Some(Shown(init + [f], f.id, |init|))
  {
    LifeSnoc(init, f, f.id);
    assert (init + [f])[|init| + 1..] == [];
  }

  /** An open stream shows its last header block and the DATA after it. */
  lemma {:induction false} OpenShowsBlock(read: seq<InFrame>, id: nat) returns (m: nat)
    requires LifeOf(read, id).Some?
    ensures OpenedAt(read, id, m) && LifeOf(read, id) == Some(Shown(read, id, m))
  {
    var init, f := read[..|read| - 1], read[|read| - 1];
    assert read == init + [f];
    LifeSnoc(init, f, id);
    if f.HeadersIn? && f.id == id {
      m := |init|;
      ShownAtOnce(init, f);
    } else {
      m := OpenShowsBlock(init, id);
      ShownNext(init, f, id, m);
    }
  }

  /** The last frame of `past` ends stream `id`, whose last header block is frame `m`. */
  ghost predicate EndsStream(past: seq<InFrame>, id: nat, m: nat) {
    && m < |past| && past[m].HeadersIn? && past[m].id == id && NoBlockOn(past[m + 1..], id)
    && (if m == |past| - 1 then past[m].end else IsEnd(past[|past| - 1], id))
  }

  /** The snapshot's orders are those of the first blocks that have any. */
  ghost predicate OrdersShow(past: seq<InFrame>, fp: Fingerprint) {
    FirstOrder(past, true, fp.pseudoOrder) && FirstOrder(past, false, fp.headerOrder)
  }

  /** A job handed over after `past`: its request by the positions of its block's fields, and its snapshot. */
  ghost predicate JobShowsInput(past: seq<InFrame>, job: Handoff, m: nat) {
    && EndsStream(past, job.id, m)
    && ReadsAs(past[m].fields, job.request) && BodyShows(past[m + 1..], job.id, job.request.body)
    && OrdersShow(past, job.snapshot) && ConnectionShows(past, job.snapshot)
  }

  lemma OrdersAreFirst(past: seq<InFrame>)
    ensures OrdersShow(past, FingerprintOf(past))
  {
    var i := PseudoIsFirst(past);
    var j := HeadersAreFirst(past);
  }

  lemma ShownIsRead(past: seq<InFrame>, job: Handoff, m: nat)
    requires EndsStream(past, job.id, m)
    requires job == Handoff(job.id, RequestOf(Shown(past, job.id, m)), FingerprintOf(past))
    ensures JobShowsInput(past, job, m)
  {
    OrdersAreFirst(past);
    SnapshotShows(past);
    var at := PayloadsInOrder(past[m + 1..], job.id);
    BlockIsRead(job.id, past[m].fields, Payloads(past[m + 1..], job.id));
  }

  lemma BlockEnds(init: seq<InFrame>, f: InFrame)
    requires f.HeadersIn? && f.end
    ensures EndsStream(init + [f], f.id, |init|) && Shown(init + [f], f.id, |init|) == OpenedBy(f.id, f.fields)
  {
    assert (init + [f])[|init| + 1..] == [];
  }

  lemma DataEnds(init: seq<InFrame>, f: InFrame, m: nat)
    requires f.DataIn? && f.end && OpenedAt(init, f.id, m)
    ensures EndsStream(init + [f], f.id, m)
    ensures Shown(init + [f], f.id, m) == Shown(init, f.id, m).(body := Shown(init, f.id, m).body + f.data)
  {
    OpenedLater(init, f, f.id, m);
  }

  lemma HandoffShowsInput(read: seq<InFrame>, n: nat) returns (m: nat)
    requires 0 < n <= |read| && DispatchedAt(read, n)
    ensures JobShowsInput(read[..n], HandoffAt(read, n), m)
  {
    var init, f := read[..n - 1], read[n - 1];
    assert read[..n] == init + [f];
    if f.HeadersIn? {
      m := n - 1;
      BlockEnds(init, f);
    } else {
      m := OpenShowsBlock(init, f.id);
      DataEnds(init, f, m);
    }
    ShownIsRead(read[..n], HandoffAt(read, n), m);
  }

  /** Every request handed over is the block that opened its stream, read field by field. */
  lemma JobsShowTheirInput(read: seq<InFrame>, k: nat) returns (past: seq<InFrame>, m: nat)
    requires k < |ReadAll(read).jobs|
    ensures past <= read && JobShowsInput(past, ReadAll(read).jobs[k], m)
  {
    JobsAreHandoffs(read);
    var n := JobPoint(read, |read|, k);
    past := read[..n];
    m := HandoffShowsInput(read, n);
  }

  /** On every schedule, whatever else is going on when the handler starts. */
  lemma HandlersSeeTheirBlock(c: Hpack, limit: nat, steps: seq<Step>, k: nat) returns (past: seq<InFrame>, m: nat)
    requires Lawful(c) && k < |Run(c, limit, steps).live.jobs|
    ensures var s := Run(c, limit, steps); past <= s.read && JobShowsInput(past, s.live.jobs[k], m)
  {
    var s := Run(c, limit, steps);
    StartedJobs(c, limit, steps);
    JobsAreHandoffs(s.read);
    past, m := JobsShowTheirInput(s.read, k);
  }
}
