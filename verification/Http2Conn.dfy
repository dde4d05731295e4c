/**
 * The read loop of `ServeHTTP2` over its objects (internal/capture/http2.go): the
 * live fingerprint, the open streams and what is handed to goroutines. The loop's
 * ghost `now` is the value-level reader, its ghost `owned` says who owns each object.
 */
module Http2Conn {
  import opened Basics
  import opened Http2Model
  import opened Http2Wire
  import opened Http2Engine
  import opened Http2Objects
  import opened Http2Writer

  /** What a handler goroutine owns: the stream, the request that shares its slices, and a snapshot. */
  datatype Job = Job(stream: H2Stream, request: SharedRequest, snapshot: LiveFingerprint)
  {
    ghost function Repr(): set<object>
      reads stream, snapshot
    {
      stream.Repr() + snapshot.Repr()
    }

    ghost predicate Ok()
      reads stream, snapshot
    {
      stream.Valid() && snapshot.Valid() && stream.IsRequest(request)
    }

    ghost function Value(): Handoff
      requires Ok()
      reads stream, snapshot, Repr()
    {
      Handoff(stream.id, request.Value(), snapshot.Value())
    }
  }

  datatype Owner = LoopFingerprint | OpenStream(id: nat) | Handed(k: nat)

  type Owners = map<object, Owner>

  /** The objects and backing arrays that belong to `owner`. */
  ghost function Objects(owned: Owners, owner: Owner): set<object> {
    set o | o in owned.Keys && owned[o] == owner
  }

  ghost function StreamObjects(owned: Owners, ids: set<nat>): set<object> {
    set o | o in owned.Keys && owned[o].OpenStream? && owned[o].id in ids
  }

  ghost function HandedObjects(owned: Owners): set<object> {
    set o | o in owned.Keys && owned[o].Handed?
  }

  /** The object of an open stream shows `v` and everything it reaches belongs to it. */
  ghost predicate StreamShows(st: H2Stream, id: nat, owned: Owners, v: Stream)
    reads Objects(owned, OpenStream(id))
  {
    var mine := Objects(owned, OpenStream(id));
    st in mine && st.Repr() <= mine && st.id == id && st.Valid() && st.Value() == v
  }

  ghost predicate JobShows(job: Job, k: nat, owned: Owners, v: Handoff)
    reads Objects(owned, Handed(k))
  {
    var mine := Objects(owned, Handed(k));
    job.stream in mine && job.snapshot in mine && job.Repr() <= mine && job.Ok() && job.Value() == v
  }

  ghost predicate FpShows(fp: LiveFingerprint, owned: Owners, v: Fingerprint)
    reads Objects(owned, LoopFingerprint)
  {
    var mine := Objects(owned, LoopFingerprint);
    fp in mine && fp.Repr() <= mine && fp.Valid() && fp.Value() == v
  }

  ghost predicate StreamsShow(streams: map<nat, H2Stream>, owned: Owners, vs: map<nat, Stream>)
    reads StreamObjects(owned, streams.Keys)
  {
    streams.Keys == vs.Keys && forall id :: id in streams ==> StreamShows(streams[id], id, owned, vs[id])
  }

  ghost predicate JobsShow(jobs: seq<Job>, owned: Owners, vs: seq<Handoff>)
    reads HandedObjects(owned)
  {
    |jobs| == |vs| && forall k :: 0 <= k < |jobs| ==> JobShows(jobs[k], k, owned, vs[k])
  }

  lemma FpStillShows(fp: LiveFingerprint, owned: Owners, given: Owners, v: Fingerprint)
    requires FpShows(fp, owned, v) && Objects(owned, LoopFingerprint) <= Objects(given, LoopFingerprint)
    ensures FpShows(fp, given, v)
  {
  }

  lemma StreamsStillShow(streams: map<nat, H2Stream>, owned: Owners, given: Owners,
                         vs: map<nat, Stream>)
    requires StreamsShow(streams, owned, vs)
    requires forall id :: id in streams ==> Objects(owned, OpenStream(id)) <= Objects(given, OpenStream(id))
    ensures StreamsShow(streams, given, vs)
  {
  }

  lemma JobsStillShow(jobs: seq<Job>, owned: Owners, given: Owners, vs: seq<Handoff>)
    requires JobsShow(jobs, owned, vs)
    requires forall k :: 0 <= k < |jobs| ==> Objects(owned, Handed(k)) <= Objects(given, Handed(k))
    ensures JobsShow(jobs, given, vs)
  {
  }

  lemma OneMoreJob(jobs: seq<Job>, owned: Owners, vs: seq<Handoff>, job: Job, v: Handoff)
    requires JobsShow(jobs, owned, vs) && JobShows(job, |jobs|, owned, v)
    ensures JobsShow(jobs + [job], owned, vs + [v])
  {
  }

  /** `objs` change hands. */
  ghost function Give(owned: Owners, objs: set<object>, to: Owner): Owners {
    owned + map o | o in objs :: to
  }

  /** Whoever gives nothing away still owns what it owned. */
  lemma GiveKeeps(owned: Owners, objs: set<object>, to: Owner, owner: Owner)
    requires objs !! Objects(owned, owner)
    ensures Objects(owned, owner) <= Objects(Give(owned, objs, to), owner)
    ensures objs <= Objects(Give(owned, objs, to), to)
  {
  }

  /** What was handed over stays with its job. */
  ghost predicate Kept(was: Owners, owned: Owners) {
    forall o :: o in was && was[o].Handed? ==> o in owned && owned[o] == was[o]
  }

  /** The read loop's variables; `jobs` is what the goroutines it has started were given. */
  datatype Locals = Locals(fp: LiveFingerprint, streams: map<nat, H2Stream>, jobs: seq<Job>)

  /**
   * The objects show `now`, and each object and each backing array has one owner:
   * the loop's fingerprint, one open stream, or one job.
   */
  ghost predicate Tidy(l: Locals, owned: Owners, now: Reader)
    reads owned.Keys
  {
    && FpShows(l.fp, owned, now.fp) && StreamsShow(l.streams, owned, now.streams) && JobsShow(l.jobs, owned, now.jobs)
    && Bounded(owned, |l.jobs|)
  }

  ghost predicate Bounded(owned: Owners, n: nat) {
    forall o :: o in owned && owned[o].Handed? ==> owned[o].k < n
  }

  /** Everything the loop may still write: what no job owns. */
  ghost function Live(owned: Owners): set<object> {
    set o | o in owned.Keys && !owned[o].Handed?
  }

  /** An open stream's objects are its own. */
  lemma StreamApart(l: Locals, id: nat, owned: Owners, now: Reader)
    requires Tidy(l, owned, now) && id in l.streams
    ensures id in now.streams && l.streams[id].Valid()
    ensures l.streams[id].id == id && l.streams[id].Value() == now.streams[id]
    ensures l.streams[id].Repr() <= Objects(owned, OpenStream(id))
    ensures l.streams[id].Repr() !! Objects(owned, LoopFingerprint) + HandedObjects(owned)
                                    + StreamObjects(owned, (l.streams - {id}).Keys)
    ensures FpShows(l.fp, owned, now.fp) && JobsShow(l.jobs, owned, now.jobs)
    ensures StreamsShow(l.streams - {id}, owned, now.streams - {id})
  {
    assert StreamShows(l.streams[id], id, owned, now.streams[id]);
  }

  /** `dispatch`: ownership of the stream passes to the goroutine with a copy of the fingerprint. */
  method Dispatch(l: Locals, st: H2Stream, ghost owned: Owners, ghost now: Reader)
    returns (m: Locals, ghost given: Owners)
    requires Tidy(l, owned, now) && st.id in l.streams && l.streams[st.id] == st
    ensures Tidy(m, given, HandOver(now, st.id)) && Kept(owned, given)
    ensures forall o :: o in given && o !in owned ==> fresh(o)
    ensures m == Locals(l.fp, l.streams - {st.id}, l.jobs + [m.jobs[|l.jobs|]]) && m.jobs[|l.jobs|].stream == st
  {
    var req := st.MakeRequest();
    var snapshot := l.fp.Clone();
    var job := Job(st, req, snapshot);
    given := Give(owned, job.Repr(), Handed(|l.jobs|));
    m := Locals(l.fp, l.streams - {st.id}, l.jobs + [job]);
    HandOverKeeps(l, job, owned, now);
    AfterHandOver(l, job, owned, now);
  }

  /** Only the stream's own objects change hands. */
  lemma OthersKeep(owned: Owners, objs: set<object>, id: nat, k: nat)
    requires forall o :: o in objs && o in owned ==> owned[o] == OpenStream(id)
    ensures var given := Give(owned, objs, Handed(k));
            && given.Keys == owned.Keys + objs && Kept(owned, given) && objs <= Objects(given, Handed(k))
            && forall owner :: owner != OpenStream(id) ==> Objects(owned, owner) <= Objects(given, owner)
  {
  }

  lemma JobShowsStream(job: Job, k: nat, owned: Owners, st: Stream, fp: Fingerprint)
    requires job.Ok() && job.Repr() <= Objects(owned, Handed(k))
    requires job.stream.Value() == st && job.snapshot.Value() == fp
    ensures JobShows(job, k, owned, Handoff(job.stream.id, RequestOf(st), fp))
  {
  }

  /** The job's objects: the stream's own, and a snapshot nobody owned. */
  ghost predicate Detached(l: Locals, job: Job, owned: Owners)
    reads job.stream, job.snapshot
  {
    && job.stream.id in l.streams && l.streams[job.stream.id] == job.stream && job.Ok()
    && job.snapshot.Repr() !! owned.Keys
  }

  lemma HandOverKeeps(l: Locals, job: Job, owned: Owners, now: Reader)
    requires Tidy(l, owned, now) && Detached(l, job, owned)
    ensures var (k, id) := (|l.jobs|, job.stream.id);
            var given := Give(owned, job.Repr(), Handed(k));
            && Kept(owned, given) && job.Repr() <= Objects(given, Handed(k))
            && (forall o :: o in given && o !in owned ==> o in job.snapshot.Repr())
            && (forall owner :: owner != OpenStream(id) ==> Objects(owned, owner) <= Objects(given, owner))
  {
    StreamApart(l, job.stream.id, owned, now);
    OthersKeep(owned, job.Repr(), job.stream.id, |l.jobs|);
  }

  lemma AfterHandOver(l: Locals, job: Job, owned: Owners, now: Reader)
    requires Tidy(l, owned, now) && Detached(l, job, owned) && job.snapshot.Value() == now.fp
    ensures Tidy(Locals(l.fp, l.streams - {job.stream.id}, l.jobs + [job]),
                 Give(owned, job.Repr(), Handed(|l.jobs|)), HandOver(now, job.stream.id))
  {
    var k, given, id := |l.jobs|, Give(owned, job.Repr(), Handed(|l.jobs|)), job.stream.id;
    StreamApart(l, id, owned, now);
    HandOverKeeps(l, job, owned, now);
    FpStillShows(l.fp, owned, given, now.fp);
    StreamsStillShow(l.streams - {id}, owned, given, now.streams - {id});
    JobsStillShow(l.jobs, owned, given, now.jobs);
    JobShowsStream(job, k, given, now.streams[id], now.fp);
    OneMoreJob(l.jobs, given, now.jobs, job, Handoff(id, RequestOf(now.streams[id]), now.fp));
  }

  /** New owners for objects nobody owned, and for nobody else's. */
  ghost predicate Extends(owned: Owners, given: Owners) {
    && (forall o :: o in owned ==> o in given && given[o] == owned[o])
    && (forall o :: o in given && o !in owned ==> !given[o].Handed?)
  }

  lemma ExtendsKeeps(owned: Owners, given: Owners, owner: Owner)
    requires Extends(owned, given)
    ensures Objects(owned, owner) <= Objects(given, owner)
  {
  }

  lemma StreamsAlsoShow(streams: map<nat, H2Stream>, owned: Owners, given: Owners,
                        vs: map<nat, Stream>)
    requires Extends(owned, given) && StreamsShow(streams, owned, vs)
    ensures StreamsShow(streams, given, vs)
  {
    forall id | id in streams
      ensures Objects(owned, OpenStream(id)) <= Objects(given, OpenStream(id))
    {
      ExtendsKeeps(owned, given, OpenStream(id));
    }
    StreamsStillShow(streams, owned, given, vs);
  }

  lemma JobsAlsoShow(jobs: seq<Job>, owned: Owners, given: Owners, vs: seq<Handoff>)
    requires Extends(owned, given) && JobsShow(jobs, owned, vs)
    ensures JobsShow(jobs, given, vs)
  {
    forall k | 0 <= k < |jobs|
      ensures Objects(owned, Handed(k)) <= Objects(given, Handed(k))
    {
      ExtendsKeeps(owned, given, Handed(k));
    }
    JobsStillShow(jobs, owned, given, vs);
  }

  /** A stream object of its own, put in place of any other of the same id. */
  lemma StreamsPut(streams: map<nat, H2Stream>, id: nat, st: H2Stream, owned: Owners,
                   vs: map<nat, Stream>, v: Stream)
    requires StreamsShow(streams, owned, vs) && StreamShows(st, id, owned, v)
    ensures StreamsShow(streams[id := st], owned, vs[id := v])
  {
  }

  lemma GiveOwns(owned: Owners, objs: set<object>, owner: Owner)
    requires objs * owned.Keys <= Objects(owned, owner) && !owner.Handed?
    ensures var given := Give(owned, objs, owner);
            Extends(owned, given) && given.Keys == owned.Keys + objs && objs <= Objects(given, owner)
  {
    var given := Give(owned, objs, owner);
    forall o | o in owned
      ensures given[o] == owned[o]
    {
      if o in objs { assert o in objs * owned.Keys; }
    }
  }

  lemma ExtendsTwice(a: Owners, b: Owners, c: Owners)
    requires Extends(a, b) && Extends(b, c)
    ensures Extends(a, c)
  {
  }

  /** The owners once `st` is opened: the fingerprint may have new arrays, the stream's objects are its own. */
  ghost function Opened(owned: Owners, fp: LiveFingerprint, st: H2Stream): Owners
    reads fp, st
  {
    Give(Give(owned, fp.Repr(), LoopFingerprint), st.Repr(), OpenStream(st.id))
  }

  lemma OpenedOwns(owned: Owners, fp: LiveFingerprint, st: H2Stream)
    requires fp.Repr() * owned.Keys <= Objects(owned, LoopFingerprint) && st.Repr() !! owned.Keys + fp.Repr()
    ensures var given := Opened(owned, fp, st);
            && Extends(owned, given) && given.Keys == owned.Keys + fp.Repr() + st.Repr()
            && fp.Repr() <= Objects(given, LoopFingerprint) && st.Repr() <= Objects(given, OpenStream(st.id))
  {
    var half, given := Give(owned, fp.Repr(), LoopFingerprint), Opened(owned, fp, st);
    GiveOwns(owned, fp.Repr(), LoopFingerprint);
    GiveOwns(half, st.Repr(), OpenStream(st.id));
    ExtendsTwice(owned, half, given);
    ExtendsKeeps(half, given, LoopFingerprint);
  }

  /** A new stream object that shows the block, and the fingerprint with its orders noted. */
  method Capture(id: nat, fields: seq<Header>, fp: LiveFingerprint, ghost v: Fingerprint) returns (st: H2Stream)
    requires fp.Valid() && fp.Value() == v
    modifies fp.Repr()
    ensures st.Valid() && st.id == id && fresh(st.Repr()) && st.Value() == OpenedBy(id, fields)
    ensures fp.Valid() && (forall o :: o in fp.Repr() ==> o in old(fp.Repr()) || fresh(o)) && st.Repr() !! fp.Repr()
    ensures fp.Value() == NoteOrders(v, OpenedBy(id, fields))
  {
    st := new H2Stream(id);
    CaptureHeaders(st, fields, fp);
  }

  /** The fingerprint is nobody else's. */
  lemma FingerprintApart(l: Locals, owned: Owners, now: Reader)
    requires Tidy(l, owned, now)
    ensures StreamsShow(l.streams, owned, now.streams) && JobsShow(l.jobs, owned, now.jobs)
    ensures l.fp.Valid() && l.fp.Value() == now.fp && l.fp.Repr() <= Objects(owned, LoopFingerprint)
    ensures l.fp.Repr() !! StreamObjects(owned, l.streams.Keys) + HandedObjects(owned)
  {
  }

  /** Of what the loop holds only the fingerprint is written. */
  method Create(l: Locals, id: nat, fields: seq<Header>, ghost owned: Owners, ghost now: Reader)
    returns (st: H2Stream)
    requires StreamsShow(l.streams, owned, now.streams) && JobsShow(l.jobs, owned, now.jobs)
    requires l.fp.Valid() && l.fp.Value() == now.fp
    requires l.fp.Repr() !! StreamObjects(owned, l.streams.Keys) + HandedObjects(owned)
    modifies l.fp.Repr()
    ensures st.Valid() && st.id == id && fresh(st.Repr()) && st.Value() == OpenedBy(id, fields)
    ensures l.fp.Valid() && st.Repr() !! l.fp.Repr()
    ensures forall o :: o in l.fp.Repr() ==> o in old(l.fp.Repr()) || fresh(o)
    ensures l.fp.Value() == NoteOrders(now.fp, OpenedBy(id, fields))
    ensures StreamsShow(l.streams, owned, now.streams) && JobsShow(l.jobs, owned, now.jobs)
  {
    st := Capture(id, fields, l.fp, now.fp);
  }

  lemma AfterCreate(l: Locals, st: H2Stream, fields: seq<Header>, end: bool, owned: Owners,
                    given: Owners, now: Reader)
    requires StreamsShow(l.streams, owned, now.streams) && JobsShow(l.jobs, owned, now.jobs) && Bounded(owned, |l.jobs|)
    requires Extends(owned, given) && FpShows(l.fp, given, NoteOrders(now.fp, OpenedBy(st.id, fields)))
    requires StreamShows(st, st.id, given, OpenedBy(st.id, fields))
    ensures Tidy(l.(streams := l.streams[st.id := st]), given, Absorb(now, HeadersIn(st.id, fields, end)))
  {
    StreamsAlsoShow(l.streams, owned, given, now.streams);
    JobsAlsoShow(l.jobs, owned, given, now.jobs);
    StreamsPut(l.streams, st.id, st, given, now.streams, OpenedBy(st.id, fields));
  }

  /** A header block opens a stream object, replacing any open one of the same id. */
  method Open(l: Locals, id: nat, fields: seq<Header>, ghost end: bool, ghost owned: Owners, ghost now: Reader)
    returns (m: Locals, st: H2Stream, ghost given: Owners)
    requires Tidy(l, owned, now)
    modifies l.fp.Repr()
    ensures Tidy(m, given, Absorb(now, HeadersIn(id, fields, end)))
    ensures Extends(owned, given)
    ensures forall o :: o in given && o !in owned ==> fresh(o)
    ensures m == l.(streams := l.streams[id := st]) && st.id == id && fresh(st)
  {
    FingerprintApart(l, owned, now);
    st := Create(l, id, fields, owned, now);
    given := Opened(owned, l.fp, st);
    OpenedOwns(owned, l.fp, st);
    m := l.(streams := l.streams[st.id := st]);
    AfterCreate(l, st, fields, end, owned, given, now);
  }

  /** END_STREAM hands the stream over. */
  method DispatchIfEnded(l: Locals, st: H2Stream, f: InFrame, ghost owned: Owners, ghost now: Reader)
    returns (m: Locals, ghost given: Owners)
    requires (f.HeadersIn? || f.DataIn?) && Completes(now, f) == f.end
    requires Tidy(l, owned, Absorb(now, f)) && st.id == f.id && st.id in l.streams && l.streams[st.id] == st
    ensures Tidy(m, given, OnFrame(now, f)) && Kept(owned, given)
    ensures forall o :: o in given && o !in owned ==> fresh(o)
    ensures m.fp == l.fp && l.jobs <= m.jobs
  {
    m, given := l, owned;
    if f.end {
      m, given := Dispatch(l, st, owned, Absorb(now, f));
    }
  }

  lemma ExtendsAndKeeps(a: Owners, b: Owners, c: Owners)
    requires Extends(a, b) && Kept(b, c)
    ensures Kept(a, c)
  {
  }

  method OnHeaders(l: Locals, id: nat, fields: seq<Header>, end: bool, ghost owned: Owners, ghost now: Reader)
    returns (m: Locals, ghost given: Owners)
    requires Tidy(l, owned, now)
    modifies l.fp.Repr()
    ensures Tidy(m, given, OnFrame(now, HeadersIn(id, fields, end)))
    ensures Kept(owned, given) && m.fp == l.fp && l.jobs <= m.jobs
    ensures forall o :: o in given && o !in owned ==> fresh(o)
  {
    var wider, st;
    ghost var half;
    wider, st, half := Open(l, id, fields, end, owned, now);
    m, given := DispatchIfEnded(wider, st, HeadersIn(id, fields, end), half, now);
    ExtendsAndKeeps(owned, half, given);
  }

  /** The payload goes into the stream's own object: nothing else the loop or a goroutine holds shows it. */
  method Extend(l: Locals, id: nat, data: Bytes, ghost owned: Owners, ghost now: Reader)
    requires id in l.streams && id in now.streams && l.streams[id].Valid() && l.streams[id].Value() == now.streams[id]
    requires FpShows(l.fp, owned, now.fp) && JobsShow(l.jobs, owned, now.jobs)
    requires StreamsShow(l.streams - {id}, owned, now.streams - {id})
    requires l.streams[id].Repr() !! Objects(owned, LoopFingerprint) + HandedObjects(owned)
                                     + StreamObjects(owned, (l.streams - {id}).Keys)
    modifies l.streams[id].Repr()
    ensures l.streams[id].Valid()
    ensures forall o :: o in l.streams[id].Repr() ==> o in old(l.streams[id].Repr()) || fresh(o)
    ensures l.streams[id].Value() == now.streams[id].(body := now.streams[id].body + data)
    ensures FpShows(l.fp, owned, now.fp) && JobsShow(l.jobs, owned, now.jobs)
    ensures StreamsShow(l.streams - {id}, owned, now.streams - {id})
  {
    l.streams[id].TakeData(data);
  }

  lemma StreamPutBack(streams: map<nat, H2Stream>, id: nat, owned: Owners, vs: map<nat, Stream>, v: Stream)
    requires id in streams && StreamsShow(streams - {id}, owned, vs - {id}) && StreamShows(streams[id], id, owned, v)
    ensures StreamsShow(streams, owned, vs[id := v])
  {
    StreamsPut(streams - {id}, id, streams[id], owned, vs - {id}, v);
    assert (streams - {id})[id := streams[id]] == streams && (vs - {id})[id := v] == vs[id := v];
  }

  lemma AfterExtend(l: Locals, id: nat, data: Bytes, padding: nat, end: bool, owned: Owners, given: Owners,
                    now: Reader)
    requires id in l.streams && id in now.streams && Extends(owned, given) && Bounded(owned, |l.jobs|)
    requires FpShows(l.fp, owned, now.fp) && JobsShow(l.jobs, owned, now.jobs)
    requires StreamsShow(l.streams - {id}, owned, now.streams - {id})
    requires StreamShows(l.streams[id], id, given, now.streams[id].(body := now.streams[id].body + data))
    ensures Tidy(l, given, Absorb(now, DataIn(id, data, padding, end)))
  {
    var v := now.streams[id].(body := now.streams[id].body + data);
    var rest, vs := l.streams - {id}, now.streams - {id};
    ExtendsKeeps(owned, given, LoopFingerprint);
    FpStillShows(l.fp, owned, given, now.fp);
    JobsAlsoShow(l.jobs, owned, given, now.jobs);
    StreamsAlsoShow(rest, owned, given, vs);
    StreamPutBack(l.streams, id, given, now.streams, v);
  }

  /** The payload of a DATA frame on an open stream. */
  method Accept(l: Locals, id: nat, data: Bytes, ghost padding: nat, ghost end: bool, ghost owned: Owners,
                ghost now: Reader)
    returns (ghost given: Owners)
    requires Tidy(l, owned, now) && id in l.streams
    modifies l.streams[id].Repr()
    ensures Tidy(l, given, Absorb(now, DataIn(id, data, padding, end)))
    ensures Extends(owned, given)
    ensures forall o :: o in given && o !in owned ==> fresh(o)
  {
    StreamApart(l, id, owned, now);
    Extend(l, id, data, owned, now);
    given := Give(owned, l.streams[id].Repr(), OpenStream(id));
    GiveOwns(owned, l.streams[id].Repr(), OpenStream(id));
    AfterExtend(l, id, data, padding, end, owned, given, now);
  }

  /** The credit that gives an accepted payload back. */
  method GiveCredit(writer: FrameWriter, id: nat, n: nat)
    requires writer.Valid()
    modifies writer`wire, writer`failed
    ensures writer.Valid()
    ensures writer.wire == Clip(writer.limit, old(writer.wire),
                                if n == 0 then [] else [WindowUpdateOut(0, n), WindowUpdateOut(id, n)])
  {
    ClipTwo(writer.limit, writer.wire, WindowUpdateOut(0, n), WindowUpdateOut(id, n));
    if n > 0 {
      writer.WindowUpdate(0, n);
      writer.WindowUpdate(id, n);
    }
  }

  /** Writing to the connection reaches nothing the loop or a goroutine holds. */
  method Credit(l: Locals, id: nat, n: nat, writer: FrameWriter, ghost owned: Owners, ghost now: Reader)
    requires Tidy(l, owned, now) && writer.Valid() && writer !in owned.Keys
    modifies writer`wire, writer`failed
    ensures Tidy(l, owned, now) && writer.Valid()
    ensures writer.wire == Clip(writer.limit, old(writer.wire),
                                if n == 0 then [] else [WindowUpdateOut(0, n), WindowUpdateOut(id, n)])
  {
    GiveCredit(writer, id, n);
  }

  lemma CreditIsReply(f: InFrame, now: Reader)
    requires f.DataIn? && f.id in now.streams
    ensures Replies(now, f)
            == var n := |f.data|; if n == 0 then [] else [WindowUpdateOut(0, n), WindowUpdateOut(f.id, n)]
  {
  }

  /** The payload taken and its credit given. */
  method Receive(l: Locals, f: InFrame, writer: FrameWriter, ghost owned: Owners, ghost now: Reader)
    returns (ghost given: Owners)
    requires Tidy(l, owned, now) && f.DataIn? && f.id in l.streams && writer.Valid() && writer !in owned.Keys
    modifies l.streams[f.id].Repr(), writer`wire, writer`failed
    ensures forall o :: o in given && o !in owned ==> fresh(o)
    ensures Tidy(l, given, Absorb(now, f)) && Extends(owned, given)
    ensures writer.Valid() && writer.wire == Clip(writer.limit, old(writer.wire), Replies(now, f))
  {
    CreditIsReply(f, now);
    assert writer !in l.streams[f.id].Repr() by {
      StreamApart(l, f.id, owned, now);
    }
    given := Accept(l, f.id, f.data, f.padding, f.end, owned, now);
    Credit(l, f.id, |f.data|, writer, given, Absorb(now, f));
  }

  /** A DATA frame on an open stream. */
  method OnOpenData(l: Locals, f: InFrame, writer: FrameWriter, ghost owned: Owners, ghost now: Reader)
    returns (m: Locals, ghost given: Owners)
    requires Tidy(l, owned, now) && f.DataIn? && f.id in l.streams && writer.Valid() && writer !in owned.Keys
    modifies l.streams[f.id].Repr(), writer`wire, writer`failed
    ensures Tidy(m, given, OnFrame(now, f)) && writer.Valid()
    ensures writer.wire == Clip(writer.limit, old(writer.wire), Replies(now, f))
    ensures Kept(owned, given) && m.fp == l.fp && l.jobs <= m.jobs
    ensures forall o :: o in given && o !in owned ==> fresh(o)
  {
    StreamApart(l, f.id, owned, now);
    assert Completes(now, f) == f.end;
    ghost var half := Receive(l, f, writer, owned, now);
    m, given := DispatchIfEnded(l, l.streams[f.id], f, half, now);
    ExtendsAndKeeps(owned, half, given);
  }

  /** On an id no stream is open on it is ignored, and gives no credit. */
  method OnData(l: Locals, f: InFrame, writer: FrameWriter, ghost owned: Owners, ghost now: Reader)
    returns (m: Locals, ghost given: Owners)
    requires Tidy(l, owned, now) && f.DataIn? && writer.Valid() && writer !in owned.Keys
    modifies if f.id in l.streams then l.streams[f.id].Repr() else {}, writer`wire, writer`failed
    ensures Tidy(m, given, OnFrame(now, f)) && writer.Valid()
    ensures writer.wire == Clip(writer.limit, old(writer.wire), Replies(now, f))
    ensures Kept(owned, given) && m.fp == l.fp && l.jobs <= m.jobs
    ensures forall o :: o in given && o !in owned ==> fresh(o)
  {
    m, given := l, owned;
    ClipNothing(writer.limit, writer.wire);
    if f.id in l.streams {
      m, given := OnOpenData(l, f, writer, owned, now);
    }
  }

  /** The frames that concern no stream: they touch the live fingerprint and the wire only. */
  method OnConnectionFrame(fp: LiveFingerprint, f: InFrame, writer: FrameWriter, ghost v: Fingerprint)
    requires fp.Valid() && fp.Value() == v && writer.Valid() && !f.HeadersIn? && !f.DataIn? && !f.RstIn?
    modifies fp.Repr(), writer`wire, writer`failed
    ensures fp.Valid() && fp.Value() == Absorb(Reader(v, map[], []), f).fp
    ensures forall o :: o in fp.Repr() ==> o in old(fp.Repr()) || fresh(o)
    ensures writer.Valid() && writer.wire == Clip(writer.limit, old(writer.wire), Replies(FRESH_READER, f))
  {
    ClipNothing(writer.limit, writer.wire);
    match f
    case SettingsIn(ack, settings) =>
      if !ack {
        fp.AddSettings(settings);
        writer.SettingsAck();
      }
    case WindowUpdateIn(id, increment) =>
      if id == 0 {
        fp.AddFlow(increment);
      }
    case PriorityIn(priority) =>
      fp.AddPriority(priority);
    case PingIn(ack, data) =>
      if !ack {
        writer.PingAck(data);
      }
    case _ =>
  }

  method Note(l: Locals, f: InFrame, writer: FrameWriter, ghost owned: Owners, ghost now: Reader)
    requires StreamsShow(l.streams, owned, now.streams) && JobsShow(l.jobs, owned, now.jobs)
    requires l.fp.Valid() && l.fp.Value() == now.fp && writer.Valid() && writer !in owned.Keys
    requires l.fp.Repr() !! StreamObjects(owned, l.streams.Keys) + HandedObjects(owned)
    requires !f.HeadersIn? && !f.DataIn? && !f.RstIn?
    modifies l.fp.Repr(), writer`wire, writer`failed
    ensures l.fp.Valid() && (forall o :: o in l.fp.Repr() ==> o in old(l.fp.Repr()) || fresh(o))
    ensures l.fp.Value() == Absorb(Reader(now.fp, map[], []), f).fp
    ensures writer.Valid() && writer.wire == Clip(writer.limit, old(writer.wire), Replies(FRESH_READER, f))
    ensures StreamsShow(l.streams, owned, now.streams) && JobsShow(l.jobs, owned, now.jobs)
  {
    OnConnectionFrame(l.fp, f, writer, now.fp);
  }

  lemma AfterNote(l: Locals, f: InFrame, owned: Owners, given: Owners, now: Reader)
    requires !f.HeadersIn? && !f.DataIn? && !f.RstIn? && Extends(owned, given) && Bounded(owned, |l.jobs|)
    requires StreamsShow(l.streams, owned, now.streams) && JobsShow(l.jobs, owned, now.jobs)
    requires FpShows(l.fp, given, Absorb(Reader(now.fp, map[], []), f).fp)
    ensures Tidy(l, given, OnFrame(now, f)) && Kept(owned, given)
  {
    StreamsAlsoShow(l.streams, owned, given, now.streams);
    JobsAlsoShow(l.jobs, owned, given, now.jobs);
    assert OnFrame(now, f) == now.(fp := Absorb(Reader(now.fp, map[], []), f).fp);
  }

  method OnConnection(l: Locals, f: InFrame, writer: FrameWriter, ghost owned: Owners, ghost now: Reader)
    returns (ghost given: Owners)
    requires Tidy(l, owned, now) && !f.HeadersIn? && !f.DataIn? && !f.RstIn? && writer.Valid() && writer !in owned.Keys
    modifies l.fp.Repr(), writer`wire, writer`failed
    ensures Tidy(l, given, OnFrame(now, f)) && Kept(owned, given)
    ensures forall o :: o in given && o !in owned ==> fresh(o)
    ensures writer.Valid() && writer.wire == Clip(writer.limit, old(writer.wire), Replies(now, f))
  {
    FingerprintApart(l, owned, now);
    Note(l, f, writer, owned, now);
    given := Give(owned, l.fp.Repr(), LoopFingerprint);
    GiveOwns(owned, l.fp.Repr(), LoopFingerprint);
    AfterNote(l, f, owned, given, now);
  }

  /** RST_STREAM drops the object from the map; it stays the loop's to forget. */
  lemma OnReset(l: Locals, id: nat, owned: Owners, now: Reader)
    requires Tidy(l, owned, now)
    ensures Tidy(l.(streams := l.streams - {id}), owned, OnFrame(now, RstIn(id)))
  {
  }

  lemma LiveHolds(l: Locals, owned: Owners, now: Reader)
    requires Tidy(l, owned, now)
    ensures l.fp.Repr() <= Live(owned)
    ensures forall id :: id in l.streams ==> l.streams[id].Repr() <= Live(owned)
  {
    FingerprintApart(l, owned, now);
    forall id | id in l.streams
      ensures l.streams[id].Repr() <= Live(owned)
    {
      StreamApart(l, id, owned, now);
    }
  }

  /**
   * One iteration of the read loop. It may write the live fingerprint and the open
   * streams; what was handed over to a goroutine it leaves alone, object by object.
   */
  method HandleFrame(l: Locals, f: InFrame, writer: FrameWriter, ghost owned: Owners, ghost now: Reader)
    returns (m: Locals, ghost given: Owners)
    requires Tidy(l, owned, now) && writer.Valid() && writer !in owned.Keys
    modifies Live(owned), writer`wire, writer`failed
    ensures Tidy(m, given, OnFrame(now, f)) && writer.Valid()
    ensures writer.wire == Clip(writer.limit, old(writer.wire), Replies(now, f))
    ensures Kept(owned, given)
    ensures forall o :: o in given && o !in owned ==> fresh(o)
    ensures m.fp == l.fp && l.jobs <= m.jobs
    ensures forall o :: o in owned && owned[o].Handed? ==> unchanged(o)
  {
    LiveHolds(l, owned, now);
    ClipNothing(writer.limit, writer.wire);
    if f.HeadersIn? {
      m, given := OnHeaders(l, f.id, f.fields, f.end, owned, now);
    } else if f.DataIn? {
      m, given := OnData(l, f, writer, owned, now);
    } else if f.RstIn? {
      OnReset(l, f.id, owned, now);
      m, given := l.(streams := l.streams - {f.id}), owned;
    } else {
      given := OnConnection(l, f, writer, owned, now);
      m := l;
    }
  }

  /**
   * What a goroutine was given is out of the loop's reach: no open stream is a handed-over one, and no
   * open stream, live fingerprint or other job shares an object or a backing array with it.
   */
  lemma HandedOverIsOut(l: Locals, owned: Owners, now: Reader, k: nat)
    requires Tidy(l, owned, now) && k < |l.jobs|
    ensures l.jobs[k].Repr() !! l.fp.Repr()
    ensures forall id :: id in l.streams ==>
              l.streams[id] != l.jobs[k].stream && l.jobs[k].Repr() !! l.streams[id].Repr()
    ensures forall j :: 0 <= j < |l.jobs| && j != k ==> l.jobs[k].Repr() !! l.jobs[j].Repr()
  {
    assert JobShows(l.jobs[k], k, owned, now.jobs[k]);
    forall id | id in l.streams
      ensures l.streams[id] != l.jobs[k].stream && l.jobs[k].Repr() !! l.streams[id].Repr()
    {
      assert StreamShows(l.streams[id], id, owned, now.streams[id]);
    }
    forall j | 0 <= j < |l.jobs| && j != k
      ensures l.jobs[k].Repr() !! l.jobs[j].Repr()
    {
      assert JobShows(l.jobs[j], j, owned, now.jobs[j]);
    }
  }

  /** How many frames the loop takes: it stops after GOAWAY and before a frame the framer rejects. */
  function Taken(frames: seq<InFrame>): (n: nat)
    ensures n <= |frames|
  {
    if frames == [] || Malformed(frames[0]) then 0
    else if frames[0].GoAwayIn? then 1
    else 1 + Taken(frames[1..])
  }

  lemma TakenNext(frames: seq<InFrame>, n: nat)
    requires n < |frames|
    ensures Taken(frames[n..])
            == if Malformed(frames[n]) then 0 else if frames[n].GoAwayIn? then 1 else 1 + Taken(frames[n + 1..])
  {
    assert frames[n..][1..] == frames[n + 1..];
  }

  /** The control frames the loop sends for `read`. */
  function AllReplies(read: seq<InFrame>): seq<OutFrame> {
    if read == [] then []
    else
      var init := read[..|read| - 1];
      AllReplies(init) + Replies(ReadAll(init), read[|read| - 1])
  }

  lemma OneMoreFrame(limit: nat, wire: seq<OutFrame>, frames: seq<InFrame>, n: nat)
    requires n < |frames| && |wire| <= limit
    ensures ReadAll(frames[..n + 1]) == OnFrame(ReadAll(frames[..n]), frames[n])
    ensures Clip(limit, Clip(limit, wire, AllReplies(frames[..n])), Replies(ReadAll(frames[..n]), frames[n]))
            == Clip(limit, wire, AllReplies(frames[..n + 1]))
  {
    assert frames[..n + 1][..n] == frames[..n];
    ClipClip(limit, wire, AllReplies(frames[..n]), Replies(ReadAll(frames[..n]), frames[n]));
  }

  /** Before the first frame: a fingerprint of its own, no streams, nothing handed over. */
  method Begin() returns (l: Locals, ghost owned: Owners)
    ensures Tidy(l, owned, FRESH_READER) && l.streams == map[] && l.jobs == [] && fresh(owned.Keys)
  {
    var fp := new LiveFingerprint();
    l := Locals(fp, map[], []);
    owned := Give(map[], fp.Repr(), LoopFingerprint);
    GiveKeeps(map[], fp.Repr(), LoopFingerprint, LoopFingerprint);
  }

  /** One more frame of `frames`, for a loop that has taken `n`. */
  method Turn(l: Locals, frames: seq<InFrame>, n: nat, writer: FrameWriter, ghost was: seq<OutFrame>,
              ghost owned: Owners)
    returns (m: Locals, ghost given: Owners)
    requires n < |frames| && Tidy(l, owned, ReadAll(frames[..n])) && writer.Valid() && writer !in owned.Keys
    requires |was| <= writer.limit && writer.wire == Clip(writer.limit, was, AllReplies(frames[..n]))
    modifies Live(owned), writer`wire, writer`failed
    ensures Tidy(m, given, ReadAll(frames[..n + 1])) && writer.Valid()
    ensures writer.wire == Clip(writer.limit, was, AllReplies(frames[..n + 1]))
    ensures forall o :: o in given && o !in owned ==> fresh(o)
  {
    OneMoreFrame(writer.limit, was, frames, n);
    m, given := HandleFrame(l, frames[n], writer, owned, ReadAll(frames[..n]));
  }

  /**
   * The read loop over everything the client sends, to GOAWAY, a frame the framer
   * rejects, or the end of input. `n` is the number of frames taken.
   */
  method Serve(frames: seq<InFrame>, writer: FrameWriter)
    returns (n: nat, l: Locals, ghost owned: Owners)
    requires writer.Valid()
    modifies writer`wire, writer`failed
    ensures n == Taken(frames) && Tidy(l, owned, ReadAll(frames[..n])) && writer.Valid()
    ensures writer.wire == Clip(writer.limit, old(writer.wire), AllReplies(frames[..n]))
  {
    n := 0;
    ClipNothing(writer.limit, writer.wire);
    l, owned := Begin();
    ghost var now, was := ReadAll(frames[..n]), writer.wire;
    while n < |frames|
      invariant n <= |frames| && now == ReadAll(frames[..n]) && Tidy(l, owned, now) && writer.Valid()
      invariant writer.wire == Clip(writer.limit, was, AllReplies(frames[..n]))
      invariant forall o :: o in owned ==> fresh(o)
      invariant Taken(frames) == n + Taken(frames[n..])
    {
      var f := frames[n];
      TakenNext(frames, n);
      if Malformed(f) {
        break;
      }
      l, owned := Turn(l, frames, n, writer, was, owned);
      n := n + 1;
      now := ReadAll(frames[..n]);
      if f.GoAwayIn? {
        break;
      }
    }
  }
}
