/**
 * The upstream side of one client connection (internal/upstream/upstream.go,
 * internal/upstream/http3.go, internal/proxy/proxy.go): the mirror built once and
 * the HTTP/3 upgrade learned from Alt-Svc, under concurrent requests.
 */
module Upgrade {
  import opened Basics
  import opened Http2Model
  import opened Http2Capture

  // ---- Alt-Svc ----

  function Split(s: string, sep: char): (parts: seq<string>)
    ensures |parts| > 0
  {
    if s == [] then [""]
    else
      var rest := Split(s[1..], sep);
      if s[0] == sep then [""] + rest else [[s[0]] + rest[0]] + rest[1..]
  }

  /** `s` up to its first `c`, or all of it. */
  function Before(s: string, c: char): string {
    if s == [] || s[0] == c then [] else [s[0]] + Before(s[1..], c)
  }

  /** The protocol identifier of one alternative: what precedes '=', unquoted. */
  function Identifier(alternative: string): string {
    Trim(Trim(Before(Trim(alternative, ANYSPACE), '='), ANYSPACE), "\"")
  }

  predicate IsH3(id: string) {
    id == "h3" || HasPrefix(id, "h3-")
  }

  predicate OffersIn(value: string) {
    exists alt :: alt in Split(value, ',') && IsH3(Identifier(alt))
  }

  predicate OffersH3(values: seq<string>) {
    exists v :: v in values && OffersIn(v)
  }

  lemma {:induction false} SplitNoSep(s: string, sep: char)
    requires sep !in s
    ensures Split(s, sep) == [s]
  {
    if s != [] {
      SplitNoSep(s[1..], sep);
      assert [s[0]] + s[1..] == s;
    }
  }

  lemma {:induction false} SplitAt(a: string, sep: char, b: string)
    requires sep !in a
    ensures Split(a + [sep] + b, sep) == [a] + Split(b, sep)
  {
    var s := a + [sep] + b;
    if a == [] {
      assert s[1..] == b;
    } else {
      assert s[1..] == a[1..] + [sep] + b;
      SplitAt(a[1..], sep, b);
      assert [a[0]] + a[1..] == a;
      assert ([a[1..]] + Split(b, sep))[1..] == Split(b, sep);
    }
  }

  lemma {:induction false} SplitJoin(parts: seq<string>, sep: char)
    requires |parts| > 0 && forall p :: p in parts ==> sep !in p
    ensures Split(Join(parts, [sep]), sep) == parts
  {
    if |parts| == 1 {
      SplitNoSep(parts[0], sep);
    } else {
      SplitJoin(parts[1..], sep);
      SplitAt(parts[0], sep, Join(parts[1..], [sep]));
      Associate(parts[0], [sep], Join(parts[1..], [sep]));
    }
  }

  /** A header value listing alternatives offers HTTP/3 exactly when one of them is h3 or an h3 draft. */
  lemma OffersWhenListed(alternatives: seq<string>)
    requires |alternatives| > 0 && forall a :: a in alternatives ==> ',' !in a
    ensures OffersIn(Join(alternatives, [','])) <==> exists a :: a in alternatives && IsH3(Identifier(a))
  {
    SplitJoin(alternatives, ',');
  }

  predicate All(s: string, chars: string) {
    forall c :: c in s ==> c in chars
  }

  /** An identifier proper: no '=', and neither white space nor a quote at its ends. */
  predicate Bare(id: string) {
    id != "" && '=' !in id && id[0] !in ANYSPACE + "\"" && id[|id| - 1] !in ANYSPACE + "\""
  }

  lemma {:induction false} BeforeAt(a: string, c: char, b: string)
    requires c !in a
    ensures Before(a + [c] + b, c) == a && Before(a, c) == a
  {
    if a != "" {
      assert (a + [c] + b)[1..] == a[1..] + [c] + b;
      BeforeAt(a[1..], c, b);
    } else {
      assert a + [c] + b == [c] + b;
    }
  }

  lemma NotSpace()
    ensures '"' !in ANYSPACE && '=' !in ANYSPACE
  {
  }

  /** Quoted or not, it holds no '=' and has no white space at its ends. */
  lemma BodyIsTight(quote: string, id: string, unquote: string)
    requires All(quote, "\"") && All(unquote, "\"") && Bare(id)
    ensures var body := quote + id + unquote;
            body != "" && '=' !in body && body[0] !in ANYSPACE && body[|body| - 1] !in ANYSPACE
  {
    NotSpace();
    var body := quote + id + unquote;
    assert body[0] == if quote != "" then quote[0] else id[0];
    assert body[|body| - 1] == if unquote != "" then unquote[|unquote| - 1] else id[|id| - 1];
    assert quote != "" ==> quote[0] in quote;
    assert unquote != "" ==> unquote[|unquote| - 1] in unquote;
  }

  lemma TrimAround(left: string, body: string, right: string)
    requires All(left, ANYSPACE) && All(right, ANYSPACE)
    requires body != "" && body[0] !in ANYSPACE && body[|body| - 1] !in ANYSPACE
    ensures Trim(left + (body + right), ANYSPACE) == body
  {
    TrimStartAll(left, body + right, ANYSPACE);
    TrimEndAll(body, right, ANYSPACE);
  }

  lemma TrimKeepsHead(left: string, head: string, rest: string)
    requires All(left, ANYSPACE) && head != "" && head[0] !in ANYSPACE && head[|head| - 1] !in ANYSPACE
    ensures exists kept :: Trim(left + (head + rest), ANYSPACE) == head + kept
  {
    TrimStartAll(left, head + rest, ANYSPACE);
    TrimEndKeeps(head, rest, ANYSPACE);
  }

  lemma ValueIsCut(left: string, body: string, right: string, rest: string)
    requires All(left, ANYSPACE) && All(right, ANYSPACE) && '=' !in body
    requires body != "" && body[0] !in ANYSPACE && body[|body| - 1] !in ANYSPACE
    ensures Before(Trim(left + (body + right + "=" + rest), ANYSPACE), '=') == body + right
  {
    NotSpace();
    TrimKeepsHead(left, body + right + "=", rest);
    var kept :| Trim(left + (body + right + "=" + rest), ANYSPACE) == body + right + "=" + kept;
    BeforeAt(body + right, '=', kept);
  }

  lemma NothingIsCut(left: string, body: string, right: string)
    requires All(left, ANYSPACE) && All(right, ANYSPACE) && '=' !in body
    requires body != "" && body[0] !in ANYSPACE && body[|body| - 1] !in ANYSPACE
    ensures Before(Trim(left + (body + right), ANYSPACE), '=') == body
  {
    TrimAround(left, body, right);
    BeforeAt(body, '=', "");
  }

  /** White space and quotes around the identifier, and whatever follows '=', do not matter. */
  lemma IdentifierReads(left: string, quote: string, id: string, unquote: string, right: string, rest: string)
    requires All(left, ANYSPACE) && All(right, ANYSPACE) && All(quote, "\"") && All(unquote, "\"") && Bare(id)
    ensures Identifier(left + ((quote + id + unquote) + right + "=" + rest)) == id
    ensures Identifier(left + ((quote + id + unquote) + right)) == id
  {
    var body := quote + id + unquote;
    BodyIsTight(quote, id, unquote);
    BodyReads(quote, id, unquote);
    ValueIsCut(left, body, right, rest);
    NothingIsCut(left, body, right);
    TrimAround("", body, right);
    TrimAround("", body, "");
    assert "" + (body + right) == body + right && "" + (body + "") == body;
  }

  lemma BodyReads(quote: string, id: string, unquote: string)
    requires All(quote, "\"") && All(unquote, "\"") && Bare(id)
    ensures Trim(quote + id + unquote, "\"") == id
  {
    TrimStartAll(quote, id + unquote, "\"");
    assert quote + id + unquote == quote + (id + unquote);
    TrimEndAll(id, unquote, "\"");
  }

  lemma PlainIdentifier(id: string, rest: string)
    requires Bare(id)
    ensures Identifier(id + "=" + rest) == id && Identifier(id) == id
  {
    IdentifierReads("", "", id, "", "", rest);
    assert "" + id + "" == id && id + "" == id;
    assert "" + (id + "=" + rest) == id + "=" + rest && "" + id == id;
  }

  /** A value of one alternative. */
  lemma OneAlternative(id: string, rest: string)
    requires Bare(id) && ',' !in id && ',' !in rest
    ensures Identifier(id + "=" + rest) == id && (OffersIn(id + "=" + rest) <==> IsH3(id))
    ensures Identifier(id) == id && (OffersIn(id) <==> IsH3(id))
  {
    PlainIdentifier(id, rest);
    SplitNoSep(id + "=" + rest, ',');
    SplitNoSep(id, ',');
    assert id + "=" + rest in [id + "=" + rest] && id in [id];
  }

  lemma H3IsBare(id: string)
    requires id == "h3"
    ensures Bare(id) && ',' !in id && IsH3(id)
  {
  }

  lemma ClearIsBare(id: string)
    requires id == "clear"
    ensures Bare(id) && ',' !in id && !IsH3(id)
  {
  }

  lemma NoCommaInPort(rest: string)
    requires rest == "\":443\"; ma=86400"
    ensures ',' !in rest
  {
  }

  /** The value browsers meet, `h3=":443"; ma=86400`, offers h3; */
  lemma PortOffersH3(id: string, rest: string)
    requires id == "h3" && rest == "\":443\"; ma=86400"
    ensures Identifier(id + "=" + rest) == id && OffersIn(id + "=" + rest)
  {
    H3IsBare(id);
    NoCommaInPort(rest);
    OneAlternative(id, rest);
  }

  /** ... the one that withdraws all alternatives does not. */
  lemma ClearOffersNothing(clear: string)
    requires clear == "clear"
    ensures Identifier(clear) == clear && !OffersIn(clear)
  {
    ClearIsBare(clear);
    OneAlternative(clear, "");
  }

  /** A draft is h3 by its prefix; h2 is not. */
  lemma DraftsAreH3(draft: string)
    ensures IsH3("h3-" + draft) && IsH3("h3") && !IsH3("h2")
  {
  }

  /** `altSvcOffersH3`: the nested scan. */
  method AltSvcOffersH3(values: seq<string>) returns (offers: bool)
    ensures offers == OffersH3(values)
  {
    for i := 0 to |values|
      invariant forall j :: 0 <= j < i ==> !OffersIn(values[j])
    {
      var alternatives := Split(values[i], ',');
      for k := 0 to |alternatives|
        invariant forall j :: 0 <= j < k ==> !IsH3(Identifier(alternatives[j]))
      {
        var id := Identifier(alternatives[k]);
        if id == "h3" || HasPrefix(id, "h3-") {
          assert OffersIn(values[i]) by { assert alternatives[k] in Split(values[i], ','); }
          return true;
        }
      }
    }
    return false;
  }

  // ---- the browser family ----

  datatype Family = Chrome | Firefox

  function MatchFamily(pseudoOrder: seq<string>): Family {
    if pseudoOrder == [":method", ":path", ":authority", ":scheme"] then Firefox else Chrome
  }

  /** Firefox by its four pseudo-headers in its order, Chrome for anything else. */
  lemma FamilyMeans(order: seq<string>)
    ensures MatchFamily(order) == Firefox
            <==> |order| == 4 && order[0] == ":method" && order[1] == ":path" && order[2] == ":authority"
                 && order[3] == ":scheme"
  {
  }

  /**
   * Whichever stream's handler runs `once.Do` first, the mirror is built for the
   * same browser family, if the connection's first header block has
   * pseudo-headers: each job's snapshot names the same order.
   */
  lemma SameFamilyWhoeverWins(read: seq<InFrame>, i: nat, j: nat)
    requires StartsWithPseudo(read)
    requires i < |ReadAll(read).jobs| && j < |ReadAll(read).jobs|
    ensures MatchFamily(ReadAll(read).jobs[i].snapshot.pseudoOrder)
            == MatchFamily(ReadAll(read).jobs[j].snapshot.pseudoOrder)
            == MatchFamily(FirstPseudo(read))
  {
    FirstBlockFixesEverySnapshot(read, i);
    FirstBlockFixesEverySnapshot(read, j);
  }

  ghost predicate OneFamily(jobs: seq<Handoff>) {
    forall i, j :: 0 <= i < |jobs| && 0 <= j < |jobs| ==>
      MatchFamily(jobs[i].snapshot.pseudoOrder) == MatchFamily(jobs[j].snapshot.pseudoOrder)
  }

  /**
   * Exactly when the family does not depend on the winner: some block up to the
   * first dispatch has pseudo-headers, or the first order among the blocks up to
   * the last dispatch, if there is any, is not Firefox's.
   */
  lemma OneFamilyForAll(read: seq<InFrame>, p: nat, q: nat)
    requires FirstDispatch(read, p) && LastDispatch(read, q)
    ensures OneFamily(ReadAll(read).jobs)
            <==> FirstPseudo(read[..p]) != [] || MatchFamily(FirstPseudo(read[..q])) == Chrome
  {
    var jobs := ReadAll(read).jobs;
    FirstJobAt(read, p);
    LastJobAt(read, q);
    forall i | 0 <= i < |jobs|
      ensures MatchFamily(jobs[i].snapshot.pseudoOrder) in [Chrome, MatchFamily(FirstPseudo(read[..q]))]
      ensures FirstPseudo(read[..p]) != [] ==> jobs[i].snapshot.pseudoOrder == FirstPseudo(read[..p])
    {
      OrderOfAny(read, p, q, i);
    }
  }

  const FIREFOX_BLOCK: seq<Header> :=
    [Header(":method", "GET"), Header(":path", "/"), Header(":authority", "a"), Header(":scheme", "https")]

  lemma FirefoxBlockNames()
    ensures MatchFamily(PseudoNames(FIREFOX_BLOCK)) == Firefox
  {
    var b := FIREFOX_BLOCK;
    assert b[..3][..2] == b[..2] && b[..2][..1] == b[..1] && b[..1][..0] == [];
    assert IsPseudo(b[0]) && IsPseudo(b[1]) && IsPseudo(b[2]) && IsPseudo(b[3]);
    assert PseudoNames(b[..1]) == [":method"];
    assert PseudoNames(b[..2]) == [":method", ":path"];
    assert PseudoNames(b[..3]) == [":method", ":path", ":authority"];
  }

  /** An input where the winner matters: an empty first block, then Firefox's order. */
  lemma WinnerMattersAfterBareBlock()
    ensures var jobs := ReadAll([HeadersIn(1, [], true), HeadersIn(3, FIREFOX_BLOCK, true)]).jobs;
            |jobs| == 2 && MatchFamily(jobs[0].snapshot.pseudoOrder) != MatchFamily(jobs[1].snapshot.pseudoOrder)
  {
    var h1, h2 := HeadersIn(1, [], true), HeadersIn(3, FIREFOX_BLOCK, true);
    FirefoxBlockNames();
    ReadAllSnoc([], h1);
    ReadAllSnoc([h1], h2);
    assert [] + [h1] == [h1] && [h1] + [h2] == [h1, h2];
  }

  // ---- the connection's upstream as a step system ----

  datatype Client = Plain | Racing

  /** A request's progress through `serveH2`'s handler and `Mirror.RoundTrip`. */
  datatype Task =
    | AtOnce
    | AtWant
    | AtRace
    | Calling(client: Client)
    | Answered(client: Client, altSvc: seq<string>)
    | Finished(served: Option<Client>)

  datatype Mirror = Unbuilt | Failed | Built

  /** What happened under a lock or on the network, in order. */
  datatype Event =
    | MirrorBuilt(k: nat, ok: bool)
    | RacerBuilt(k: nat, ok: bool)
    | Observed(k: nat, offers: bool)
    | Sent(k: nat, client: Client)

  /** `racer` is the cached outcome of building the racing client; `upgrades` is false for an h1 mirror. */
  datatype Upstream = Upstream(
    upgrades: bool, mirror: Mirror, advertised: bool, racer: Option<bool>, tasks: seq<Task>, log: seq<Event>)

  datatype Step =
    | Arrive
    | Once(k: nat, ok: bool)
    | Reject(k: nat)
    | Want(k: nat)
    | Race(k: nat, ok: bool)
    | Respond(k: nat, altSvc: seq<string>)
    | Fail(k: nat)
    | Observe(k: nat)

  function Start(upgrades: bool): Upstream {
    Upstream(upgrades, Unbuilt, false, None, [], [])
  }

  function Set(u: Upstream, k: nat, t: Task): Upstream
    requires k < |u.tasks|
  {
    u.(tasks := u.tasks[k := t])
  }

  function Note(u: Upstream, e: Event): Upstream {
    u.(log := u.log + [e])
  }

  /** `once.Do`: the first caller builds the mirror, all see the one result. */
  function DoOnce(u: Upstream, k: nat, ok: bool): Upstream
    requires k < |u.tasks|
  {
    var v := if u.mirror.Unbuilt? then Note(u, MirrorBuilt(k, ok)).(mirror := if ok then Built else Failed) else u;
    Set(v, k, if v.mirror.Built? then AtWant else Finished(None))
  }

  /** `do` hands the request to a client. */
  function Send(u: Upstream, k: nat, client: Client): Upstream
    requires k < |u.tasks|
  {
    Set(Note(u, Sent(k, client)), k, Calling(client))
  }

  /** `racingClient`: built by the first caller under the lock, its outcome cached. */
  function DoRace(u: Upstream, k: nat, ok: bool): Upstream
    requires k < |u.tasks|
  {
    var v := if u.racer.None? then Note(u, RacerBuilt(k, ok)).(racer := Some(ok)) else u;
    Send(v, k, if v.racer.value then Racing else Plain)
  }

  /** `observe`: only a response that carries Alt-Svc moves the latch. */
  function DoObserve(u: Upstream, k: nat, client: Client, altSvc: seq<string>): Upstream
    requires k < |u.tasks|
  {
    var v := if u.upgrades && altSvc != []
             then Note(u, Observed(k, OffersH3(altSvc))).(advertised := OffersH3(altSvc))
             else u;
    Set(v, k, Finished(Some(client)))
  }

  function Do(u: Upstream, step: Step): Upstream {
    if step.Arrive? then u.(tasks := u.tasks + [AtOnce])
    else if step.k >= |u.tasks| then u
    else
      match (step, u.tasks[step.k])
      case (Once(k, ok), AtOnce) => DoOnce(u, k, ok)
      case (Reject(k), AtWant) => Set(u, k, Finished(None))
      case (Want(k), AtWant) => if u.upgrades && u.advertised then Set(u, k, AtRace) else Send(u, k, Plain)
      case (Race(k, ok), AtRace) => DoRace(u, k, ok)
      case (Respond(k, altSvc), Calling(client)) => Set(u, k, Answered(client, altSvc))
      case (Fail(k), Calling(client)) => Set(u, k, Finished(Some(client)))
      case (Observe(k), Answered(client, altSvc)) => DoObserve(u, k, client, altSvc)
      case _ => u
  }

  function Run(upgrades: bool, steps: seq<Step>): Upstream {
    if steps == [] then Start(upgrades) else Do(Run(upgrades, steps[..|steps| - 1]), steps[|steps| - 1])
  }

  // ---- what the history says ----

  /** The verdict of the last response observed, false before any. */
  function LastVerdict(log: seq<Event>): bool {
    if log == [] then false
    else
      var e := log[|log| - 1];
      if e.Observed? then e.offers else LastVerdict(log[..|log| - 1])
  }

  function CountRacer(log: seq<Event>): nat {
    if log == [] then 0 else CountRacer(log[..|log| - 1]) + if log[|log| - 1].RacerBuilt? then 1 else 0
  }

  function CountMirror(log: seq<Event>): nat {
    if log == [] then 0 else CountMirror(log[..|log| - 1]) + if log[|log| - 1].MirrorBuilt? then 1 else 0
  }

  /** The clients that request `k` was sent through. */
  function SentBy(log: seq<Event>, k: nat): seq<Client> {
    if log == [] then []
    else
      var e := log[|log| - 1];
      SentBy(log[..|log| - 1], k) + if e.Sent? && e.k == k then [e.client] else []
  }

  predicate Advertised(log: seq<Event>) {
    exists i :: 0 <= i < |log| && log[i].Observed? && log[i].offers
  }

  /** Each racing client built, and each request sent through it, comes after an advertisement. */
  predicate RacesFollowOffers(log: seq<Event>) {
    forall i :: 0 <= i < |log| && (log[i].RacerBuilt? || (log[i].Sent? && log[i].client.Racing?)) ==>
      Advertised(log[..i])
  }

  /** Which clients a task has been sent through. */
  function SentSoFar(t: Task): seq<Client> {
    match t
    case Calling(client) => [client]
    case Answered(client, _) => [client]
    case Finished(Some(client)) => [client]
    case _ => []
  }

  ghost predicate TaskOk(u: Upstream, k: nat)
    requires k < |u.tasks|
  {
    var t := u.tasks[k];
    && SentBy(u.log, k) == SentSoFar(t)
    && (t.AtWant? || t.AtRace? || SentSoFar(t) != [] ==> u.mirror.Built?)
    && (t.AtRace? ==> u.upgrades && Advertised(u.log))
    && (Racing in SentSoFar(t) ==> u.racer == Some(true))
  }

  ghost predicate Inv(u: Upstream) {
    && u.advertised == LastVerdict(u.log)
    && CountRacer(u.log) == (if u.racer.Some? then 1 else 0)
    && CountMirror(u.log) == (if u.mirror.Unbuilt? then 0 else 1)
    && RacesFollowOffers(u.log)
    && (!u.upgrades ==> !Advertised(u.log) && u.racer.None?)
    && (forall k :: 0 <= k < |u.tasks| ==> TaskOk(u, k))
    && (forall k: nat :: |u.tasks| <= k ==> SentBy(u.log, k) == [])
  }

  lemma LogSnoc(log: seq<Event>, e: Event)
    ensures LastVerdict(log + [e]) == if e.Observed? then e.offers else LastVerdict(log)
    ensures CountRacer(log + [e]) == CountRacer(log) + if e.RacerBuilt? then 1 else 0
    ensures CountMirror(log + [e]) == CountMirror(log) + if e.MirrorBuilt? then 1 else 0
    ensures Advertised(log + [e]) <==> Advertised(log) || (e.Observed? && e.offers)
    ensures forall k: nat :: SentBy(log + [e], k) == SentBy(log, k) + if e.Sent? && e.k == k then [e.client] else []
    ensures RacesFollowOffers(log + [e])
            <==> RacesFollowOffers(log)
                 && (e.RacerBuilt? || (e.Sent? && e.client.Racing?) ==> Advertised(log))
  {
    var l := log + [e];
    assert l[..|log|] == log;
    assert forall i :: 0 <= i < |log| ==> l[..i] == log[..i] && l[i] == log[i];
    if Advertised(log) {
      var i :| 0 <= i < |log| && log[i].Observed? && log[i].offers;
      assert l[i] == log[i];
    }
    if e.Observed? && e.offers {
      assert l[|log|].Observed?;
    }
  }

  lemma {:induction false} VerdictNeedsOffer(log: seq<Event>)
    requires LastVerdict(log)
    ensures Advertised(log)
  {
    if log[|log| - 1].Observed? {
      assert log[|log| - 1].offers;
    } else {
      VerdictNeedsOffer(log[..|log| - 1]);
      var i :| 0 <= i < |log| - 1 && log[..|log| - 1][i].Observed? && log[..|log| - 1][i].offers;
      assert log[i].offers;
    }
  }

  /** What happens to one task leaves the others as they were. */
  lemma OthersOk(u: Upstream, v: Upstream, k: nat)
    requires Inv(u) && k < |u.tasks| == |v.tasks| && v.tasks == u.tasks[k := v.tasks[k]] && v.upgrades == u.upgrades
    requires u.mirror.Built? ==> v.mirror.Built?
    requires u.racer.Some? ==> v.racer == u.racer
    requires v.log == u.log || (|v.log| == |u.log| + 1 && v.log == u.log + [v.log[|u.log|]])
    requires v.log != u.log && v.log[|u.log|].Sent? ==> v.log[|u.log|].k == k
    ensures forall j :: 0 <= j < |v.tasks| && j != k ==> TaskOk(v, j)
    ensures forall j: nat :: |v.tasks| <= j ==> SentBy(v.log, j) == []
  {
    if v.log != u.log {
      LogSnoc(u.log, v.log[|u.log|]);
    }
    forall j | 0 <= j < |v.tasks| && j != k
      ensures TaskOk(v, j)
    {
      assert TaskOk(u, j);
    }
  }

  lemma QuietInv(u: Upstream, k: nat, t: Task)
    requires Inv(u) && k < |u.tasks| && SentSoFar(t) == SentSoFar(u.tasks[k])
    requires t.AtWant? ==> u.mirror.Built?
    requires t.AtRace? ==> u.upgrades && Advertised(u.log) && u.mirror.Built?
    ensures Inv(Set(u, k, t))
  {
    assert TaskOk(u, k);
    OthersOk(u, Set(u, k, t), k);
  }

  lemma BuildMirrorInv(u: Upstream, k: nat, ok: bool)
    requires Inv(u) && k < |u.tasks| && u.tasks[k].AtOnce? && u.mirror.Unbuilt?
    ensures Inv(Note(u, MirrorBuilt(k, ok)).(mirror := if ok then Built else Failed))
  {
    var v := Note(u, MirrorBuilt(k, ok)).(mirror := if ok then Built else Failed);
    LogSnoc(u.log, MirrorBuilt(k, ok));
    assert TaskOk(u, k);
    OthersOk(u, v, k);
    assert TaskOk(v, k);
  }

  lemma OnceInv(u: Upstream, k: nat, ok: bool)
    requires Inv(u) && k < |u.tasks| && u.tasks[k].AtOnce?
    ensures Inv(DoOnce(u, k, ok))
  {
    var v := u;
    if u.mirror.Unbuilt? {
      BuildMirrorInv(u, k, ok);
      v := Note(u, MirrorBuilt(k, ok)).(mirror := if ok then Built else Failed);
    }
    QuietInv(v, k, if v.mirror.Built? then AtWant else Finished(None));
  }

  lemma SendInv(u: Upstream, k: nat, client: Client)
    requires Inv(u) && k < |u.tasks| && SentSoFar(u.tasks[k]) == [] && u.mirror.Built?
    requires client.Racing? ==> Advertised(u.log) && u.racer == Some(true)
    ensures Inv(Send(u, k, client))
  {
    LogSnoc(u.log, Sent(k, client));
    assert TaskOk(u, k);
    OthersOk(u, Send(u, k, client), k);
  }

  lemma BuildRacerInv(u: Upstream, k: nat, ok: bool)
    requires Inv(u) && k < |u.tasks| && u.tasks[k].AtRace? && u.racer.None?
    ensures Inv(Note(u, RacerBuilt(k, ok)).(racer := Some(ok)))
  {
    var v := Note(u, RacerBuilt(k, ok)).(racer := Some(ok));
    LogSnoc(u.log, RacerBuilt(k, ok));
    assert TaskOk(u, k);
    OthersOk(u, v, k);
    assert TaskOk(v, k);
  }

  lemma RaceInv(u: Upstream, k: nat, ok: bool)
    requires Inv(u) && k < |u.tasks| && u.tasks[k].AtRace?
    ensures Inv(DoRace(u, k, ok))
  {
    assert TaskOk(u, k);
    var v := u;
    if u.racer.None? {
      BuildRacerInv(u, k, ok);
      v := Note(u, RacerBuilt(k, ok)).(racer := Some(ok));
      LogSnoc(u.log, RacerBuilt(k, ok));
    }
    SendInv(v, k, if v.racer.value then Racing else Plain);
  }

  lemma ObserveNoteInv(u: Upstream, k: nat, offers: bool)
    requires Inv(u) && k < |u.tasks| && u.upgrades
    ensures Inv(Note(u, Observed(k, offers)).(advertised := offers))
  {
    var v := Note(u, Observed(k, offers)).(advertised := offers);
    LogSnoc(u.log, Observed(k, offers));
    assert TaskOk(u, k);
    OthersOk(u, v, k);
    assert TaskOk(v, k);
  }

  lemma ObserveInv(u: Upstream, k: nat, client: Client, altSvc: seq<string>)
    requires Inv(u) && k < |u.tasks| && u.tasks[k] == Answered(client, altSvc)
    ensures Inv(DoObserve(u, k, client, altSvc))
  {
    var v := u;
    if u.upgrades && altSvc != [] {
      ObserveNoteInv(u, k, OffersH3(altSvc));
      v := Note(u, Observed(k, OffersH3(altSvc))).(advertised := OffersH3(altSvc));
    }
    QuietInv(v, k, Finished(Some(client)));
  }

  lemma ArriveInv(u: Upstream)
    requires Inv(u)
    ensures Inv(Do(u, Arrive))
  {
    forall k | 0 <= k < |u.tasks|
      ensures TaskOk(Do(u, Arrive), k)
    {
      assert TaskOk(u, k);
    }
  }

  lemma DoInv(u: Upstream, step: Step)
    requires Inv(u)
    ensures Inv(Do(u, step))
  {
    if step.Arrive? {
      ArriveInv(u);
    } else if step.k < |u.tasks| {
      assert TaskOk(u, step.k);
      match (step, u.tasks[step.k])
      case (Once(k, ok), AtOnce) => OnceInv(u, k, ok);
      case (Reject(k), AtWant) => QuietInv(u, k, Finished(None));
      case (Want(k), AtWant) =>
        if u.upgrades && u.advertised {
          VerdictNeedsOffer(u.log);
          QuietInv(u, k, AtRace);
        } else {
          SendInv(u, k, Plain);
        }
      case (Race(k, ok), AtRace) => RaceInv(u, k, ok);
      case (Respond(k, altSvc), Calling(client)) => QuietInv(u, k, Answered(client, altSvc));
      case (Fail(k), Calling(client)) => QuietInv(u, k, Finished(Some(client)));
      case (Observe(k), Answered(client, altSvc)) => ObserveInv(u, k, client, altSvc);
      case _ =>
    }
  }

  lemma {:induction false} RunInv(upgrades: bool, steps: seq<Step>)
    ensures Inv(Run(upgrades, steps)) && Run(upgrades, steps).upgrades == upgrades
  {
    if steps != [] {
      RunInv(upgrades, steps[..|steps| - 1]);
      DoInv(Run(upgrades, steps[..|steps| - 1]), steps[|steps| - 1]);
    }
  }

  // ---- the guarantees, over every schedule ----

  lemma {:induction false} CountAtLeastTwo(log: seq<Event>, i: nat, j: nat)
    requires i < j < |log|
    ensures log[i].RacerBuilt? && log[j].RacerBuilt? ==> CountRacer(log) >= 2
    ensures log[i].MirrorBuilt? && log[j].MirrorBuilt? ==> CountMirror(log) >= 2
  {
    if j < |log| - 1 {
      CountAtLeastTwo(log[..|log| - 1], i, j);
    } else {
      CountAtLeastOne(log[..|log| - 1], i);
    }
  }

  lemma {:induction false} CountAtLeastOne(log: seq<Event>, i: nat)
    requires i < |log|
    ensures log[i].RacerBuilt? ==> CountRacer(log) >= 1
    ensures log[i].MirrorBuilt? ==> CountMirror(log) >= 1
  {
    if i < |log| - 1 {
      CountAtLeastOne(log[..|log| - 1], i);
    }
  }

  /** The mirror and the racing client are each built at most once, the latter only after an advertisement. */
  lemma BuiltAtMostOnce(upgrades: bool, steps: seq<Step>, i: nat, j: nat)
    requires j < |Run(upgrades, steps).log|
    ensures var log := Run(upgrades, steps).log;
            && (i < j ==> !(log[i].RacerBuilt? && log[j].RacerBuilt?) && !(log[i].MirrorBuilt? && log[j].MirrorBuilt?))
            && (log[j].RacerBuilt? || (log[j].Sent? && log[j].client.Racing?) ==> Advertised(log[..j]))
  {
    RunInv(upgrades, steps);
    if i < j {
      CountAtLeastTwo(Run(upgrades, steps).log, i, j);
    }
  }

  /** The latch is the verdict of the last response observed. */
  lemma LatchIsLastVerdict(upgrades: bool, steps: seq<Step>)
    ensures var u := Run(upgrades, steps); u.advertised == LastVerdict(u.log)
  {
    RunInv(upgrades, steps);
  }

  /** A request that finished was sent through exactly the one client it reports, or through none. */
  lemma OneClientPerRequest(upgrades: bool, steps: seq<Step>, k: nat)
    requires var u := Run(upgrades, steps); k < |u.tasks| && u.tasks[k].Finished?
    ensures var u := Run(upgrades, steps);
            SentBy(u.log, k) == if u.tasks[k].served.Some? then [u.tasks[k].served.value] else []
  {
    RunInv(upgrades, steps);
    assert TaskOk(Run(upgrades, steps), k);
  }

  /** A mirror without upgrade state never leaves its plain client. */
  lemma PlainMirrorStaysPlain(steps: seq<Step>, k: nat)
    requires k < |Run(false, steps).tasks|
    ensures Racing !in SentBy(Run(false, steps).log, k)
  {
    RunInv(false, steps);
    assert TaskOk(Run(false, steps), k);
  }

  lemma OutcomesStay(u: Upstream, step: Step)
    ensures u.racer.Some? ==> Do(u, step).racer == u.racer
    ensures !u.mirror.Unbuilt? ==> Do(u, step).mirror == u.mirror
  {
  }

  lemma {:induction false} EarlierOutcomesStay(upgrades: bool, steps: seq<Step>, n: nat)
    requires n <= |steps|
    ensures var u, v := Run(upgrades, steps[..n]), Run(upgrades, steps);
            && (u.racer.Some? ==> v.racer == u.racer)
            && (!u.mirror.Unbuilt? ==> v.mirror == u.mirror)
  {
    if n == |steps| {
      assert steps[..n] == steps;
    } else {
      var init := steps[..|steps| - 1];
      EarlierOutcomesStay(upgrades, init, n);
      assert init[..n] == steps[..n];
      OutcomesStay(Run(upgrades, init), steps[|steps| - 1]);
    }
  }

  /** Once built, the racing client (or its build error) is what every later caller gets. */
  lemma RacerIsCached(upgrades: bool, steps: seq<Step>, more: seq<Step>)
    requires Run(upgrades, steps).racer.Some?
    ensures Run(upgrades, steps + more).racer == Run(upgrades, steps).racer
    ensures Run(upgrades, steps).mirror == Unbuilt || Run(upgrades, steps + more).mirror == Run(upgrades, steps).mirror
  {
    EarlierOutcomesStay(upgrades, steps + more, |steps|);
    assert (steps + more)[..|steps|] == steps;
  }

  // ---- the winner of `once.Do` is a job of the connection ----

  /** Request `k` of a connection's `n` is the one that built the mirror. */
  ghost predicate BuiltBy(upgrades: bool, steps: seq<Step>, n: nat, k: nat) {
    var u := Run(upgrades, steps);
    |u.tasks| == n && exists ok :: MirrorBuilt(k, ok) in u.log
  }

  lemma OneMoreWinner(u: Upstream, step: Step, k: nat, ok: bool)
    requires MirrorBuilt(k, ok) in Do(u, step).log
    ensures MirrorBuilt(k, ok) in u.log || k < |u.tasks|
    ensures |u.tasks| <= |Do(u, step).tasks|
  {
  }

  lemma {:induction false} WinnerIsTask(upgrades: bool, steps: seq<Step>, k: nat, ok: bool)
    requires MirrorBuilt(k, ok) in Run(upgrades, steps).log
    ensures k < |Run(upgrades, steps).tasks|
  {
    if steps != [] {
      var u := Run(upgrades, steps[..|steps| - 1]);
      OneMoreWinner(u, steps[|steps| - 1], k, ok);
      if MirrorBuilt(k, ok) in u.log {
        WinnerIsTask(upgrades, steps[..|steps| - 1], k, ok);
      }
    }
  }

  function Arrivals(n: nat): seq<Step> {
    seq(n, _ => Arrive)
  }

  lemma {:induction false} AllArrive(upgrades: bool, n: nat)
    ensures Run(upgrades, Arrivals(n)) == Start(upgrades).(tasks := seq(n, _ => AtOnce))
  {
    if n > 0 {
      AllArrive(upgrades, n - 1);
      assert Arrivals(n)[..n - 1] == Arrivals(n - 1);
    }
  }

  /** Any of the requests can be the one. */
  lemma AnyoneCanWin(upgrades: bool, n: nat, k: nat)
    requires k < n
    ensures BuiltBy(upgrades, Arrivals(n) + [Once(k, true)], n, k)
  {
    AllArrive(upgrades, n);
    var steps := Arrivals(n) + [Once(k, true)];
    assert steps[..|steps| - 1] == Arrivals(n);
    assert MirrorBuilt(k, true) in Run(upgrades, steps).log;
  }

  /** Whatever the schedules, the mirror is built for one family. */
  ghost predicate OneMirror(upgrades: bool, jobs: seq<Handoff>) {
    forall steps, more, i: nat, j: nat :: BuiltBy(upgrades, steps, |jobs|, i) && BuiltBy(upgrades, more, |jobs|, j) ==>
      i < |jobs| && j < |jobs|
      && MatchFamily(jobs[i].snapshot.pseudoOrder) == MatchFamily(jobs[j].snapshot.pseudoOrder)
  }

  /** So the frames decide whether the schedule of the handlers can: the condition of `OneFamilyForAll`. */
  lemma OneMirrorForAll(upgrades: bool, read: seq<InFrame>, p: nat, q: nat)
    requires FirstDispatch(read, p) && LastDispatch(read, q)
    ensures OneMirror(upgrades, ReadAll(read).jobs)
            <==> FirstPseudo(read[..p]) != [] || MatchFamily(FirstPseudo(read[..q])) == Chrome
  {
    OneFamilyForAll(read, p, q);
    WinnersAreJobs(upgrades, ReadAll(read).jobs);
  }

  lemma WinnersAreJobs(upgrades: bool, jobs: seq<Handoff>)
    ensures OneMirror(upgrades, jobs) <==> OneFamily(jobs)
  {
    forall steps, k: nat | BuiltBy(upgrades, steps, |jobs|, k)
      ensures k < |jobs|
    {
      var ok :| MirrorBuilt(k, ok) in Run(upgrades, steps).log;
      WinnerIsTask(upgrades, steps, k, ok);
    }
    forall i, j | OneMirror(upgrades, jobs) && 0 <= i < |jobs| && 0 <= j < |jobs|
      ensures MatchFamily(jobs[i].snapshot.pseudoOrder) == MatchFamily(jobs[j].snapshot.pseudoOrder)
    {
      AnyoneCanWin(upgrades, |jobs|, i);
      AnyoneCanWin(upgrades, |jobs|, j);
    }
  }

  // ---- the object the steps are taken on ----

  /** `h3upgrade`; each method is one critical section of its lock. */
  class H3Upgrade {
    var advertised: bool
    var built: bool
    var client: bool
    ghost var log: seq<Event>

    ghost predicate Valid()
      reads this
    {
      && advertised == LastVerdict(log)
      && CountRacer(log) == (if built then 1 else 0)
      && RacesFollowOffers(log)
    }

    /** The cached outcome of the build: Some(true) is a client, Some(false) its error. */
    function Racer(): Option<bool>
      reads this
    {
      if built then Some(client) else None
    }

    constructor ()
      ensures Valid() && !advertised && Racer() == None && log == []
    {
      advertised, built, client, log := false, false, false, [];
    }

    method WantH3() returns (want: bool)
      requires Valid()
      ensures want == LastVerdict(log) && (want ==> Advertised(log))
    {
      want := advertised;
      if want { VerdictNeedsOffer(log); }
    }

    /** `build` stands for what building the client would return now. */
    method RacingClient(k: nat, build: bool) returns (ok: bool)
      requires Valid() && Advertised(log)
      modifies this
      ensures Valid() && Racer() == Some(ok) && advertised == old(advertised)
      ensures old(Racer()).Some? ==> ok == old(Racer()).value && log == old(log)
      ensures old(Racer()).None? ==> ok == build && log == old(log) + [RacerBuilt(k, build)]
    {
      if !built {
        LogSnoc(log, RacerBuilt(k, build));
        client := build;
        built := true;
        log := log + [RacerBuilt(k, build)];
      }
      ok := client;
    }

    method Observe(k: nat, altSvc: seq<string>)
      requires Valid()
      modifies this
      ensures Valid() && Racer() == old(Racer())
      ensures altSvc == [] ==> log == old(log) && advertised == old(advertised)
      ensures altSvc != [] ==> log == old(log) + [Observed(k, OffersH3(altSvc))] && advertised == OffersH3(altSvc)
    {
      if altSvc == [] {
        return;
      }
      var offers := AltSvcOffersH3(altSvc);
      LogSnoc(log, Observed(k, offers));
      advertised := offers;
      log := log + [Observed(k, offers)];
    }

    /** `do`: the racing client once h3 is advertised and it can be built, the plain client otherwise. */
    method Choose(k: nat, build: bool) returns (c: Client)
      requires Valid()
      modifies this
      ensures Valid() && advertised == old(advertised)
      ensures c.Racing? <==> old(advertised) && Racer() == Some(true)
      ensures !old(advertised) ==> log == old(log)
      ensures old(Racer()).Some? ==> Racer() == old(Racer())
    {
      c := Plain;
      var want := WantH3();
      if want {
        var ok := RacingClient(k, build);
        if ok { c := Racing; }
      }
    }
  }

  // ---- a method call is a step ----

  /** What the upgrade's own lock orders: builds and verdicts. */
  function Seen(log: seq<Event>): seq<Event> {
    if log == [] then []
    else
      var e := log[|log| - 1];
      Seen(log[..|log| - 1]) + if e.RacerBuilt? || e.Observed? then [e] else []
  }

  lemma SeenSnoc(log: seq<Event>, e: Event)
    ensures Seen(log + [e]) == Seen(log) + if e.RacerBuilt? || e.Observed? then [e] else []
  {
    assert (log + [e])[..|log|] == log;
  }

  lemma SeenTellsVerdict(log: seq<Event>, e: Event)
    requires LastVerdict(Seen(log)) == LastVerdict(log) && (Advertised(Seen(log)) <==> Advertised(log))
    ensures LastVerdict(Seen(log + [e])) == LastVerdict(log + [e])
    ensures Advertised(Seen(log + [e])) <==> Advertised(log + [e])
  {
    SeenSnoc(log, e);
    LogSnoc(log, e);
    LogSnoc(Seen(log), e);
    assert Seen(log) + [] == Seen(log);
  }

  lemma {:induction false} SeenAdvertised(log: seq<Event>)
    ensures LastVerdict(Seen(log)) == LastVerdict(log)
    ensures Advertised(Seen(log)) <==> Advertised(log)
  {
    if log != [] {
      var init, e := log[..|log| - 1], log[|log| - 1];
      SeenAdvertised(init);
      assert log == init + [e];
      SeenTellsVerdict(init, e);
    }
  }

  lemma SendSeen(u: Upstream, k: nat, client: Client)
    requires k < |u.tasks|
    ensures var v := Send(u, k, client);
            && v.upgrades == u.upgrades && v.advertised == u.advertised && v.racer == u.racer
            && Seen(v.log) == Seen(u.log) && |v.tasks| == |u.tasks| && v.tasks[k] == Calling(client)
  {
    SeenSnoc(u.log, Sent(k, client));
    assert Seen(u.log) + [] == Seen(u.log);
  }

  lemma WantSeen(u: Upstream, k: nat)
    requires k < |u.tasks| && u.tasks[k].AtWant?
    ensures var v := Do(u, Want(k));
            && v.upgrades == u.upgrades && v.advertised == u.advertised && v.racer == u.racer
            && Seen(v.log) == Seen(u.log) && |v.tasks| == |u.tasks|
            && v.tasks[k] == if u.upgrades && u.advertised then AtRace else Calling(Plain)
  {
    SendSeen(u, k, Plain);
  }

  lemma RaceSeen(u: Upstream, k: nat, build: bool)
    requires k < |u.tasks| && u.tasks[k].AtRace?
    ensures var v, ok := Do(u, Race(k, build)), if u.racer.Some? then u.racer.value else build;
            && v.upgrades == u.upgrades && v.advertised == u.advertised && v.racer == Some(ok)
            && Seen(v.log) == Seen(u.log) + (if u.racer.None? then [RacerBuilt(k, build)] else [])
            && |v.tasks| == |u.tasks| && v.tasks[k] == Calling(if ok then Racing else Plain)
  {
    if u.racer.None? {
      var v := Note(u, RacerBuilt(k, build)).(racer := Some(build));
      SeenSnoc(u.log, RacerBuilt(k, build));
      SendSeen(v, k, if build then Racing else Plain);
    } else {
      SendSeen(u, k, if u.racer.value then Racing else Plain);
    }
  }

  lemma ObserveSeen(u: Upstream, k: nat)
    requires k < |u.tasks| && u.tasks[k].Answered? && u.upgrades
    ensures var v, altSvc := Do(u, Observe(k)), u.tasks[k].altSvc;
            && v.upgrades && v.racer == u.racer
            && v.advertised == (if altSvc != [] then OffersH3(altSvc) else u.advertised)
            && Seen(v.log) == Seen(u.log) + (if altSvc != [] then [Observed(k, OffersH3(altSvc))] else [])
  {
    SeenSnoc(u.log, Observed(k, OffersH3(u.tasks[k].altSvc)));
    assert Seen(u.log) + [] == Seen(u.log);
  }

  /** The object is the upgrade state of `u`. */
  ghost predicate Matches(h: H3Upgrade, u: Upstream)
    reads h
  {
    u.upgrades && h.advertised == u.advertised && h.Racer() == u.racer && h.log == Seen(u.log)
  }

  /** `WantH3` answers as the step does, which leaves the object alone. */
  method WantIsStep(h: H3Upgrade, k: nat, ghost u: Upstream) returns (want: bool)
    requires h.Valid() && Matches(h, u) && k < |u.tasks| && u.tasks[k].AtWant?
    ensures Matches(h, Do(u, Want(k)))
    ensures Do(u, Want(k)).tasks[k] == if want then AtRace else Calling(Plain)
  {
    want := h.WantH3();
    WantSeen(u, k);
  }

  /** `RacingClient` is the step `Race`, its result the client the request is sent through. */
  method RaceIsStep(h: H3Upgrade, k: nat, build: bool, ghost u: Upstream) returns (ok: bool)
    requires h.Valid() && Matches(h, u) && Inv(u) && k < |u.tasks| && u.tasks[k].AtRace?
    modifies h
    ensures h.Valid() && Matches(h, Do(u, Race(k, build)))
    ensures Do(u, Race(k, build)).tasks[k] == Calling(if ok then Racing else Plain)
  {
    assert TaskOk(u, k);
    SeenAdvertised(u.log);
    RaceSeen(u, k, build);
    ok := h.RacingClient(k, build);
  }

  /** `Observe` is the step `Observe`. */
  method ObserveIsStep(h: H3Upgrade, k: nat, altSvc: seq<string>, ghost u: Upstream)
    requires h.Valid() && Matches(h, u) && k < |u.tasks| && u.tasks[k].Answered? && u.tasks[k].altSvc == altSvc
    modifies h
    ensures h.Valid() && Matches(h, Do(u, Observe(k)))
  {
    ObserveSeen(u, k);
    h.Observe(k, altSvc);
  }
}
