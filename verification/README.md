# Verified model of lebedev

lebedev is an intercepting proxy that mirrors a client's traffic to the origin
byte order by byte order, and keeps what it saw as HAR entries. This project
models the parts of it where order, sharing and reassembly matter, and proves
what they promise.

- **HTTP/2 capture** (`Http2Model`, `Http2Blocks`, `Http2Capture`, `Http2Wire`,
  `Http2Engine`, `Http2Theorems`, `Http2Requests`, `Http2Answers`, `Http2Flow`,
  `Http2Writer`, `Slices`, `Http2Objects`, `Http2Conn`). `ServeHTTP2` is a read
  loop and any number of handler goroutines sharing one write lock and one HPACK
  encoder. The engine is a step system in which frames read, lock operations,
  encodings and single-frame writes of all of them interleave in any order; a
  schedule is any sequence of steps, steps that are not enabled do nothing.
  `Http2Conn` is the read loop over objects and Go's slices with their backing
  arrays, tied to the transitions of the engine; a ghost map gives every object
  and array one owner. The other end is a strict peer (sections 3.4, 4.3, 6.9 and
  8.1 of RFC 9113) with its own HPACK decoder. A connection accepts some number of
  frames and then refuses all, as a TLS connection does after a write error.
- **The store** (`Har`, `EntryRows`, `Tables`, `Sql`, `Glob`, `Queries`, `Lists`,
  `Paging`, `StoreDb`, `StoreBook`, `Listing`, `SqlStore`, `StoreRun`,
  `RenameRace`, `Transfer`). Tables are unordered sets of rows with autoincrement
  counters. The state of the class `Store` has a type whose constraint says that
  the tables are a decomposition of an ordered list of entries, so no method can
  leave them otherwise. Every write takes the number of statements that still
  succeed, so each can fail anywhere. Queries go through the text the store
  builds, both placeholder styles, a parser and an evaluator.
- **HTTP/1.1 capture** (`Http1`, `Http1Wire`, `Http1Framing`, `Http1Shows`,
  `Http1Reader`) and the **replay** of a request upstream (`Replay`), with the
  once-built mirror and the learned HTTP/3 upgrade (`Upgrade`).
- **TLS fingerprints** (`ClientHello`, `ClientHelloReader`, `HelloShows`,
  `Fingerprints`, `Ja4Layout`, `Ja4Shows`, `HelloOrder`).

What each operation gives is stated twice: by the functions it is built from, and
by positions and literal values (`Http2Blocks`, `Http2Requests`, `Http2Answers`,
`Http1Shows`, `HelloShows`, `Ja4Layout`, `Paging`, `Har.NormIsExact`,
`Replay.HeaderMapStores`).

What a caller supplies is a parameter: handler answers and schedules, the HPACK
encoder (any that is lawful), hash functions, JSON for the `http2` column (any
that reads back what it wrote), LIKE's character equivalence, failure points and
skipped ids.

Places where the code does less than its comments or callers may expect,
kept as they are and stated exactly:

- The connection window is not given back for padding and for DATA on streams the
  loop does not hold (`Http2Flow.ConnectionWindow`: whole if and only if none;
  `PaddingLeaks` and `StrayDataLeaks` are runs where it is not).
- `Offset` without `Limit` compiles to a bare OFFSET, which SQLite rejects
  (`Queries.ListMeansQuery`: an error if and only if so; `BareOffsetFails`).
- `RenameSession` to the empty name is refused when any session has entries,
  because an empty `Session` is no filter (`StoreBook.RefusedWhenCounted`;
  `EmptyNameIsRefused` is a book with one entry).
- The browser family a connection's mirror is built for is the same on every
  schedule if and only if some block up to the first dispatch has pseudo-headers
  or the first order up to the last dispatch is not Firefox's
  (`Upgrade.OneMirrorForAll`; `WinnerMattersAfterBareBlock` is an input where the
  winner matters).
- JA4 does not see the order of the extensions if and only if extensions of one
  kind, where there are several, show the same (`HelloOrder.OrderIsUnseen`, on the
  bytes of any hello and over every hash; `OrderOfVersionsMatters` are the bytes
  of two orders that give two fingerprints).
- `RenameSession` counts before its transaction, so entries recorded under the new
  name in between are merged with the old session's (`RenameRace.RenameDuring`:
  one list moves and no more if and only if the name is still free at the
  transaction; `RecordedMeanwhile` is an input where two sessions become one).
- A replayed request has the captured header order, whatever the writer does with
  names that differ in casing only, if and only if there are none and equal names
  stand together (`Replay.ReplayIsFaithful`; `InterleavedIsRegrouped` is an input
  where they do not).

`dafny verify dfyconfig.toml` checks everything.

## Model

| member | source | states |
|---|---|---|
| Http2Theorems.OpenedOnceServedOnce | internal/capture/http2.go:164-276 | end to end over every schedule that has returned without a write failure: a stream opened once gets exactly one message, the answer of the one handler that was given its own request and the fold of the frames read up to END_STREAM, if END_STREAM came before any RST_STREAM, and none otherwise |
| Http2Theorems.PeerHearsWhatWasDelivered | internal/capture/http2.go:120-155 | on every schedule a peer that parses the wire strictly (SETTINGS first, messages as unbroken HEADERS DATA* with END_STREAM on the last frame) accepts all of it and recovers, in order, exactly the messages of the jobs that finished writing, with their decoded field lists and bodies |
| Http2Theorems.NoFrameInsideReply | internal/capture/http2.go:320-346 | after a HEADERS frame without END_STREAM every frame up to the end of that message is DATA of the same stream, non-empty and at most 16384 octets |
| Http2Theorems.DecoderFollowsEncoder | internal/capture/http2.go:323-331 | while writes succeed and no reply is half written, the peer's header table is the shared encoder's |
| Http2Theorems.StartedJobs | internal/capture/http2.go:221-241 | the goroutines started are, in order, exactly the completions in the input read so far, but for one about to be started |
| Http2Theorems.HistoryIsPermanent | internal/capture/http2.go:262-276 | over any further steps the hand-overs, answers, outcomes and written frames of a state are only added to; as values, the heap facts are those of `Http2Conn.HandleFrame` |
| Http2Theorems.ReturnedIsFinal | internal/capture/http2.go:181-196 | once ServeHTTP2 has returned every handler is done and no step changes anything |
| Http2Theorems.MessagesAnswerJobs | internal/capture/http2.go:268-275 | every message the peer hears is the answer of its own job, and no two answer the same one |
| Http2Theorems.EveryJobIsAnswered | internal/capture/http2.go:262-276 | when ServeHTTP2 has returned without a write failure each job has its one outcome, response or RST, on the wire |
| Http2Theorems.OneJobOneMessage | internal/capture/http2.go:262-276 | after a return without a write failure a stream with one job has exactly one message, the job's answer, and a stream with none has none |
| Http2Theorems.SomeStepIsEnabled | internal/capture/http2.go:181-196 | no deadlock while writes return: in every reachable state that has not returned and is not just waiting for the client some non-read step changes the state |
| Http2Theorems.DrainMakesProgress | internal/capture/http2.go:181-186 | while the loop drains, every effective step ends a handler, shrinks the remaining writes, or returns |
| Http2Theorems.DrainCanFinish | internal/capture/http2.go:181-186 | from every draining state some schedule reaches the return |
| Http2Theorems.EveryDrainEnds | internal/capture/http2.go:181-186 | every endless schedule from a draining state returns or comes to a step that does nothing: sequences of effective steps are finite |
| Http2Answers.ClientReadsAnswers | internal/capture/http2.go:268-275 | on every schedule the i-th message the peer hears is, field by field, what the handler of the i-th job to finish answered, or a reset where it failed |
| Http2Answers.RunAcks | internal/capture/http2.go:197-247 | on every schedule, while writes succeed, the acknowledgements written and about to be written are those of the SETTINGS and PING frames read that are none themselves, once each and in order, PING with its own data; after a failure those written are the first ones |
| Http2Answers.EverythingAcknowledged | internal/capture/http2.go:197-247 | between frames, while writes succeed, nothing is left to acknowledge |
| Http2Engine.RunInv | internal/capture/http2.go:120-155 | the invariant of every run: lock ownership, the phases of loop and handlers, the wire as the peer hears it, and each job's one outcome |
| Http2Engine.DoInv | internal/capture/http2.go:188-276 | each step of the read loop or of a handler keeps that invariant |
| Http2Wire.BlockRoundTrip | internal/capture/http2.go:323-331 | a lawful HPACK encoder and a decoder starting in the same table state stay in step over a block and the fields come back |
| Http2Wire.LawfulExists | internal/capture/http2.go:170-172 | the law assumed of the encoder is satisfiable: there is one that indexes and one that does not |
| Http2Wire.HearResponse | internal/capture/http2.go:323-346 | a peer between messages that reads the frames of writeResponse has one message more: status in decimal first, each header's name with its ASCII capitals made small and its value unchanged, in order, and the body; its decoder ends in the encoder's state |
| Http2Wire.FieldsAnswer | internal/capture/http2.go:327-331 | the field list, field by field: :status spelled in decimal, then the headers in order, names lowered character by character, values unchanged |
| Http2Wire.DataFramesShape | internal/capture/http2.go:350-358 | the DATA frames of a body are non-empty but for an empty body's one, full but for the last, at most 16384 octets, concatenate to it, and END_STREAM is on the last only |
| Http2Wire.RepliesAreContiguous | internal/capture/http2.go:320-346 | any wire a strict peer accepts has no foreign frame inside a message |
| Http2Capture.FingerprintIsFold | internal/capture/http2.go:197-224 | the live fingerprint is the fold of all frames read: SETTINGS concatenated, connection WINDOW_UPDATE summed mod 2^32, PRIORITY in order, both orders from the first block that has any |
| Http2Capture.StreamsAreLives | internal/capture/http2.go:221-249 | what the stream map holds for an id is determined by the frames on that id alone |
| Http2Capture.InterleavingIsInvisible | internal/capture/http2.go:221-249 | a stream's state is that of its own frames read without the others |
| Http2Capture.JobsAreHandoffs | internal/capture/http2.go:221-266 | each goroutine is given the request and the fold of exactly the frames up to its completion |
| Http2Capture.LaterFramesOnlyAppend | internal/capture/http2.go:262-266 | frames read later never change a hand-over, they only add new ones |
| Http2Capture.SnapshotsGrow | internal/capture/http2.go:79-89 | settings and priorities of an earlier snapshot are prefixes of a later one's, and orders once set stay |
| Http2Capture.DispatchEnds | internal/capture/http2.go:221-241 | where anything was dispatched there is a first and a last frame that dispatches, which the next condition is about |
| Http2Capture.OneOrderForAll | internal/capture/http2.go:310-312 | all snapshots agree on the pseudo-header order if and only if some block up to the first dispatching frame has pseudo-headers or none up to the last one has |
| Http2Capture.FirstBlockFixesEverySnapshot | internal/capture/http2.go:310-312 | if the first header block carries pseudo-headers, every snapshot has exactly its order |
| Http2Blocks.ReadsAsIsExact | internal/capture/http2.go:296-309 | by positions: a request is the one a block opens if and only if method, target, scheme and authority are the values of the last fields of exactly those names (or empty), its headers are the fields whose names do not start with a colon, in order and unchanged, its pseudo order the names that do, in order, and its protocol HTTP/2.0 |
| Http2Requests.OpenShowsBlock | internal/capture/http2.go:221-249 | what the map holds for an open stream is its last header block and the DATA read after it |
| Http2Requests.JobsShowTheirInput | internal/capture/http2.go:257-275 | every request handed over is, in those words, the block that opened its stream, with the payloads of its later DATA frames in order as body; its snapshot holds the settings of all frames that are no acknowledgements and all priorities in order, the connection increments added up in 32 bits, and the orders, name by name, of the first blocks that have any |
| Http2Requests.HandlersSeeTheirBlock | internal/capture/http2.go:257-275 | the same of every handler on every schedule |
| Http2Capture.FateMeans | internal/capture/http2.go:229-249 | what the frames of an open stream amount to: ended at a frame, dropped by RST_STREAM, or still open |
| Http2Capture.OneHandlerPerStream | internal/capture/http2.go:221-252 | a stream opened once is handed over exactly once, at its END_STREAM, if that precedes any RST_STREAM, and never otherwise; the request reads, by positions, as its own block, with the concatenated DATA payloads as body |
| Http2Capture.EndedAtOnce | internal/capture/http2.go:225-227 | a block with END_STREAM hands over once, with no body, whatever follows |
| Http2Flow.RunFlow | internal/capture/http2.go:229-238 | on every run the credit written plus the credit about to be written equals the DATA octets accepted while writes succeed and never exceeds them, per stream and for the connection, and every increment is positive |
| Http2Flow.ConnectionWindow | internal/capture/http2.go:229-238 | the client's connection window never exceeds 65535; between frames it is short by exactly the octets not credited, and whole if and only if there were none (padding, and DATA on unknown streams) |
| Http2Flow.PaddingLeaks | internal/capture/http2.go:229-238 | a run whose window stays short: one padded frame on an open stream |
| Http2Flow.StrayDataLeaks | internal/capture/http2.go:229-233 | and one with DATA on an id that is not held |
| Http2Flow.LeakedIsTheRest | internal/capture/http2.go:229-236 | octets spent are octets accepted plus octets leaked |
| Http2Flow.StreamCreditIsBody | internal/capture/http2.go:234-238 | the credit on a stream opened once and still open is the length of its accumulated body |
| Http2Writer.FrameWriter.WriteFrame | internal/capture/http2.go:126-131 | appends the frame if the connection still accepts one; the first refusal is final |
| Http2Writer.FrameWriter.WindowUpdate | internal/capture/http2.go:139-143 | one WINDOW_UPDATE frame under the lock |
| Http2Writer.FrameWriter.RstStream | internal/capture/http2.go:151-155 | one RST_STREAM frame under the lock |
| Http2Writer.FrameWriter.WriteData | internal/capture/http2.go:350-358 | the reslicing loop writes exactly the DATA frames of the body, as many as the connection accepts |
| Http2Writer.FrameWriter.WriteResponse | internal/capture/http2.go:323-346 | the wire grows by exactly the frames of the response in the current encoder state, the first of which carries those fields to a decoder in that state, and the encoder moves on even when writing fails |
| Http2Writer.StepsAreWriteResponse | internal/capture/http2.go:323-346 | the lock, encode and write steps of one handler amount to the method WriteResponse |
| Slices.Append | internal/capture/http2.go:202 | Go's append: into the backing array while there is room, so slices that share one can disturb each other, into a new array otherwise |
| Http2Objects.LiveFingerprint.Clone | internal/capture/http2.go:81-89 | an equal fingerprint whose object and four backing arrays are all new |
| Http2Objects.H2Stream.MakeRequest | internal/capture/http2.go:264 | the request shares the stream's backing arrays, it does not copy them |
| Http2Objects.CaptureHeaders | internal/capture/http2.go:292-318 | splits the block in order into pseudo-headers and headers and sets each connection order only if it is still empty, in arrays the stream does not share |
| Http2Objects.CapturedShows | internal/capture/http2.go:292-309 | what the stream object then holds, by positions: method, path, scheme and authority are the values of the last fields so named, headers and pseudo order the fields of each kind in order |
| Http2Objects.NotedShows | internal/capture/http2.go:310-317 | and the fingerprint: each order it had, or else, in order, the names of the block's fields of that kind |
| Http2Conn.Dispatch | internal/capture/http2.go:262-266 | the stream object leaves the map and belongs, with its backing arrays and a new snapshot, to the job; every object keeps exactly one owner |
| Http2Conn.OnHeaders | internal/capture/http2.go:221-227 | a header block opens a stream object, replacing any open one of that id |
| Http2Conn.OnData | internal/capture/http2.go:229-241 | DATA on an open stream writes that stream's objects only and is credited to connection and stream; on any other id nothing happens |
| Http2Conn.OnReset | internal/capture/http2.go:248-249 | RST_STREAM removes the stream object from the map and nothing else |
| Http2Conn.HandleFrame | internal/capture/http2.go:197-253 | one iteration refines the value-level transition, writes its control frames, may write only what no job owns, and leaves every object of every job unchanged in the heap |
| Http2Conn.HandedOverIsOut | internal/capture/http2.go:257-266 | what a job was given is out of reach: its stream is in the map under no id, and its objects and arrays are disjoint from those of the live fingerprint, of every open stream and of every other job |
| Http2Conn.Serve | internal/capture/http2.go:188-255 | the loop takes frames up to GOAWAY or a rejected frame and ends in the fold of those, with one owner for every object; what the objects of each job show at the end is what it was handed |
| Upgrade.AltSvcOffersH3 | internal/upstream/http3.go:95-109 | the nested scan answers whether some comma-separated alternative has identifier h3 or h3-* |
| Upgrade.OffersWhenListed | internal/upstream/http3.go:95-109 | a value that joins alternatives offers h3 if and only if one of them does |
| Upgrade.IdentifierReads | internal/upstream/http3.go:97-102 | the identifier of an alternative, whatever white space and quotes surround it and whatever follows the equals sign |
| Upgrade.PortOffersH3 | internal/upstream/http3.go:95-109 | the value browsers meet, with a port and an age, offers h3 |
| Upgrade.ClearOffersNothing | internal/upstream/http3.go:95-109 | the value that withdraws all alternatives offers nothing |
| Upgrade.SameFamilyWhoeverWins | internal/proxy/proxy.go:168-175 | if the first header block carries pseudo-headers, whichever stream wins once.Do the browser family is the same |
| Upgrade.OneFamilyForAll | internal/upstream/upstream.go:293-298 | all jobs name one family if and only if some block up to the first dispatching frame has pseudo-headers or the first order up to the last one is not Firefox's |
| Upgrade.OneMirrorForAll | internal/proxy/proxy.go:168-175 | and that is exactly when the family the mirror is built for is the same on every schedule of the handlers; any job can be the one that builds it |
| Upgrade.WinnerMattersAfterBareBlock | internal/upstream/upstream.go:296 | an input where it differs |
| Upgrade.RunInv | internal/upstream/upstream.go:154-195 | the invariant of every interleaving of do, observe, racingClient and once.Do |
| Upgrade.BuiltAtMostOnce | internal/upstream/upstream.go:59-67 | mirror and racing client are each built at most once; the latter, and every request through it, only after some response advertised h3 |
| Upgrade.LatchIsLastVerdict | internal/upstream/upstream.go:73-81 | the latch is the verdict of the last Alt-Svc-bearing response observed |
| Upgrade.OneClientPerRequest | internal/upstream/upstream.go:188-195 | a finished request was sent through exactly the one client it reports, or none |
| Upgrade.PlainMirrorStaysPlain | internal/upstream/upstream.go:188-195 | a mirror without upgrade state never uses a racing client |
| Upgrade.RacerIsCached | internal/upstream/upstream.go:59-67 | client or build error, once there, is what every later caller sees |
| Upgrade.H3Upgrade.WantH3 | internal/upstream/upstream.go:51-55 | the last verdict |
| Upgrade.H3Upgrade.RacingClient | internal/upstream/upstream.go:59-67 | builds on first use only and caches the outcome |
| Upgrade.H3Upgrade.Observe | internal/upstream/upstream.go:73-81 | only a response with Alt-Svc moves the latch |
| Upgrade.WantIsStep | internal/upstream/upstream.go:51-55 | the method answers as the step Want does |
| Upgrade.RaceIsStep | internal/upstream/upstream.go:59-67 | the method moves the object as the step Race moves the upstream, and its result is the client the step sends through |
| Upgrade.ObserveIsStep | internal/upstream/upstream.go:73-81 | the method moves the object as the step Observe moves the upstream |
| Upgrade.H3Upgrade.Choose | internal/upstream/upstream.go:188-195 | the racing client exactly when h3 is advertised and it could be built |
| Replay.BuildRequest | internal/upstream/upstream.go:205-241 | the header map holds what it should by the names and positions of the captured headers, the order key every lowered name at its position; URL, host, body and framing as the mirror sends them |
| Replay.HeaderMapIs | internal/upstream/upstream.go:228-236 | each exact-cased name maps to its values in captured order, transport-framed names to none |
| Replay.NoHeaderIsLost | internal/upstream/upstream.go:228-236 | stored values and transport-framed headers together count up to the captured list |
| Replay.HeaderMapStores | internal/upstream/upstream.go:228-257 | a captured name is a key if and only if it is not Host or Transfer-Encoding in any casing, nor, on h1, Content-Length; a key holds that name's values in captured order; the stored values and the headers so left out add up to the captured list |
| Replay.FramedIsLeftOut | internal/upstream/upstream.go:243-257 | which names those are, character by character |
| Replay.ReplayIsFaithful | internal/upstream/upstream.go:197-236 | walking the order key rebuilds the captured list minus framed headers, in whatever order the writer takes names that differ in casing only, if and only if there are no such names and equal names stand together; every header keeps its position in the key |
| Replay.InterleavedIsRegrouped | internal/upstream/upstream.go:228-236 | an input where it does not: a name on both sides of another |
| Replay.DistinctNamesAreReplayed | internal/upstream/upstream.go:197-236 | in particular when lower-cased names are distinct |
| Har.NormIsIdempotent | internal/store/query.go:217-229 | the form entries are read back in is stable, and moving sessions only renames |
| Har.NormIsExact | internal/store/query.go:217-229 | an entry is what another reads back as if and only if every column and every list is the same, lists are not nil, an empty parameter list is nil, and the extension, if it carries anything, names the row's session |
| EntryRows.RowsReassemble | internal/store/store.go:142-190 | all columns and child lists of an entry, scanned back, give its normal form |
| EntryRows.LebedevSurvives | internal/store/query.go:217-229 | the extension survives unless it carries nothing |
| EntryRows.CookiesRoundTrip | internal/store/query.go:282-300 | optional booleans survive as nullable integers |
| EntryRows.RelabelledRow | internal/store/sessions.go:86 | changing the session column changes the entry read back only in the name its extension carries |
| EntryRows.LogRoundTrip | internal/store/store.go:98-120 | a log read back has version 1.3 for none and no browser for an empty one |
| Tables.OrderIsRestored | internal/store/query.go:265-279 | however the rows of a child list are stored, reading them by seq gives back the list |
| Tables.SelectRows | internal/store/query.go:265-279 | exactly the rows of the entry and kind, each once, in order of seq |
| Tables.InsertLoop | internal/store/store.go:227-267 | the indexed insert loop writes the list numbered from 0, or stops at the failing statement |
| Tables.InsertAllRows | internal/store/store.go:227-267 | after it the list is numbered 0, 1, … without gap or repetition and no other row has changed |
| Tables.InsertAllElsewhere | internal/store/store.go:227-267 | other entries and kinds read as before |
| Tables.DeleteInRows | internal/store/sessions.go:46-52 | deleting by a set of ids empties exactly those entries' lists |
| StoreDb.InsertRepresents | internal/store/store.go:142-210 | inserting under a fresh id appends one entry to what the tables represent, keeps every other, and orphans nothing |
| StoreDb.DeleteRepresents | internal/store/sessions.go:41-62 | deleting a session removes exactly its entries with all child rows |
| StoreDb.SessionIdsAre | internal/store/sessions.go:47 | the subquery selects an id if and only if its entry belongs to the session |
| StoreDb.RenameRepresents | internal/store/sessions.go:78-94 | renaming relabels rows in place: ids, order and child rows stay |
| Sql.Rebind | internal/store/schema.go:34-50 | SQLite text is kept; for PostgreSQL the placeholders become $1, $2, … in order |
| Sql.RebindKeepsMeaning | internal/store/schema.go:34-50 | the rebound text lexes to the same characters and placeholders if and only if no ? or $ in it is followed by a digit |
| Sql.TailRoundTrip | internal/store/query.go:68-81 | the WHERE, ORDER BY, LIMIT and OFFSET text is parsed back to the same clauses, except SQLite's bare OFFSET, which is a syntax error |
| Glob.GlobToLike | internal/store/query.go:354-368 | the builder loop writes the pattern of the glob |
| Glob.LikeMeansGlob | internal/store/query.go:354-368 | LIKE with escape \ of the pattern holds exactly when the glob matches, for any character equivalence |
| Glob.PatternIsWellFormed | internal/store/query.go:354-368 | no escape character is left dangling |
| Glob.LiteralMatches | internal/store/query.go:354-368 | without a star a glob matches exactly the strings of its length that agree character by character |
| Glob.StarIsAnyRun | internal/store/query.go:21 | * matches exactly any run of characters |
| Queries.Where | internal/store/query.go:37-64 | clauses and arguments of exactly the non-zero fields, in order |
| Queries.PageText | internal/store/query.go:68-80 | order, then LIMIT and OFFSET with their arguments where they are positive |
| Queries.ListMeansQuery | internal/store/query.go:67-81 | for every query, dialect, LIKE equivalence and table, running the compiled, rebound statement with its positional arguments returns the direct filter in the requested order and page, and an error exactly for SQLite with an offset and no limit |
| Queries.BareOffsetFails | internal/store/query.go:73-80 | one such query: SQLite refuses what PostgreSQL answers |
| Queries.ConditionsMeanQuery | internal/store/query.go:37-64 | the conditions bound to their arguments keep exactly the rows the query selects |
| Queries.FiltersMeanQuery | internal/store/query.go:37-64 | the filters built from non-zero fields hold of a row exactly when the query selects it, with the URL glob matched as a glob |
| Queries.CountMeansQuery | internal/store/query.go:111-116 | the compiled count keeps the same rows |
| Queries.CountIsUnpagedLength | internal/store/query.go:110-116 | Count is the length of the listing without limit and offset |
| Queries.PagesConcatenate | internal/store/query.go:73-80 | consecutive pages of any positive size concatenate to the whole listing from any offset |
| Listing.WantedOfItems | internal/store/query.go:87-106 | the rows selected are those of the entries the direct filter keeps, in the same order and page |
| Listing.StatementLists | internal/store/query.go:56-86 | the executed statement returns exactly the selected rows that have the right number of selected rows before them, ids strictly falling unless ascending order is asked for, or the bare OFFSET error |
| Paging.PagedIsListing | internal/store/query.go:66-86 | filtering, turning round and cutting to a page amounts to selection, strict order and rank |
| Paging.WholeListing | internal/store/query.go:66-86 | without limit and offset exactly the selected are listed |
| Paging.OneListing | internal/store/query.go:66-86 | order and membership leave only one sequence |
| Lists.ReverseAt | internal/store/query.go:69-72 | reversing, by position |
| Listing.OneOrder | internal/store/query.go:69-72 | a table has one order by id |
| SqlStore.InsertEntry | internal/store/store.go:142-210 | the statements of one insert, or a failure exactly when fewer succeed |
| SqlStore.Store.constructor | internal/store/store.go:50-66 | a new store is an empty book |
| SqlStore.Store.Insert | internal/store/store.go:126-140 | all of the entry in normal form under an id never used before, or nothing at all |
| SqlStore.Store.List | internal/store/query.go:67-108 | exactly the entries the query selects whose rank is on its page, each whole, greatest id first unless ascending, or the bare OFFSET error |
| SqlStore.Store.Count | internal/store/query.go:111-116 | the number of entries the query selects |
| SqlStore.Store.Get | internal/store/query.go:119-129 | the one entry with that id, or none if there is none |
| SqlStore.Store.GetLog | internal/store/query.go:151-168 | the stored log, or version 1.3 and nothing else |
| SqlStore.Store.HasSession | internal/store/sessions.go:98-105 | true exactly when the session has entries |
| SqlStore.Store.PutLog | internal/store/store.go:98-120 | one upsert; entries untouched |
| SqlStore.Store.DeleteSession | internal/store/sessions.go:41-62 | removes the session's entries and log, or nothing |
| SqlStore.Store.IsTaken | internal/store/sessions.go:70-76 | true exactly when some entry is under the new name, or, for the empty name, anywhere |
| SqlStore.Store.MoveSession | internal/store/sessions.go:77-94 | every row of the old name and its log move, or nothing does |
| SqlStore.Store.RenameSession | internal/store/sessions.go:66-95 | nothing for the same name, refused exactly when the count finds entries, otherwise every row moves; on its own, `RenameRace.RenameDuring` has other writers in between |
| SqlStore.LoadChildren | internal/store/query.go:233-263 | each list by its own query; parameters only with post data |
| StoreBook.ListAfterInsert | internal/store/store.go:126-140 | one session's list grows by the entry, the others stay |
| StoreBook.ListAfterDelete | internal/store/sessions.go:38-40 | one session's list becomes empty, the others stay |
| StoreBook.ListAfterRename | internal/store/sessions.go:64-65 | one list moves whole to a name that had none, the others stay |
| StoreBook.BookAfterRename | internal/store/sessions.go:66-95 | the tables' rename is the book's rename |
| StoreBook.RefusedWhenCounted | internal/store/sessions.go:70-77 | the check before the transaction refuses exactly when the new name has entries; for the empty name, when any session has |
| StoreBook.EmptyNameIsRefused | internal/store/sessions.go:70-77 | a book with one entry where renaming to the free empty name is refused |
| StoreRun.Replay | internal/store/sessions.go:41-95 | over every run of inserts, log writes, deletes and renames, each possibly failing at any statement, the tables refine a map from session to ordered (id, entry) lists; a rename is refused exactly when the new name has entries, or, for the empty name, when any session has; ids are never reused |
| RenameRace.RenameDuring | internal/store/sessions.go:66-95 | a rename with any writes of others between its count and its transaction, any of them failing: refused by what was there at the count; otherwise the transaction leaves the old name empty, loses no entry, touches no third session, and the new name holds the old list and no more if and only if it is still free then; after inserts and log writes alone, if and only if none of them stored an entry under it |
| RenameRace.TransactionMerges | internal/store/sessions.go:86 | the transaction merges the two lists in id order, whatever they hold |
| RenameRace.MovesWhenFree | internal/store/sessions.go:64-65 | it moves the old list whole and adds nothing to it if and only if the new name is free at the transaction |
| RenameRace.FreeUntilNamed | internal/store/sessions.go:70-77 | over any run of inserts and log writes by others a name stays free if and only if it was and no insert that succeeded names it |
| RenameRace.RecordedMeanwhile | internal/store/sessions.go:70-86 | an input where two sessions become one |
| StoreRun.OthersUntouched | internal/store/sessions.go:38-40 | a write changes no session it does not name |
| StoreRun.RenameMovesAll | internal/store/sessions.go:64-65 | the whole list is carried over in order with its ids and the old name is left empty |
| Transfer.Save | internal/repl/repl.go:169-199 | success makes the durable session equal to the live one whatever it held before and leaves every other session alone; a failure leaves a prefix or the old copy; nothing happens for an empty session |
| Transfer.InsertEntries | internal/store/hario.go:62-67 | inserts in order up to the first failure and reports how many |
| Transfer.Export | internal/store/hario.go:15-47 | the selected entries in insertion order and the session's log with lebedev as creator where it names none |
| Transfer.Import | internal/store/hario.go:54-68 | the document's entries are appended in order, in normal form, up to the first failure |
| Transfer.Transfer | internal/store/hario.go:15-68 | export then import into an empty session preserves the list but for the session name in the extension, and exactly under the same name |
| Transfer.NormOnlyRenames | internal/store/query.go:217-229 | that name is all that differs |
| Transfer.SessionIsNormal | internal/store/query.go:178-215 | what is read from a session is already in normal form, so storing it again is exact |
| Http1.SelfDelimiting | internal/capture/capture.go:92-125 | unless input ends inside a trailer, the request depends only on the bytes consumed, whatever follows |
| Http1.EofInTrailerSwallows | internal/capture/capture.go:207-215 | where it does end there, more bytes on that line are swallowed without a change: the exception is exact |
| Http1.BodyIsConsumed | internal/capture/capture.go:184-219 | the same for the body alone |
| Http1Wire.MessageParses | internal/capture/capture.go:95-182 | any well-formed request, with any text after it, is read back exactly: header order, casing, duplicates, values, body |
| Http1Wire.BodyParses | internal/capture/capture.go:184-219 | any body in any split into chunks, any spelling of sizes, extensions and trailers, whatever Content-Length says, is read back and the reader stands right behind it |
| Http1Wire.PipelineParses | internal/proxy/proxy.go:147-152 | looping the reader over any pipeline of well-formed requests returns exactly those requests |
| Http1Wire.ParseConsumes | internal/capture/capture.go:92-95 | a request always takes at least one byte, so the loop ends |
| Http1Shows.MessageIsRead | internal/capture/capture.go:92-182 | for any well-formed request, with any text after it, part by part: method, target and protocol are its own words, each header line gives its name and value in order, the authority is the first Host, the body its data in order, and it is chunked if and only if so framed |
| Http1Shows.PipelineIsRead | internal/proxy/proxy.go:147-152 | the same of every request of a pipeline, one for one, and then what follows |
| Http1Shows.RequestIsAhead | internal/capture/capture.go:95-103 | whatever the text, a request that is read stands at its beginning: method, target, protocol, blanks between them |
| Http1Shows.RequestLineMeans | internal/capture/capture.go:156-162 | a line is a request line if and only if it has two blanks; the first two separate its words |
| Http1Shows.HeaderLineMeans | internal/capture/capture.go:171-178 | a line is a header line if and only if it has a colon; the first one separates name and value, blanks before the value dropped |
| Http1Shows.AtoiMeans | internal/capture/capture.go:221-232 | a count is read if and only if digits, with a sign or without, spell it in 64 bits |
| Http1Framing.AnySplitIsRead | internal/capture/capture.go:184-219 | for any body, any split into non-empty chunks and any trailer lines, a request some Transfer-Encoding header calls chunked gives back the body and leaves the reader at the next request |
| Http1Framing.SizedIsGood | internal/capture/capture.go:221-232 | any non-empty body behind its own length in decimal, blanks around it or not, is well framed if no Transfer-Encoding header says chunked; later Content-Length headers do not matter |
| Http1Framing.FirstLengthDecides | internal/capture/capture.go:221-232 | the first Content-Length header alone decides |
| Http1Framing.ChunkedWhenMentioned | internal/capture/capture.go:234-242 | a request is chunked exactly when some Transfer-Encoding header mentions it |
| Http1Framing.ContainsWhenOccurs | internal/capture/capture.go:237 | mentioning is occurring as a substring |
| Http1Framing.AuthorityIsFirstHost | internal/capture/capture.go:127-134 | the first header of a name in any casing, or empty if there is none |
| Http1Reader.BufReader.ReadString | internal/capture/capture.go:148-154 | the first line and its newline, or the end of input |
| Http1Reader.ReadHeaders | internal/capture/capture.go:164-182 | the header loop computes the grammar's header list |
| Http1Reader.ReadChunks | internal/capture/capture.go:203 | the chunk loop computes the grammar's chunk data |
| Http1Reader.ReadChunked | internal/capture/capture.go:202-219 | chunks, then trailers up to a blank line or the end of input |
| Http1Reader.ReadBody | internal/capture/capture.go:184-197 | chunked framing first, then the first Content-Length, otherwise no body |
| Http1Reader.Read | internal/capture/capture.go:95-125 | one request, the reader left right behind it; a well-formed message is read as its own parts, and any request read is the words the text begins with |
| Http1Reader.ServeH1 | internal/proxy/proxy.go:147-152 | the keep-alive loop reads exactly the requests of the grammar up to the first failure; on a pipeline, each message's own parts in order |
| ClientHello.BareRoundTrip | internal/upstream/fingerprint_test.go:46-97 | parsing any serialised ClientHello, with anything behind it, recovers version, ciphers, extension types in order and the decoded vectors |
| HelloShows.HelloIsRead | internal/upstream/fingerprint_test.go:58-138 | any hello a client can write, with anything behind it, part by part: version, ciphers, the code point of every extension in order, SNI if and only if one is there, each list that of the last extension of its kind, point formats of all in order |
| HelloShows.ExtensionBytes | internal/upstream/fingerprint_test.go:103-115 | an extension is written as its code point and length, most significant octet first, and its contents |
| ClientHello.RecordRoundTrip | internal/upstream/fingerprint_test.go:49-55 | and so does parsing it inside a TLS record |
| ClientHello.ExtsBack | internal/upstream/fingerprint_test.go:102-138 | the extension walk decodes exactly the extensions written; repeated ones override, point formats accumulate |
| ClientHello.TypesInOrder | internal/upstream/fingerprint_test.go:115 | extension types are recorded in wire order |
| ClientHelloReader.Reader.Take | internal/upstream/fingerprint_test.go:325-332 | the first n bytes, or nothing and no advance |
| ClientHelloReader.Reader.Vec | internal/upstream/fingerprint_test.go:350-369 | the body behind a one- or two-byte length |
| ClientHelloReader.ReadU16Vec | internal/upstream/fingerprint_test.go:279-289 | pairs of bytes; an odd one is dropped |
| ClientHelloReader.ReadAlpn | internal/upstream/fingerprint_test.go:291-307 | names up to the first that does not fit |
| ClientHelloReader.ParseExtensions | internal/upstream/fingerprint_test.go:102-138 | the loop computes the specified walk, error by error |
| ClientHelloReader.ParseClientHello | internal/upstream/fingerprint_test.go:46-97 | the parser computes the specified result, error by error |
| Fingerprints.FilterGrease | internal/upstream/fingerprint_test.go:245-253 | the values that are not GREASE, in order |
| Fingerprints.GreaseValues | internal/upstream/fingerprint_test.go:38-41 | GREASE is exactly 0x0a0a, 0x1a1a, …, 0xfafa |
| Fingerprints.Ja4Version | internal/upstream/fingerprint_test.go:189-211 | the loop finds the version text of the largest version |
| Fingerprints.BestIsLargest | internal/upstream/fingerprint_test.go:189-198 | that is the largest of the legacy version and the offered non-GREASE versions |
| Fingerprints.ExtensionsForHash | internal/upstream/fingerprint_test.go:162-168 | extensions without SNI and ALPN, in order |
| Fingerprints.Ja4IsCanonical | internal/upstream/fingerprint_test.go:157-187 | JA4 is equal for hellos that differ only in the order of ciphers, extensions and versions and in GREASE, for any hash |
| Fingerprints.Ja4SurvivesPermutation | internal/upstream/fingerprint_test.go:173-179 | any permutation of those three lists |
| Fingerprints.Ja4SurvivesGrease | internal/upstream/fingerprint_test.go:158-161 | any GREASE value inserted or removed anywhere in the four lists |
| Fingerprints.CipherTextIsExact | internal/upstream/fingerprint_test.go:173-175 | the hashed cipher text is equal if and only if the bags of non-GREASE ciphers are |
| Fingerprints.ExtensionTextIsExact | internal/upstream/fingerprint_test.go:177-184 | the hashed extension text is equal if and only if the bags of hashed extensions and the lists of signature algorithms are |
| Fingerprints.SortedIsUnique | internal/upstream/fingerprint_test.go:173-178 | a sorted list is determined by its contents |
| Ja4Shows.Ja4IsExact | internal/upstream/fingerprint_test.go:157-187 | two hellos have one JA4 under every hash if and only if version text, SNI, ALPN characters, the extension count as shown, the bags of non-GREASE ciphers and of hashed extensions, and the non-GREASE signature algorithms in order agree |
| Ja4Layout.Ja4IsLaidOut | internal/upstream/fingerprint_test.go:157-243 | character by character: t, the version of the largest offer, d or i, two digits of either count up to 99, first and last octet of the first protocol, then the hashes of the sorted hexadecimal ciphers and of the sorted extensions but SNI and ALPN with the signature algorithms in wire order, twelve zeros for an empty text; all without GREASE |
| Ja4Layout.Ja3IsLaidOut | internal/upstream/fingerprint_test.go:143-155 | version, ciphers, extensions, groups and point formats in decimal, dashes inside and commas between, in wire order, the first three lists without GREASE |
| HelloOrder.OrderIsUnseen | internal/upstream/fingerprint_test.go:46-187 | on the bytes of any hello a client can write: every order of its extensions, with anything behind, gives one JA4 under every hash if and only if extensions of one kind (versions, signature algorithms, ALPN) show the same |
| HelloOrder.Ja4IgnoresOrder | internal/upstream/fingerprint_test.go:157-187 | the same on decoded hellos |
| HelloOrder.Ja4SurvivesReordering | internal/upstream/fingerprint_test.go:46-187 | from the bytes: under that condition a hello with its extensions in another order parses and has the same JA4, whatever follows it and whatever the hash |
| HelloOrder.ListsIgnoreOrder | internal/upstream/fingerprint_test.go:102-138 | every order decodes to the same lists if and only if extensions of one kind are equal |
| HelloOrder.OrderOfVersionsMatters | internal/upstream/fingerprint_test.go:46-211 | two hellos, as bytes, that differ in the order of two version extensions only and have two fingerprints under every hash |
| HelloOrder.DifferenceUnseen | internal/upstream/fingerprint_test.go:189-211 | two version lists that differ, decode differently in the two orders and show the same |
| Fingerprints.Ja3IsExact | internal/upstream/fingerprint_test.go:143-152 | JA3 strings are equal if and only if version, non-GREASE ciphers, extensions and groups in order, and point formats are |
| Fingerprints.Ja3SurvivesGrease | internal/upstream/fingerprint_test.go:146-148 | GREASE in ciphers, extensions or groups is invisible to JA3 |

## Left out

- Replay.ReplayIsFaithful: the ordered writer is foreign code; it is taken to write each stored name once, where its lowercased name first stands in the order key, and names that differ in casing only in any order.
- Http2Theorems.OpenedOnceServedOnce: is about streams with one HEADERS block; a second block on an open id replaces the stream object, which the transitions model and `Http2Conn.OnHeaders` states.
- Http2Theorems.DecoderFollowsEncoder: HPACK is modelled at the level of representations and table states; bit coding, table size updates and the client's SETTINGS_HEADER_TABLE_SIZE are not.
- Http2Theorems.SomeStepIsEnabled: every write is taken to return, with or without an error; a client that stops reading blocks whoever holds the write lock, and with it the drain.
- Http2Theorems.HistoryIsPermanent: jobs are values in the step system; that later iterations write to nothing a job was given is `Http2Conn.HandleFrame`.
- Slices.Append: a slice starts at the front of its array, the only kind this code keeps.
- Upgrade.AltSvcOffersH3: white space is ASCII; `strings.TrimSpace` also trims the rest of Unicode's.
- SqlStore.Store.RenameSession: is the call on its own; writes by others between its check and its transaction are in `RenameRace.RenameDuring`.
- RenameRace.RenameDuring: each write of another writer is one whole call; the transactions themselves are taken to be isolated.
- Transfer.Save: is about a non-empty session id, the only kind the command loop creates; listing the live store is taken not to fail.
- Http1Wire.BodyParses: the standard library's limits on the length of a chunk-size line and on the share of framing octets are not modelled, nor the memory a huge Content-Length asks for.
- Http1Framing.ChunkedWhenMentioned: case folding is ASCII; the two non-ASCII letters that fold to `s` and `k` are not modelled.
- Http1Framing.AuthorityIsFirstHost: case folding is ASCII, in the same way.
- Http1Reader.ReadHeaders: case folding and trimming are ASCII; names with non-ASCII letters that fold to ASCII ones are not modelled.
- EntryRows.RowsReassemble: columns hold unbounded integers and exact reals; the 64-bit range and NaN are not modelled.
- TLS handshakes, certificates, utls specs, QUIC racing and the HTTP clients themselves: foreign code, taken as opaque.
- The HTTP/2 frame encoding, the connection preface, trailing header blocks, response header blocks of more than one frame and outbound flow control, which the code does not do either.
- The SELECT list in front of the WHERE clause, real SQL engines, connection pools, schema migration, and the `pages` table, which nothing writes.
- `Sessions`, `SessionInfos`, `ListWhere` and `Hydrate`: thin queries that would only add easy members.
- Failures of reads: a query that parses is taken to return its rows.
- Deriving an entry from a transaction, the command loop, printing and listeners: input, output and thin calls into the standard library.
- The JSON text of HAR documents: a document is a value.
