# Verified models of httpcore2 and httpx2

This project models the stateful core of the HTTP client and proves what it keeps. Where the program has an `_async`
file and a generated `_sync` twin, it is modelled once; everything between two awaits is one step.

| files | program |
|---|---|
| `ConnectionPool`, `PoolPass`, `PoolTheorems`, `Pool` | one scheduling pass of the connection pool: as a function, what it guarantees, and the in-place code that computes it |
| `Http11`, `PoolRuns`, `PoolStranded` | the HTTP/1.1 connection states, whole runs of a pool of such connections, and the connections such runs leave behind |
| `Http2`, `Http2Streams`, `Http2Runs` | HTTP/2 stream admission and event queues: steps, the connection object, and whole runs |
| `Http2Flow` | sending bodies under flow control |
| `Cookies` | the indexed cookie jar beside a jar that scans everything |
| `Lines`, `Chunks` | incremental line splitting and re-chunking |
| `Sse`, `SseEvents`, `SseFormat` | server-sent events, and the format the HTML standard describes |
| `WebSocket` | reassembly of WebSocket messages |
| `UrlPath`, `UrlDots`, `UrlQuote` | dot segments, the rewriting of RFC 3986, and percent-encoding |
| `SendLoops` | the redirect and authentication loops |
| `Lists`, `Text` | shared facts about sequences |

Objects the program updates in place are classes here, and each method is tied to a function of the old state; the
theorems are about those functions and about runs of them. Clocks, sockets, servers, hooks, cookie policies and the
libraries `h2`, `h11` and `wsproto` appear as parameters or as arbitrary steps, so a theorem holds whatever they do.

Findings about the code that the proofs make precise:

- A request cancelled after its connection is established and before it starts leaves a connection in state NEW that
  the pool never drops, closes or assigns again. State NEW is the exact condition: every other connection that no
  request holds can still be released (`PoolStranded.StrandedExactly`). Enough such cancellations take up the whole
  pool, and then no later request is served (`PoolStranded.PoolDies`, `PoolStranded.LaterRequestsStarve`).
- The comment at `src/httpcore2/httpcore2/_async/connection_pool.py:313-318` reads as if assigned
  connections were protected; idle multiplexing ones are not
  (`PoolTheorems.IdleMultiplexingEvicted`, an if-and-only-if). For all others they are
  (`PoolTheorems.ClosedIsUnassigned`).
- `_response_closed` of HTTP/1.1 does not look at the state, so a connection closed under a finished response becomes
  IDLE again (`Http11.CloseUnderResponse`), exactly if both sides are done; whole runs therefore exclude closing the pool.
- `normalize_path` follows section 5.2.4 of RFC 3986 but for two "/": the one a final dot segment leaves, and, in
  rootless paths such as that of "mailto:a/../b", the one in front once the first segment has been removed and others
  stand. `UrlDots.AgreesWithRfc` says for every path which of them is missing.
- The event stream decoder differs from the HTML standard in four ways. A final CR yields one blank line more, which
  dispatches an event in progress; an event without data is dispatched; together these are the exact condition for the
  events (`SseFormat.FormatExactly`). A retry value is whatever `int` takes (`SseFormat.TimesExactly`), and a byte order
  mark is not dropped (`SseFormat.MarkedStream`).
- If a waiter for a stream is cancelled with a permit in hand while permits are owed, the semaphore takes the permit
  back past the deficit. The limit is still kept, but a permit is free while one is owed (`Http2Runs.SmoothExactly`,
  `Http2Runs.FreeWhileOwed`), and a later request can be sent back although it is within the limit, exactly while as
  many are free as are owed (`Http2Runs.AdmittedWithinLimit`, `Http2Runs.SentBackWithinLimit`).
- `send` leaves no response open but the one returned, unless taking a reply over from the transport raises, which
  happens outside the guarded part (`src/httpx2/httpx2/_client.py:1037` with `:1070-1076`), say in the cookie jar, or
  closing the flow raises (`:1022`): then exactly the last response stays open (`SendLoops.Client.Send`).
- The `max_redirects` bound is on a shared history, so an authentication flow makes it quadratic, and that is tight
  (`SendLoops.RequestsBounded`, `SendLoops.BoundIsReached`).

## Model

| member | source | states |
|---|---|---|
| Pool.Pool.constructor | src/httpcore2/httpcore2/_async/connection_pool.py:95-114 | an empty pool; no limit given means the largest machine size, and the keep-alive limit is the smaller of the two limits |
| Pool.SweepConnections | src/httpcore2/httpcore2/_async/connection_pool.py:271-289 | one sweep keeps and closes exactly the connections the clean-up rule names, in pool order |
| Pool.CloseSurplus | src/httpcore2/httpcore2/_async/connection_pool.py:294-306 | the idle unreserved connections above the keep-alive limit are given up, earliest first, and no others |
| Pool.CollectAvailable | src/httpcore2/httpcore2/_async/connection_pool.py:319-324 | the snapshot of connections on offer excludes idle reserved ones that cannot multiplex |
| Pool.Pool.AssignRequestsToConnections | src/httpcore2/httpcore2/_async/connection_pool.py:255-369 | the pass on the pool's own lists, with index deletion and the early exit, equals the full scan of the queue `Pass`, about which the theorems below are proved |
| Pool.Pool.ServeRequest | src/httpcore2/httpcore2/_async/connection_pool.py:336-367 | the three cases for one queued request: reuse, create, evict and create |
| Pool.Pool.FindServing | src/httpcore2/httpcore2/_async/connection_pool.py:344-345 | the first connection on offer that serves the origin, or none |
| ConnectionPool.TrimCount | src/httpcore2/httpcore2/_async/connection_pool.py:294-306 | spare connections kept and given up add up; fewer than the surplus go only if none is left |
| PoolPass.StopsEarly | src/httpcore2/httpcore2/_async/connection_pool.py:327-333 | stopping once nothing is on offer and nothing may be opened gives the result of scanning the whole queue |
| PoolPass.ScanExclusive | src/httpcore2/httpcore2/_async/connection_pool.py:331-367 | through the scan, no request refers to a single-use connection that is still on offer or being closed, and none becomes shared |
| PoolTheorems.PassAssigns | src/httpcore2/httpcore2/_async/connection_pool.py:331-367 | requests keep their place, origin and connection; a new assignment serves the origin asked for, on a connection that was available or is new |
| PoolTheorems.PassPartition | src/httpcore2/httpcore2/_async/connection_pool.py:265-308 | every old connection is dropped, closed or kept, never two of these; what else is listed is new; nothing is listed or closed twice |
| PoolTheorems.PassCapacity | src/httpcore2/httpcore2/_async/connection_pool.py:325-367 | a pass never takes the pool above its limit |
| PoolTheorems.PassExclusive | src/httpcore2/httpcore2/_async/connection_pool.py:310-324 | two requests share a connection that can take only one of them only if they already did before the pass |
| PoolTheorems.PassReservation | src/httpcore2/httpcore2/_async/connection_pool.py:273-276 | a reserved idle connection that cannot multiplex and is not closed stays in the pool |
| PoolTheorems.ClosedIsUnassigned | src/httpcore2/httpcore2/_async/connection_pool.py:313-324 | a connection a pass closes is held by a request only if it is idle, available and multiplexing |
| PoolTheorems.PassClosesOnlyUnused | src/httpcore2/httpcore2/_async/connection_pool.py:286-306 | a pass closes nothing but expired and idle connections, and a reserved one only if it is idle, available and multiplexing |
| PoolTheorems.PassWorkConserving | src/httpcore2/httpcore2/_async/connection_pool.py:338-367 | with a request left queued the pool is at its limit, and no connection still on offer is idle or serves its origin |
| PoolTheorems.PassReusesFirst | src/httpcore2/httpcore2/_async/connection_pool.py:338-358 | a connection is opened for a request only if nothing left on offer serves its origin |
| PoolTheorems.PassEvictsLast | src/httpcore2/httpcore2/_async/connection_pool.py:353-367 | beyond expiry and surplus, only idle available connections of a full pool are closed |
| PoolTheorems.PassFair | src/httpcore2/httpcore2/_async/connection_pool.py:331-367 | a later request is not assigned ahead of an earlier one of the same origin that stays queued |
| PoolTheorems.PassKeepalive | src/httpcore2/httpcore2/_async/connection_pool.py:291-306 | after a pass at most `max_keepalive_connections` connections are idle without a request |
| PoolTheorems.IdleMultiplexingEvicted | src/httpcore2/httpcore2/_async/connection_pool.py:313-367 | the limit of the protection: in a pool that is full after clean-up, with a queued request that no available connection serves, an assigned, available connection that is the only idle one is closed exactly if it multiplexes |
| PoolTheorems.FullPoolCloses | src/httpcore2/httpcore2/_async/connection_pool.py:325-367 | a pool that is full after clean-up opens a connection only in exchange for an idle one |
| PoolTheorems.EvictionExample | src/httpcore2/httpcore2/_async/connection_pool.py:319-324 | such a pool, spelled out |
| Http11.HttpConnection.HandleRequest | src/httpcore2/httpcore2/_async/http11.py:63-73 | a request is accepted exactly in NEW or IDLE; refusal changes nothing |
| Http11.HttpConnection.ResponseClosed | src/httpcore2/httpcore2/_async/http11.py:219-228 | IDLE with a new expiry if both sides are done, CLOSED otherwise, whatever the state was before: a close in between is undone |
| Http11.HttpConnection.Connected | src/httpcore2/httpcore2/_async/connection.py:69-98 | the outcome of the first connection attempt |
| Http11.HttpConnection.Query | src/httpcore2/httpcore2/_async/connection.py:161-188 | whatever clock and socket say, the answers are those the pool theorems assume of a direct HTTP/1.1 connection |
| Http11.CloseUnderResponse | src/httpcore2/httpcore2/_async/http11.py:219-236 | CLOSED is not final: a connection closed under a finished exchange becomes idle again |
| PoolRuns.StepKeepsInv | src/httpcore2/httpcore2/_async/connection_pool.py:207-243 | arrivals, passes, connects, starts, responses, failures, cancellations and removals all keep the pool invariant |
| PoolRuns.StepKeepsActive | src/httpcore2/httpcore2/_async/http11.py:67-73 | every step keeps that a connection is active only while a request that started on it is in flight |
| PoolRuns.Run | src/httpcore2/httpcore2/_async/connection_pool.py:207-369 | every state reached from the empty pool, by any steps in any order, satisfies both invariants |
| PoolRuns.AtMostOneRequestPerConnection | src/httpcore2/httpcore2/_async/connection_pool.py:271-324 | in every reachable state no two listed requests have the same connection |
| PoolRuns.NeverRefused | src/httpcore2/httpcore2/_async/connection_pool.py:220-233 | a request that starts on its assigned connection finds it NEW or IDLE: `ConnectionNotAvailable` never happens |
| PoolRuns.HeldConnectionsStayUsable | src/httpcore2/httpcore2/_async/connection_pool.py:268-293 | while a request waits for or uses its connection, that connection is not closed, not about to be, and serves the request's origin |
| PoolRuns.CapacityRespected | src/httpcore2/httpcore2/_async/connection_pool.py:325-367 | in every reachable state the pool respects `max_connections` |
| PoolStranded.StrandedForever | src/httpcore2/httpcore2/_async/connection_pool.py:277-289 | a connection established but never used, which no request holds, is so in every continuation of the run: nothing drops, closes or assigns it |
| PoolStranded.UnheldIsReleased | src/httpcore2/httpcore2/_async/connection_pool.py:277-289 | any other connection that no request holds is gone after a pass that finds it expired |
| PoolStranded.StrandedExactly | src/httpcore2/httpcore2/_async/connection_pool.py:277-289 | in a reachable state, a listed connection that no request holds survives every continuation if and only if it is in state NEW |
| PoolStranded.StrandedRun | src/httpcore2/httpcore2/_async/connection_pool.py:235-243 | a five-step run strands a connection: the request is cancelled after its connection is established and before it starts |
| PoolStranded.RoundStrands | src/httpcore2/httpcore2/_async/connection_pool.py:235-243 | from any reachable state without requests, with stranded connections only and room for more, these five steps strand one more |
| PoolStranded.PoolDies | src/httpcore2/httpcore2/_async/connection_pool.py:325-358 | so for every limit some run fills the pool with stranded connections |
| PoolStranded.DeadForever | src/httpcore2/httpcore2/_async/connection_pool.py:325-367 | once stranded connections take up the whole pool, they do in every continuation, and no request is given a connection any more |
| PoolStranded.LaterRequestsStarve | src/httpcore2/httpcore2/_async/connection_pool.py:325-367 | a request submitted after that stays queued as long as it is listed |
| Http2Streams.Semaphore.Release | src/httpcore2/httpcore2/_synchronization.py:160-169 | releasing past the bound is an error, so callers must show it does not happen |
| Http2Streams.Http2Connection.constructor | src/httpcore2/httpcore2/_async/http2.py:102-115 | one permit is free until the server announces its own limit |
| Http2Streams.Http2Connection.EnterRequest | src/httpcore2/httpcore2/_async/http2.py:83-89 | only a closed connection refuses; any other becomes active, with its keep-alive clock stopped |
| Http2Streams.Http2Connection.AcquirePermit | src/httpcore2/httpcore2/_async/http2.py:117-119 | a permit is to be had exactly when one is free; with exact counters, exactly when fewer are held than the limit |
| Http2Streams.Http2Connection.CancelWaiter | src/httpcore2/httpcore2/_async/http2.py:119 | a waiter cancelled with a permit in hand: the semaphore takes the permit back within its bound, whatever is owed |
| Http2Streams.Http2Connection.PassDeficitCheck | src/httpcore2/httpcore2/_async/http2.py:120-124 | whoever is admitted is within the current limit, counting the permit held; with exact counters, whoever is within it is admitted |
| Http2Streams.Http2Connection.Register | src/httpcore2/httpcore2/_async/http2.py:126-128 | the next stream id gets an empty queue and had none |
| Http2Streams.Http2Connection.ReceiveRemoteSettingsChange | src/httpcore2/httpcore2/_async/http2.py:368-386 | moving permits one by one ends as raising or lowering the limit at once: what is owed goes first, and free permits are taken first; zero is ignored |
| Http2Streams.Http2Connection.CloseResponse | src/httpcore2/httpcore2/_async/http2.py:388-403 | closing gives the permit back if the stream is open, never releases past the bound, and starts the keep-alive clock when an active connection runs out of streams |
| Http2Streams.Http2Connection.ReceiveEvents | src/httpcore2/httpcore2/_async/http2.py:332-366 | one read applies all settings first and then hands every event to its open stream in order |
| Http2Streams.Http2Connection.ReceiveStreamEvent | src/httpcore2/httpcore2/_async/http2.py:314-330 | the event returned is the head of the queue, reading no more batches than needed; termination is reported as refusal only above the last stream id |
| Http2Streams.ReceiveKeepsStreams | src/httpcore2/httpcore2/_async/http2.py:347-366 | reading opens and closes no stream |
| Http2.CountersFollowRule | src/httpcore2/httpcore2/_async/http2.py:104-124 | exact counters are max(0, limit - held) and max(0, held - limit) |
| Http2Runs.CountersRefineRule | src/httpcore2/httpcore2/_async/http2.py:104-128 | from exact counters, each step with semaphore and deficit is the step of the plain rule that knows only the limit and who holds a permit |
| Http2Runs.StepKeepsValid | src/httpcore2/httpcore2/_async/http2.py:368-397 | every step keeps free + held = limit + deficit, and limit + deficit within the bound of the semaphore |
| Http2Runs.ExactStep | src/httpcore2/httpcore2/_async/http2.py:117-124 | a step keeps that no permit is free while some are owed, exactly unless it cancels a waiter that has a permit in hand while some are owed |
| Http2Runs.RunConn | src/httpcore2/httpcore2/_async/http2.py:104-128 | every state reached by any interleaving of entering, acquiring, cancelling, checking, opening, settings, events and closing satisfies the counting invariant |
| Http2Runs.SmoothExactly | src/httpcore2/httpcore2/_async/http2.py:117-124 | no permit is free while some are owed, all along a run, if and only if no waiter of the run is so cancelled |
| Http2Runs.FreeWhileOwed | src/httpcore2/httpcore2/_async/http2.py:117-124 | a run in which two are, and which ends with two permits free and two owed |
| Http2Runs.AdmissionInvariant | src/httpcore2/httpcore2/_async/http2.py:104-128 | in every reachable state the permits add up within the bound; after a run without such a cancellation the counters say how far the holders are below or above the limit, and without holders everything is free |
| Http2Runs.AdmittedWithinLimit | src/httpcore2/httpcore2/_async/http2.py:117-124 | in every run whoever is admitted is within the limit, the own permit included, and whoever is not gives the permit up; being within the limit is enough to be admitted if and only if no permits are owed or fewer are free than owed, which is so after a run without such a cancellation |
| Http2Runs.SentBackWithinLimit | src/httpcore2/httpcore2/_async/http2.py:117-124 | a run after which a request that is alone under a limit of one is sent back |
| Http2Runs.StepKeepsInv | src/httpcore2/httpcore2/_async/http2.py:298-405 | every step keeps, for each stream ever opened, the account of its events, acknowledgements and permit |
| Http2Runs.Run | src/httpcore2/httpcore2/_async/http2.py:298-405 | so every reachable state satisfies that account |
| Http2Runs.PermitReturnedOnce | src/httpcore2/httpcore2/_async/http2.py:388-395 | the ledger over runs: free permits, permits in transit and those of streams that have not given theirs back are the limit plus the deficit; each stream gives back at most once, and has done so exactly if it is closed |
| Http2Runs.CloseOnce | src/httpcore2/httpcore2/_async/http2.py:388-395 | a close gives back one permit, to the deficit first, if the stream is open; closing again changes neither semaphore nor deficit |
| Http2Runs.NothingLostOrReordered | src/httpcore2/httpcore2/_async/http2.py:314-330 | what the readers of an open stream were handed, followed by its queue, is what was received for it, in order |
| Http2Runs.AcknowledgedIsConsumed | src/httpcore2/httpcore2/_async/http2.py:298-312 | the bytes acknowledged are the flow-controlled length of the data events the body reader consumed |
| Http2Flow.BodyArrives | src/httpcore2/httpcore2/_async/http2.py:243-267 | under every interleaving the frames of a stream followed by what is unsent are its body; after the end of the stream the frames are the body; frames are non-empty and within both windows and the frame size |
| Http2Flow.ConnectionWindow | src/httpcore2/httpcore2/_async/http2.py:257-267 | the connection window is what was granted less what all streams sent, and is never negative |
| Http2Flow.SendIsSound | src/httpcore2/httpcore2/_async/http2.py:261-267 | sending takes neither window below zero and shortens what is unsent |
| Http2Flow.UnsentIsMeasure | src/httpcore2/httpcore2/_async/http2.py:261-267 | the unsent length falls with every frame of the stream and with nothing else |
| Http2Flow.FramesAreBounded | src/httpcore2/httpcore2/_async/http2.py:261-267 | a body goes out in at most as many frames as it has bytes |
| Http2Flow.WaitForOutgoingFlow | src/httpcore2/httpcore2/_async/http2.py:477-495 | returns the positive allowance at once if there is one, and otherwise waits over turns of the network, in which the stream is left alone; zero only if they run out |
| Http2Flow.SendStreamData | src/httpcore2/httpcore2/_async/http2.py:257-267 | a chunk goes out in order in good frames, all of it unless the network stops granting |
| Cookies.SuffixesAtDots | src/httpx2/httpx2/_cookies.py:61-74 | the dotted-suffix test accepts exactly the empty domain and the suffixes that start at or after a dot |
| Cookies.AddSuffixes | src/httpx2/httpx2/_cookies.py:68-73 | one host adds exactly the suffixes the test accepts, the least specific first |
| Cookies.MatchingDomains | src/httpx2/httpx2/_cookies.py:61-74 | the enumeration yields every domain the suffix test accepts for one of the hosts, each once, and no other: host by host, and for each host the least specific first |
| Cookies.SkippedSweep | src/httpx2/httpx2/_cookies.py:41-43 | a sweep before the cached expiry would remove nothing |
| Cookies.IndexedCookieJar.Set | src/httpx2/httpx2/_cookies.py:35-39 | as the plain jar, and the cached expiry stays a lower bound |
| Cookies.IndexedCookieJar.ClearExpiredCookies | src/httpx2/httpx2/_cookies.py:41-46 | skipped or made, the sweep leaves what a full sweep leaves; a made sweep leaves a bound that is attained |
| Cookies.IndexedCookieJar.EarliestExpiry | src/httpx2/httpx2/_cookies.py:46 | the minimum is below every stored expiry and is one of them |
| Cookies.ScanForRequest | src/httpx2/httpx2/_cookies.py:50-52 | the scan of all domains gives each cookie as often as its own domain does |
| Cookies.IndexedCookieJar.CookiesForRequest | src/httpx2/httpx2/_cookies.py:48-58 | looking up only the matching domains gives the same multiset as the scan |
| Cookies.IndexedRun | src/httpx2/httpx2/_cookies.py:16-58 | over any sequence of operations the indexed jar holds the cookies of the scanning jar and answers each request with the same multiset |
| Lines.SplitAfterBreak | src/httpx2/httpx2/_decoders.py:403-409 | text that ends in a line break splits independently of what follows, unless CR LF is cut |
| Lines.SplitInsideLine | src/httpx2/httpx2/_decoders.py:430-433 | text that ends inside a line: what follows continues its last line |
| Lines.SplitContinued | src/httpx2/httpx2/_decoders.py:424-428 | a line started earlier is continued by the first line of new text |
| Lines.ContinuedAccounts | src/httpx2/httpx2/_decoders.py:403-435 | lines returned and text kept account for the input, whatever comes next |
| Lines.LineDecoder.Decode | src/httpx2/httpx2/_decoders.py:399-435 | the same, of the method with its buffer and its CR flag |
| Lines.LineDecoder.Flush | src/httpx2/httpx2/_decoders.py:437-444 | the lines of what was kept |
| Lines.IterLines | src/httpx2/httpx2/_models.py:935-942 | however a text is cut into chunks, the lines are those `splitlines` gives for the whole |
| Chunks.Chunker.Decode | src/httpx2/httpx2/_decoders.py:309-327 | emits only full pieces; with the buffer they are the old buffer and the content, and less than a piece is kept |
| Chunks.Chunker.Flush | src/httpx2/httpx2/_decoders.py:329-333 | at most one shorter piece |
| Chunks.Split | src/httpx2/httpx2/_decoders.py:351-352 | the slices are full but for the last, none is empty, and they make up the value |
| Chunks.FullPrefix | src/httpx2/httpx2/_decoders.py:313-325 | full pieces followed by the pieces of the rest are the pieces of the whole |
| Chunks.Rechunk | src/httpx2/httpx2/_decoders.py:345-369 | however the input is cut, the output is the fixed-size split of the whole |
| Sse.NormaliseConcat | src/httpx2/httpx2/_sse.py:145 | newlines are normalised piecewise as long as no CR LF is cut in two |
| Sse.SplitConcat | src/httpx2/httpx2/_sse.py:146-154 | splits of two texts, glued at the seam, are the split of their concatenation |
| Sse.LineDecoder.Decode | src/httpx2/httpx2/_sse.py:137-154 | the lines so far and the pending text are the split of the normalised text so far |
| Sse.LineDecoder.Flush | src/httpx2/httpx2/_sse.py:156-163 | all lines of the stream are out |
| Sse.FinalCr | src/httpx2/httpx2/_sse.py:156-163 | a final CR is normalised to a newline, so the split of the text has one part more |
| SseFormat.LinesBeyondFormat | src/httpx2/httpx2/_sse.py:156-163 | the lines are those of the event stream format, with one blank line more exactly after a final CR |
| SseEvents.EventDecoder.Decode | src/httpx2/httpx2/_sse.py:69-113 | one line on the decoder's fields is one step of the reference fold |
| SseEvents.FoldConcat | src/httpx2/httpx2/_sse.py:189-193 | the fold over lines goes on where it stopped |
| SseEvents.ValueFits | src/httpx2/httpx2/_sse.py:90-94 | a field line is longer than the value taken from it |
| SseEvents.JoinedSize | src/httpx2/httpx2/_sse.py:75-80 | the joined data is one byte shorter than its lines with a newline each |
| SseEvents.FoldBounded | src/httpx2/httpx2/_sse.py:69-124 | every event dispatched under a limit has data within it, although joining adds newlines |
| SseEvents.Parser.Decode | src/httpx2/httpx2/_sse.py:182-184 | on success the events so far are the fold over the lines so far, and field bytes plus the unfinished line are within the limit |
| SseEvents.Parser.Flush | src/httpx2/httpx2/_sse.py:186-193 | events and failure are those of the fold over the whole text |
| SseEvents.Events | src/httpx2/httpx2/_sse.py:210-216 | without a limit the events depend only on the concatenated text; with one, each is within it |
| SseFormat.EventsBeyondLines | src/httpx2/httpx2/_sse.py:156-163 | after a final CR the event in progress, if there is one and no line was too large, is dispatched in addition to those of the lines of the format |
| SseFormat.MessagesHaveData | src/httpx2/httpx2/_sse.py:69-113 | the messages of the format, by its own rules, are exactly the events the decoder dispatches with data |
| SseFormat.EventsCount | src/httpx2/httpx2/_sse.py:70-85 | the decoder dispatches those and, in between, one event for each blank line that finds an event in progress without data |
| SseFormat.FormatExactly | src/httpx2/httpx2/_sse.py:69-113 | without a limit the events are the messages of the format if and only if no event without data is dispatched and no CR ends the stream inside an event |
| SseFormat.TimesExactly | src/httpx2/httpx2/_sse.py:106-111 | the reconnection times set are those of the format at every point if and only if `int` takes exactly the retry values that are all digits, each for its number |
| SseFormat.TimeIsSet | src/httpx2/httpx2/_sse.py:106-111 | the time of the event in progress changes exactly with the lines that set one, until the event is dispatched |
| SseFormat.UnfinishedEventDispatched | src/httpx2/httpx2/_sse.py:156-163 | a stream that ends after "data: value" and CR dispatches its unfinished event |
| SseFormat.EventWithoutData | src/httpx2/httpx2/_sse.py:70-85 | an event field alone dispatches an event without data, which the format drops |
| SseFormat.OddRetry | src/httpx2/httpx2/_sse.py:106-111 | a retry value that `int` takes and that is not all digits, such as "-5", sets a time and dispatches an event, where the format does neither |
| SseFormat.MarkedStream | src/httpx2/httpx2/_sse.py:93-113 | of a stream that begins with a byte order mark, the first line is ignored, where the format drops the mark only |
| WebSocket.QueuedMessages | src/httpx2/httpx2/websockets/_api.py:539-562 | the messages queued are, in order, the joined fragment groups accepted before the reader breaks off, however other events are interleaved |
| WebSocket.QueuedWithinLimit | src/httpx2/httpx2/websockets/_api.py:539-544 | no queued message exceeds the limit |
| WebSocket.NothingAfterBreak | src/httpx2/httpx2/websockets/_api.py:528-567 | after an overflow or a ping that cannot be answered nothing is queued, and the notice is the last item |
| WebSocket.InProgressMore | src/httpx2/httpx2/websockets/_api.py:545-561 | buffer and size counter are the open fragment group and its bytes |
| WebSocket.Session.HandleMessage | src/httpx2/httpx2/websockets/_api.py:539-562 | a data frame is buffered, queued whole or refused; buffer and counter are cleared together |
| WebSocket.Session.HandleEvent | src/httpx2/httpx2/websockets/_api.py:529-563 | pings are answered, a failed answer ends the reader, a close ends the session, and all but pings and pongs is queued |
| WebSocket.Session.HandleBatch | src/httpx2/httpx2/websockets/_api.py:528-563 | over a batch, queue and buffer are what the reference says; only an overflow or an unanswered ping leaves the batch early |
| WebSocket.Session.BackgroundReceive | src/httpx2/httpx2/websockets/_api.py:506-569 | the reader handles batches until one ends the session, and the queue is that of the events handled |
| UrlPath.NormalizePath | src/httpx2/httpx2/_urlparse.py:424-452 | both fast returns agree with the stack over all segments |
| UrlPath.NormalizedIsFixed | src/httpx2/httpx2/_urlparse.py:442-452 | the result has no dot segment and is a fixed point |
| UrlDots.VisitsMove | src/httpx2/httpx2/_urlparse.py:442-452 | the output buffer of the section 5.2.4 rewriting, segment by segment: what stands, with a "/" in front once a segment has been removed with nothing before it |
| UrlDots.StackVisits | src/httpx2/httpx2/_urlparse.py:443-451 | the stack of the loop, segment by segment: what stands, over an empty segment once such a one has been removed with nothing before it |
| UrlDots.AgreesWithRfc | src/httpx2/httpx2/_urlparse.py:442-452 | for every path, rootless ones included, the rewriting of section 5.2.4 of RFC 3986 equals the result, with one more "/" in front exactly if the path loses its root, and one more at the end exactly if the last segment is "." or ".." and not all segments are |
| UrlDots.AgreesExactly | src/httpx2/httpx2/_urlparse.py:442-452 | the two agree outright if and only if neither is the case |
| UrlDots.AbsoluteAgrees | src/httpx2/httpx2/_urlparse.py:442-452 | an absolute path never loses its root, so only a "/" at the end can be missing, and is exactly after a final dot segment |
| UrlDots.RootlessExample | src/httpx2/httpx2/_urlparse.py:307-308 | a rootless path that loses its root: "a/../b" gives "b" where the rewriting gives "/b" |
| UrlQuote.StripSafe | src/httpx2/httpx2/_urlparse.py:465-467 | what is left after stripping trailing safe characters |
| UrlQuote.PercentEncoded | src/httpx2/httpx2/_urlparse.py:459-469 | the fast path agrees with encoding character by character |
| UrlQuote.Quote | src/httpx2/httpx2/_urlparse.py:472-502 | working from escape sequence to escape sequence agrees with the character-by-character form |
| UrlQuote.QuotedAlphabet | src/httpx2/httpx2/_urlparse.py:472-480 | only unreserved and safe characters and "%" come out |
| UrlQuote.QuotedIsFixed | src/httpx2/httpx2/_urlparse.py:472-502 | quoting is idempotent, for every string and every safe set |
| UrlQuote.QuotedSameOctets | src/httpx2/httpx2/_urlparse.py:455-469 | quoting never changes the octets a text denotes |
| UrlQuote.QuotedKeepsEscapes | src/httpx2/httpx2/_urlparse.py:485-495 | an escape sequence is kept where it stands, and its surroundings are quoted on their own |
| SendLoops.RequestsBounded | src/httpx2/httpx2/_client.py:1001-1053 | whatever the server and the auth flow do, at most (m + 1)(m + 2) / 2 transport requests are made, m being `max_redirects` |
| SendLoops.BoundIsReached | src/httpx2/httpx2/_client.py:1001-1053 | for every m some server and some endless flow reach that bound |
| SendLoops.Client.HandleTurn | src/httpx2/httpx2/_client.py:1037-1057 | a response is left open only if it answers the round, or if taking it over from the transport raises |
| SendLoops.Client.SendHandlingRedirects | src/httpx2/httpx2/_client.py:1024-1057 | the number of requests is exact, the ways out are told apart, the only response left open is the one returned or the one lost, and the returned history lists the redirects in order |
| SendLoops.Client.SendRound | src/httpx2/httpx2/_client.py:1002-1020 | one round and what the auth flow makes of its response: closed unless the flow is content with it |
| SendLoops.Client.RunAuthFlow | src/httpx2/httpx2/_client.py:997-1020 | the same over all rounds; the loop terminates by the shared history |
| SendLoops.Client.SendHandlingAuth | src/httpx2/httpx2/_client.py:990-1022 | closing the flow on the way out: if that raises, a response the flow was content with is left open |
| SendLoops.Client.Send | src/httpx2/httpx2/_client.py:943-988 | one call stays within the bound; all responses but one returned to be streamed are closed if and only if no reply is lost and the flow can be closed behind a response it is content with; otherwise the last response is the only one left open |
| SendLoops.Client.SendWithRaisingJar | src/httpx2/httpx2/_client.py:1069-1076 | a cookie jar that raises on the first reply leaves the response open |
| SendLoops.Client.SendWithUnclosableFlow | src/httpx2/httpx2/_client.py:1007-1022 | a flow that is content at once and raises when closed leaves the response open |

## Left out

- Pool: connections and requests are identities and values, so aliasing between the pool's objects is not modelled.
- Pool: the answers of connections are a snapshot for one pass, which matches the async code, where a pass has no await.
- PoolRuns: closing the pool, HTTP/2 and proxies are not part of whole runs; the single-pass theorems cover any mix.
- PoolRuns: connection retries and TLS are one step that succeeds or fails; time is whatever makes a connection expired.
- PoolRuns: liveness of the retry loop and fairness of locks, which this code does not decide.
- PassKeepalive: counts the idle connections as they answered when the pass began, since a pass takes no new answers.
- Http2: stream-id exhaustion, whose release does not look at the deficit (src/httpcore2/httpcore2/_async/http2.py:129-133).
- Http2: read and write errors, and the connection queries other than its state.
- Http2Streams.Http2Connection.CloseResponse: does not close the connection when stream ids have run out (src/httpcore2/httpcore2/_async/http2.py:404-405), as stream-id exhaustion is not modelled.
- Http2Streams: `acquire` is one attempt; a waiter that finds no permit keeps waiting, and is cancelled without effect.
- Http2Runs: any permit in transit may be given back by a cancellation, whether it was handed to a waiter or taken at once; which of them a library cancels is not modelled.
- Http2Runs: taking the stream id, registering it and sending the headers are one step, since the library reserves the id only then.
- Http2Flow: windows are arithmetic, without the library's upper bound and without the parsing of frames.
- Http2Flow.SendStreamData: a run of turns that ends early stands for a server that grants nothing more, where the program waits.
- Cookies: the inherited jar stores cookies per path and name; the order of paths inside a domain and emptied dictionaries are not modelled, so answers are compared as multisets.
- Cookies: the checks of single cookies and block lists are parameters; a policy that replaces the domain check is one too.
- Lines: decoding bytes to text comes before and is not part of this model.
- SseFormat.FormatExactly: compares the event type, data and last event id of streams without a byte order mark; reconnection times and marks have lemmas of their own.
- SseFormat: an empty retry value counts as no number, as `int` has it; the standard is silent.
- Chunks: one generic class stands for the byte and the text variant.
- SseEvents: `int` and the content-type check are a parameter and left out; JSON data is left out.
- SseEvents.Events: with a limit, which chunk is refused depends on the cut, since an unfinished comment counts and a finished one does not; so only the events of an accepted stream are compared.
- WebSocket: fragments of mixed kinds inside one message, and sending; overflow and a failed answer stand for the close that goes with them.
- UrlPath: the rest of URL parsing, host encoding, default ports and query parameters; quoting is not applied to paths here.
- UrlQuote: characters are Unicode scalar values, so lone surrogates, which the program rejects, do not occur.
- SendLoops: how a redirect request or an auth header is built; `next_request` of an unfollowed redirect; the asynchronous client is the same loop.
- SendLoops: cookies and hooks are seen only by whether they raise; raising while a reply is taken over is one kind of turn, whatever raises.
- Transports, TLS, SOCKS and HTTP proxies, tracing, timeouts, decompression, multipart, header multi-dicts and the command line.
