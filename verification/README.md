# Verified model of the manager's proxy core

The manager relays browsers to agents over one WebSocket per agent. This project
models the concurrent and byte-handling core of that relay in Dafny and proves
properties of it over all inputs, all runs or all interleavings. Run
`dafny verify dfyconfig.toml` to check it.

| files | what they model |
|---|---|
| `OutboundModel`, `OutboundInvariants` | the outbound scheduler as a step system: any number of callers of `enqueue`, one writer, the environment; one event per atomic action |
| `OutboundSafety`, `OutboundFairness`, `OutboundShutdown`, `OutboundDrain`, `OutboundSelects`, `OutboundWitness` | its theorems: what a caller may be told, exactly-once, program order, pass bounds, when it sleeps on queued work, shutdown, what the drain leaves |
| `OutboundScheduler`, `OutboundRefinement` | the same object as a class whose loops update lanes, counters and answers in place, and the run of the step system a pass stands for |
| `RewrittenHeaders`, `RewrittenCache`, `RewrittenBodies`, `RewrittenCacheInclusion` | the byte-bounded LRU cache of rewritten scripts, the headers it keeps and serves, and its inclusion property |
| `GoStrings`, `CookiePaths`, `CookieHeader`, `CookieJar`, `CookieJarObject`, `CookieLifetime`, `CookieStandard`, `SetCookieScope`, `ManagerCookies` | cookie jar, path matching and scoping, header parsing and printing, the jar against RFC 6265, Set-Cookie rewriting |
| `ProxyStream`, `ProxyStreamEnds`, `ProxyStreamWitness`, `Tunnels`, `TunnelPhases`, `Histories`, `Options` | bounded response streams and WebSocket tunnels with a reader that drops and never waits |
| `RequestStream`, `Admission` | request-body chunking, the binary envelope, the lock-free admission counter |

## What the code does not promise

Places where a stronger statement is false. Each has a witness among the lemmas, and the
exact condition under which the statement holds; for the overtaken frame the condition
is necessary only.

- docs/protocol-v1.md:111 says bulk traffic is never starved indefinitely. After one
  pass the writer parks on a channel that holds at most one token, so two bulk frames
  behind one token leave the second queued until something else arrives
  (`OutboundWitness.TwoFramesOneToken`, `OutboundFairness.StallLasts`). A run that
  has gone to sleep has empty lanes if and only if its last wake-up found at most 8, 4
  and 1 frames on the lanes (`OutboundFairness.SleepsOnWorkIff`). The bounds in
  passes hold unconditionally.
- The drain does not always leave empty lanes: a caller that has loaded `stopped` as
  unset may send after the drain has passed its lane (`OutboundWitness.StrayFrame`). A
  frame is left behind if and only if it was sent that late
  (`OutboundDrain.LeftBehindIff`); its caller can still return
  (`OutboundShutdown.CallersCanReturn`).
- A streamed response can end normally with bytes missing, because the handler may
  take the final chunk before it looks at the overflow error
  (`ProxyStreamWitness.HoleIsReachable`). Its bytes are exact if and only if every
  chunk dropped before the final one was empty (`ProxyStream.CompleteIsExactIff`).
- Scoping a cookie path preserves which requests it matches if and only if the path is
  neither `/` nor already under the session's own prefix
  (`CookiePaths.ScopingPreservesIff`). A path under the prefix is not scoped again
  (`CookiePaths.ScopedTwiceDiffers`); a cookie for `/` is scoped to `/dsh/<id>/`, which
  does not match the request for `/dsh/<id>` that the router serves as `/`, and this is
  the only such request (`CookiePaths.ScopingPreserves`).
- A rewritten Set-Cookie line keeps its cookie within the session, and is left alone by a
  second rewriting, for every request path without a semicolon. The default path is
  appended verbatim (internal/api/proxy_cookie_jar.go:199-201), and request paths are
  decoded, so one with a semicolon can bring a Path attribute of its own
  (`SetCookieScope.SemicolonWitness`, `SpaceWitness`). The exact conditions are
  `SetCookieScope.LinesAreSeparateIff` and `ScopeSetCookieIdempotent`.
- A frame can be written before an earlier one of the same goroutine
  (`OutboundWitness.EndOvertakesChunk`), but only if the earlier call had given up
  waiting (`OutboundSafety.OvertakenHadGivenUp`).
- A larger cache never has fewer hits if every script fits into the smaller one
  (`RewrittenCacheInclusion.MoreRoomMoreHits`). Without that condition this fails for
  every two different limits (`MoreRoomCanHurt`, `MoreRoomIff`): the larger cache gives
  up small scripts for one the smaller cache ignores.
- The jar follows the code and not RFC 6265 in four places; attributes that are not
  modelled, such as Domain and Secure, are not compared. The default path keeps its
  trailing slash (internal/api/proxy_cookie_jar.go:47, section 5.1.4):
  `CookieStandard.DefaultPathAgreesIff`, `DefaultPathMisses`, `DefaultPathWitness`. A Path
  without a leading slash stands for `/` and not for the default path
  (internal/api/proxy_cookie_jar.go:30-36, section 5.2.4):
  `CookieStandard.SlashlessPathIff`, `SlashlessPathWitness`. A past Expires deletes even
  when Max-Age is positive (internal/api/proxy_cookie_jar.go:147, section 5.3 step 3):
  `CookieStandard.MaxAgeFirstIff`, `MaxAgeFirstWitness`. Only the longest match per name
  is sent (internal/api/proxy_cookie_jar.go:86-99, section 5.4):
  `CookieStandard.EveryMatchSentIff`, `EveryMatchWitness`.

## How to read the step systems

`Enabled(s, e)` says when an atomic action can happen, `Next(s, e)` what it does, and a
run is any sequence of enabled events. Fields marked as history (`log`, `taken`,
`offered`, `kept`, `passes` and so on) are read by no step. Connection writes,
cancelled contexts, timers and the choice among ready `select` cases are events
whose outcome is unconstrained. Times, gzip output, the parsed Set-Cookie records and
the results of `Read` are parameters.

## Model

| member | source | states |
|---|---|---|
| `OutboundSafety.ExactlyOnce` | internal/api/outbound_scheduler.go:158-186 | In every reachable state no frame has been written twice, no frame has been answered twice, and the writer's answer on `done` is always enabled, so a caller that gave up never blocks it |
| `OutboundSafety.ResultTellsTheWrite` | internal/api/outbound_scheduler.go:98-105 | nil from `enqueue` implies a successful write of that frame and no failed one; a write error implies the converse; the frame of a call turned away by a full lane is never attempted |
| `OutboundSafety.GivesUpWithReason` | internal/api/outbound_scheduler.go:78-105 | No call is told its context ended while it lives, nor that the scheduler is closed before `close` was called |
| `OutboundSelects.FirstSelect` | internal/api/outbound_scheduler.go:83-97 | In every reachable state a caller in the first select can send exactly while its lane holds fewer than 64 frames, is told Cancelled or Closed only for that reason, and that the queue is full exactly if the lane holds 64 and neither applies; so it always has a step |
| `OutboundSelects.SecondSelect` | internal/api/outbound_scheduler.go:98-105 | A caller in the second select can take what came on `done`, or return because its context is done or the scheduler closed, and nothing else |
| `OutboundSelects.SelectEffects` | internal/api/outbound_scheduler.go:83-105 | The send puts the frame at the back of its own lane and of no other; every other step returns its reason and leaves all lanes alone |
| `OutboundSelects.StoppedIsChecked` | internal/api/outbound_scheduler.go:78-80 | A call that finds `stopped` set is answered Closed at once, any other goes on to send |
| `OutboundSelects.QueueFullOnlyWhenFull` | internal/api/outbound_scheduler.go:94-96 | In every run, a call is told that the queue is full only when its lane holds 64 frames, its context is not done and the scheduler is not closed |
| `OutboundSafety.Ledger` | internal/api/outbound_scheduler.go:41-51 | Per lane, at every step: enqueued + callers between send and count = queued + in flight + dequeued + drained; the queue is FIFO and holds at most 64; `rejected` counts exactly the callers turned away; `writeErrors` counts exactly the failed writes |
| `OutboundSafety.ProgramOrder` | internal/api/outbound_scheduler.go:71-106 | If a goroutine's call returned nil, its frame was written before any attempt at a frame of a later call by the same goroutine, whatever the lanes |
| `OutboundSafety.ConfirmedIsSorted` | internal/api/outbound_scheduler.go:71-106 | The frames one goroutine got nil for occur in every prefix of the log in strictly ascending call order |
| `OutboundSafety.CrossLaneProgramOrder` | internal/api/server.go:1197-1232 | Over the whole log, one goroutine's confirmed frames are exactly its calls that returned nil, in call order: start, chunks and end of a request are never reordered by priority |
| `OutboundSafety.OvertakenHadGivenUp` | internal/api/outbound_scheduler.go:98-105 | If a later call's frame is written before an earlier one's of the same goroutine, the earlier call had returned Cancelled or Closed |
| `OutboundWitness.EndOvertakesChunk` | internal/api/server.go:1218-1220 | Such an overtaking is reachable: a cancelled bulk frame is written after the interactive frame its goroutine sends next |
| `OutboundInvariants.StepInv` | internal/api/outbound_scheduler.go:71-186 | Every atomic step of callers, writer and environment keeps the whole invariant: call states, lanes, writer, answers, log, outcomes, order, counters, errors |
| `OutboundInvariants.ReachableInv` | internal/api/outbound_scheduler.go:65-186 | The invariant holds of every state any interleaving can reach |
| `OutboundInvariants.StepOrder` | internal/api/outbound_scheduler.go:71-106 | No step breaks program order: in the log, a frame whose call returned what its write did stands before every frame of a later call by the same goroutine |
| `OutboundInvariants.StepLedger` | internal/api/outbound_scheduler.go:81-105 | Every step keeps the lane ledger balanced, in whatever order the send, the count, the pop and the answer interleave |
| `OutboundInvariants.StepAnswer` | internal/api/outbound_scheduler.go:158-186 | Every step keeps: a frame has had exactly one answer once the writer has let go of it and none before, and a filled `done` slot comes from that answer |
| `OutboundFairness.StepCredit` | internal/api/outbound_scheduler.go:119-130 | Before shutdown a step takes frames of a lane only against the weight granted by the passes so far, and gives up weight only on an empty lane |
| `OutboundFairness.WrittenWithinPasses` | internal/api/outbound_scheduler.go:119-130 | A frame at index k of a lane of weight w has been passed to conn.Write once k/w + 1 further passes have started and the last one is over, whatever arrives meanwhile |
| `OutboundFairness.FullLaneWithinPasses` | internal/api/outbound_scheduler.go:12-17 | Everything on a lane, even a full one, is written within 8, 16 or 64 further passes for critical, interactive, bulk |
| `OutboundFairness.WritesPerPass` | internal/api/outbound_scheduler.go:119-130 | Between any two points of a run at most 13 writes start per pass, counting what is left of the current one |
| `OutboundFairness.NoLostWakeUp` | internal/api/outbound_scheduler.go:83-89 | If every wake-up of a run finds the lanes within 8, 4 and 1 frames, the writer is never parked on queued work with no token and no pending signal |
| `OutboundFairness.OnePass` | internal/api/outbound_scheduler.go:119-147 | From a wake-up to the next sleep, a lane nobody adds to loses exactly its weight, or all it has |
| `OutboundFairness.SleepsOnWorkIff` | internal/api/outbound_scheduler.go:119-147 | A run that has gone to sleep with nothing under way has empty lanes if and only if its last wake-up found every lane within its weight |
| `OutboundFairness.SleepsWithoutWakeUp` | internal/api/outbound_scheduler.go:131-145 | A writer that went to sleep without ever being woken has no queued work behind it |
| `OutboundFairness.StallLasts` | internal/api/outbound_scheduler.go:137-145 | Until a frame is queued or the scheduler is closed, no event of a stalled run is a writer step and neither lanes nor log change |
| `OutboundWitness.TwoFramesOneToken` | internal/api/outbound_scheduler.go:86-89 | A stall is reachable: two bulk frames behind one token, the second one queued with its caller waiting and the writer asleep. This contradicts the promise of docs/protocol-v1.md:111 |
| `OutboundShutdown.WritesAfterClose` | internal/api/outbound_scheduler.go:119-147 | After `close` at most 13 further writes start, however long the run |
| `OutboundShutdown.LogFrozen` | internal/api/outbound_scheduler.go:174-186 | Once the drain has begun no write starts and the log never changes again |
| `OutboundShutdown.WriterStepsBounded` | internal/api/outbound_scheduler.go:131-186 | After `close` the number of writer steps is bounded by a measure of the state, however callers interleave |
| `OutboundShutdown.WriterNeverBlocks` | internal/api/outbound_scheduler.go:164-186 | After `close` the writer has an enabled step exactly until it has exited |
| `OutboundShutdown.ShutdownCompletes` | internal/api/outbound_scheduler.go:131-186 | From every reachable state after `close` there is a run of writer steps alone, no longer than the bound of WriterStepsBounded, that ends with the writer gone |
| `OutboundDrain.DrainAnswers` | internal/api/outbound_scheduler.go:174-186 | When the writer has exited, every frame accepted on a lane before the drain passed that lane has been answered exactly once |
| `OutboundDrain.DrainWritesNothing` | internal/api/outbound_scheduler.go:174-186 | A frame still queued when the drain begins is never attempted |
| `OutboundDrain.LeftBehindIff` | internal/api/outbound_scheduler.go:78-84 | Once the writer has exited, a frame is left on a lane if and only if its call, having loaded `stopped` as unset, sent it after the drain had passed that lane |
| `OutboundWitness.StrayFrame` | internal/api/outbound_scheduler.go:78-84 | Such a frame is reachable: the writer has exited and the bulk lane holds frame 0 |
| `OutboundShutdown.CallersCanReturn` | internal/api/outbound_scheduler.go:78-105 | At any point after `close`, also after the drain, every caller inside `enqueue` can return within three steps of that call itself |
| `OutboundShutdown.CallersProgress` | internal/api/outbound_scheduler.go:71-106 | Every step of a caller brings it closer to returning, and no other step sets it back |
| `OutboundScheduler.Scheduler.constructor` | internal/api/outbound_scheduler.go:65-69 | Empty bounded lanes, no token, not stopped, all counters zero |
| `OutboundScheduler.Scheduler.TrySend` | internal/api/outbound_scheduler.go:78-97 | The first select: which outcomes are possible in which state, `QueueFull` only when no other case is ready; an accepted frame goes to the back of its lane, is counted and leaves a token; a refusal changes nothing but the reject counter |
| `OutboundScheduler.Scheduler.PopAndWrite` | internal/api/outbound_scheduler.go:149-165 | Takes exactly the head of the lane, attempts one write, counts it and answers its caller with the result of that write; an empty lane changes nothing |
| `OutboundScheduler.Scheduler.ServeLane` | internal/api/outbound_scheduler.go:122-129 | Writes exactly the first min(weight, length) frames of the lane, in order, and leaves the rest |
| `OutboundScheduler.Scheduler.RunPass` | internal/api/outbound_scheduler.go:122-130 | One pass writes the critical, interactive and bulk shares, in this order, and leaves every lane its remainder |
| `OutboundScheduler.Scheduler.DrainLane` | internal/api/outbound_scheduler.go:175-185 | Empties one lane, answering exactly its frames with "closed" and no other |
| `OutboundScheduler.Scheduler.Drain` | internal/api/outbound_scheduler.go:174-186 | Empties all lanes, answers every queued frame with "closed", disturbs no earlier answer and writes nothing |
| `OutboundScheduler.Scheduler.Run` | internal/api/outbound_scheduler.go:119-147 | Left alone, the loop exits exactly when the scheduler is closed, after writing one pass and emptying the lanes; otherwise it parks after one pass, or two if a token was there, having written exactly those passes in order and left their remainders |
| `OutboundScheduler.Scheduler.Close` | internal/api/outbound_scheduler.go:167-172 | Sets `stopped` and closes `stopCh` once; a second close changes nothing |
| `OutboundScheduler.EmptiedIff` | internal/api/outbound_scheduler.go:120-130 | n passes empty all lanes if and only if no lane held more than n times its weight |
| `OutboundScheduler.RemaindersAdd` | internal/api/outbound_scheduler.go:119-147 | What n passes and one more leave is what n + 1 passes leave |
| `OutboundRefinement.PassIsRun` | internal/api/outbound_scheduler.go:119-130 | For every outcome of its writes, what one undisturbed pass of the object does to lanes and log is what some run of writer steps of the step system does |
| `RewrittenCache.FitIsLongest` | internal/api/rewritten_js_cache.go:94 | A prefix of the recency order is within the room if and only if it is no longer than `FitLength`: eviction from the back removes the shortest sufficient suffix |
| `RewrittenCache.AgreeLookup` | internal/api/rewritten_js_cache.go:27-36 | Map and list know the same keys and point to the same entry |
| `RewrittenCache.Cache.constructor` | internal/api/rewritten_js_cache.go:38-41 | An empty cache; a limit of zero or less means 32 MiB |
| `RewrittenCache.Cache.Remove` | internal/api/rewritten_js_cache.go:101-105 | Removes exactly one entry from map and list and its size from the total, keeping the two in bijection |
| `RewrittenCache.Cache.MakeRoom` | internal/api/rewritten_js_cache.go:94 | The eviction loop ends, leaves the longest prefix of the recency order that makes the room, and counts every eviction |
| `RewrittenCache.Cache.Replace` | internal/api/rewritten_js_cache.go:93 | Takes out a previous entry for the key, and only that |
| `RewrittenCache.Cache.AddEntry` | internal/api/rewritten_js_cache.go:84-99 | Refines `Added` on the recency order; keeps bijection, distinct keys, exact byte total within the limit, and accepted adds = entries + evictions + replacements; an oversized entry changes nothing |
| `RewrittenCache.Cache.Add` | internal/api/rewritten_js_cache.go:84-99 | Empty bodies, failed compression and scripts too large change nothing; otherwise the front entry has this key, these two bodies in their places and exactly the safe headers, and its size is the length of the bodies |
| `RewrittenCache.Cache.Serve` | internal/api/rewritten_js_cache.go:55-82 | Only GET and HEAD; a miss changes only its counter; a hit moves exactly that entry to the front and answers with the accepted variant, a header that describes it, and no body for HEAD |
| `RewrittenBodies.AddThenServe` | internal/api/rewritten_js_cache.go:55-99 | A script that is added and asked for: a client that takes gzip gets the compressed body and is told so, any other the plain one, with its own length; HEAD gets no body |
| `RewrittenBodies.AddAllScripts` | internal/api/rewritten_js_cache.go:84-99 | However many scripts are added, the plain and compressed bodies held together never exceed the limit |
| `RewrittenCache.MeasuredBodies` | internal/api/rewritten_js_cache.go:89-95 | If every entry's size is the length of its two bodies, the byte total is the length of all bodies held |
| `RewrittenHeaders.SafeCachedHeaders` | internal/api/rewritten_js_cache.go:115-125 | Exactly the headers that describe no body, no client and no connection are kept, unchanged |
| `RewrittenHeaders.SafeIff` | internal/api/rewritten_js_cache.go:115-125 | The headers not kept are exactly fifteen, by their names in any case: content-length, content-encoding, etag, content-md5, digest, set-cookie and the nine hop-by-hop ones |
| `RewrittenHeaders.SameHeaderIff` | internal/api/rewritten_js_cache.go:66-76 | Two names stand for one header if and only if they differ at most by case |
| `RewrittenHeaders.ItoaReadsBack` | internal/api/rewritten_js_cache.go:143-144 | The decimal digits written for a length read back as that length |
| `RewrittenHeaders.ServedHeader` | internal/api/rewritten_js_cache.go:66-76 | Length and encoding of the variant sent, nothing left over from another body, the fixed lifetime, Accept-Encoding added to Vary only if missing, and otherwise the cached headers over those there were, whatever the map order |
| `RewrittenHeaders.AcceptsGzip` | internal/api/rewritten_js_cache.go:47-53 | True exactly if some item of Accept-Encoding names gzip, whatever its quality value |
| `RewrittenHeaders.GzipItemIff` | internal/api/rewritten_js_cache.go:47-53 | An item names gzip exactly if its text before the first semicolon, without spaces, is gzip in any case |
| `RewrittenCacheInclusion.RequestKeepsFit` | internal/api/server.go:1248-1250 | Serve, or add and serve, keeps keys and sizes of the cache those of the longest fitting prefix of the unbounded recency order, whatever headers and bodies come with a key |
| `RewrittenCacheInclusion.ContentsAreFit` | internal/api/rewritten_js_cache.go:55-99 | After any requests with one size per key, whether or not they fit, the cache holds exactly the keys and sizes of the longest prefix that fits of the unbounded LRU order over the scripts that fit at all |
| `RewrittenCacheInclusion.Inclusion` | internal/api/rewritten_js_cache.go:84-99 | Fed the same requests, with one size per key and every size within the smaller cache, keys and sizes of the smaller cache's recency order are a prefix of the larger one's; and so are the entries if a key always comes with the same one |
| `RewrittenCacheInclusion.MoreRoomMoreHits` | internal/api/rewritten_js_cache.go:55-65 | Under the same conditions a larger cache never has fewer hits |
| `RewrittenCacheInclusion.MoreRoomCanHurt` | internal/api/rewritten_js_cache.go:90-94 | For every pair of limits there are requests on which the larger cache has fewer hits, all of one script small enough for both and one that only the larger one can hold |
| `RewrittenCacheInclusion.MoreRoomIff` | internal/api/rewritten_js_cache.go:90-94 | Over all requests with one size per key, whether they fit or not, a cache with at least the room of another never has fewer hits if and only if both have the same room |
| `RewrittenCacheInclusion.Handle` | internal/api/server.go:1387-1397 | One request on the mutable cache has the effect of the specification's `Request`, reports a hit exactly when the key was held, and raises the cache's own counters for both serves |
| `RewrittenCacheInclusion.HandleAll` | internal/api/server.go:1387-1397 | A whole run on the mutable cache ends in the specification's contents and hit count, so the inclusion theorems hold of the object; its `misses` are the requests less the hits, its `hits` all requests, each corrected by the scripts too large to store |
| `CookiePaths.NormalizeNormal` | internal/api/proxy_cookie_jar.go:30-36 | Normalisation gives a trimmed path with a leading slash and leaves such paths alone |
| `CookiePaths.MatchesNormal` | internal/api/proxy_cookie_jar.go:50-57 | On normal paths matching is: prefix, and equal or ending at a slash boundary (section 5.1.4 of RFC 6265) |
| `CookiePaths.MatchesReflexive` | internal/api/proxy_cookie_jar.go:50-57 | Path matching is reflexive on normal paths |
| `CookiePaths.MatchesAntisymmetric` | internal/api/proxy_cookie_jar.go:50-57 | Two normal paths that match each other are equal |
| `CookiePaths.MatchesTransitive` | internal/api/proxy_cookie_jar.go:50-57 | Path matching is transitive on normal paths |
| `CookiePaths.LongestMatchUnique` | internal/api/proxy_cookie_jar.go:88-96 | Two stored paths of one length that match one request are the same path |
| `CookiePaths.DefaultMatches` | internal/api/proxy_cookie_jar.go:38-48 | The default path of a request is normal and matches that request |
| `CookiePaths.ScopingPreserves` | internal/api/server.go:936-941 | For a cookie path not already under the session's prefix and any request under it: the scoped path matches the request if and only if the path matches what the router strips it to, except exactly for the path / and the request /dsh/<id> |
| `CookiePaths.ScopingPreservesIff` | internal/api/proxy_cookie_jar.go:164-177 | Scoping preserves matching for all requests under the session if and only if the path is neither / nor already under the session's prefix |
| `CookiePaths.ScopedTwiceDiffers` | internal/api/proxy_cookie_jar.go:173-175 | For a path already under the prefix there is a request under the session on which the two disagree |
| `CookiePaths.ScopeIdempotent` | internal/api/proxy_cookie_jar.go:164-177 | Scoping a scoped path changes nothing |
| `CookiePaths.SessionIdRoundTrip` | internal/api/target_routing.go:34-43 | The session id read from any path under `/dsh/<id>` is that id |
| `CookiePaths.NoSessionOutside` | internal/api/target_routing.go:34-37 | A path outside /dsh/ names no session |
| `CookiePaths.SessionsAreSeparate` | internal/api/proxy_cookie_jar.go:164-177 | For distinct session ids no cookie scoped to one, whatever path it asks for, matches any request under the other |
| `CookieHeader.ParseClean` | internal/api/proxy_cookie_jar.go:59-77 | Whatever the browser sends, the pairs read are distinct, trimmed, separator-free and never the manager's own cookies |
| `CookieHeader.ParsePrint` | internal/api/proxy_cookie_jar.go:102-106 | Printing clean pairs and parsing them gives the same pairs in the same order |
| `CookieHeader.PrintPairs` | internal/api/proxy_cookie_jar.go:102-106 | Pairs are written name=value with a semicolon and a space between them |
| `CookieHeader.HeaderParses` | internal/api/proxy_cookie_jar.go:59-106 | The header sent on reads back as exactly the browser's pairs updated and completed from the jar |
| `CookieHeader.HeaderFixedPoint` | internal/api/proxy_cookie_jar.go:59-106 | Feeding the header back with the same jar pairs changes nothing |
| `CookieHeader.WithTargetCookie` | internal/api/target_routing.go:10-21 | The loop keeps every named part but the target cookie, trimmed and in order, and appends one target cookie |
| `CookieHeader.TargetPartIff` | internal/api/target_routing.go:13-16 | Exactly the parts without a name, and those named dsh-target in any case, are left out |
| `CookieHeader.OneTargetPart` | internal/api/target_routing.go:10-21 | For an id without `;` the header has exactly one target cookie, the last part, and it names the session |
| `CookieHeader.TargetCookieInvisible` | internal/api/target_routing.go:10-21 | For an id without `;` the header sent on is the same with and without the target cookie |
| `ManagerCookies.ManagerNameIff` | internal/api/proxy_cookie_jar.go:26-28 | The manager's own names are exactly dsh-session and dsh-target, in any case |
| `ManagerCookies.OwnCookiesStay` | internal/api/proxy_cookie_jar.go:59-107 | For every log, request and browser header, the header sent on names neither dsh-session nor dsh-target, in any case |
| `ManagerCookies.PairRead` | internal/api/proxy_cookie_jar.go:62-71 | A pair is read exactly if it has a name that is not the manager's, and then with the last value given |
| `ManagerCookies.LoginWitness` | internal/api/proxy_cookie_jar.go:62-71 | From dsh-session=m nothing is read |
| `ManagerCookies.HeadName` | internal/api/proxy_cookie_jar.go:109-116 | The name of a Set-Cookie line is the text before its first equals sign, without spaces, whatever attributes follow |
| `ManagerCookies.OwnLinesAreDropped` | internal/api/proxy_cookie_jar.go:180-182 | A line whose cookie is dsh-session or dsh-target, in any case, is dropped |
| `ManagerCookies.OwnRecordsAreRefused` | internal/api/proxy_cookie_jar.go:118-127 | The jar accepts exactly the records with a name that is not the manager's |
| `CookieJar.ReplayIsLastWrite` | internal/api/proxy_cookie_jar.go:129-162 | A path holds a cookie exactly if the last record for that name and normalised path did not delete it, and then holds that record's value and expiry |
| `CookieLifetime.TakesPartIff` | internal/api/proxy_cookie_jar.go:147-160 | By the fields of the last record for a name and path: it takes part in a selection exactly if it did not remove, the path matches, and Max-Age seconds have not passed or, without Max-Age, Expires is absent or still to come; and its value is the record's |
| `CookieLifetime.SentWhileItLives` | internal/api/proxy_cookie_jar.go:86-99 | For a name with one path: while that record lives and matches, the header sent on carries its value; otherwise exactly what the browser sent under that name |
| `CookieLifetime.ExpiresWitness` | internal/api/proxy_cookie_jar.go:89-91 | Set at 0 with Expires 100, the cookie is not sent at 200 |
| `CookieJar.ReplayPaths` | internal/api/proxy_cookie_jar.go:138-141 | Stored paths are normal and agree with the key they are stored under |
| `CookieJar.BestUnique` | internal/api/proxy_cookie_jar.go:85-96 | The longest live match is unique |
| `CookieJar.ExpiredNeverShow` | internal/api/proxy_cookie_jar.go:89-91 | Purging everything expired by t changes no selection at t or later |
| `CookieJar.JarPairsUnique` | internal/api/proxy_cookie_jar.go:80-100 | The ordered pairs a log offers to a request are determined by the log, the path and the time |
| `CookieJar.StrLessIff` | internal/api/proxy_cookie_jar.go:84 | Names are ordered by their first difference, a proper prefix first |
| `CookieStandard.MatchesAsInRfc` | internal/api/proxy_cookie_jar.go:50-57 | On normal paths the jar's matching is the path-match of section 5.1.4 of RFC 6265 |
| `CookieStandard.DefaultPathAgreesIff` | internal/api/proxy_cookie_jar.go:38-48 | For every request path the default path is that of section 5.1.4 if and only if no slash follows the first one; for a slash-led path it otherwise has one slash more |
| `CookieStandard.DefaultPathMisses` | internal/api/proxy_cookie_jar.go:38-57 | Where they differ, the jar's default path matches no more requests than the standard's and misses exactly those between the two |
| `CookieStandard.DefaultPathWitness` | internal/api/proxy_cookie_jar.go:47 | Set for /a/b, a cookie goes to /a by the standard and not from this jar |
| `CookieStandard.SlashlessPathIff` | internal/api/proxy_cookie_jar.go:30-36 | Given the default path, a record is stored under the path section 5.2.4 asks for if and only if its Path is absent or slash-led, or the default path is / |
| `CookieStandard.SlashlessPathWitness` | internal/api/proxy_cookie_jar.go:30-36 | Path=x set for /a/b is stored under / and not under the default path |
| `CookieStandard.MaxAgeFirstIff` | internal/api/proxy_cookie_jar.go:147 | After any log the jar holds for a name and path what section 5.3 step 3 asks for if and only if the last record for them did not have a past Expires beside a positive Max-Age |
| `CookieStandard.MaxAgeFirstWitness` | internal/api/proxy_cookie_jar.go:147 | A cookie with a minute to live and a past Expires: kept and selected by the standard, absent from the jar |
| `CookieStandard.SentOnce` | internal/api/proxy_cookie_jar.go:86-99 | A name is sent exactly once if any of its paths matches and lives, and not at all otherwise |
| `CookieStandard.EveryMatchSentIff` | internal/api/proxy_cookie_jar.go:86-99 | As many pairs of a name are sent as section 5.4 asks for if and only if at most one of its stored paths matches and lives |
| `CookieStandard.EveryMatchWitness` | internal/api/proxy_cookie_jar.go:86-99 | Two cookies of one name, for / and /x, both match a request to /x; one pair is sent, with the value for /x |
| `CookieJarObject.StepRefines` | internal/api/proxy_cookie_jar.go:133-161 | One mutation of the nested map, with creation and deletion of inner maps, refines appending one record to the log |
| `CookieJarObject.ProxyCookieJar.constructor` | internal/api/proxy_cookie_jar.go:22-24 | An empty map refining the empty log |
| `CookieJarObject.ProxyCookieJar.ApplyOne` | internal/api/proxy_cookie_jar.go:138-160 | The loop body: the effective path, deletion with removal of an emptied inner map, or the stored record |
| `CookieJarObject.ProxyCookieJar.Apply` | internal/api/proxy_cookie_jar.go:129-162 | Appends exactly the accepted records to the log in order, skipping unparsable and manager cookies, and keeps the map a refinement of the log |
| `CookieJarObject.ProxyCookieJar.RequestHeader` | internal/api/proxy_cookie_jar.go:59-107 | The result is the browser's pairs updated and completed with, for every name of the log, the value of the longest path-matching live entry, in name order |
| `CookieJarObject.SelectBest` | internal/api/proxy_cookie_jar.go:86-96 | The scan over the paths, in any order, finds a longest live match if and only if there is one |
| `CookieJarObject.SortedNames` | internal/api/proxy_cookie_jar.go:80-84 | The names come out strictly ascending, each name of the map once |
| `CookieJarObject.ParseInto` | internal/api/proxy_cookie_jar.go:60-77 | The accumulation in `values` and `order` yields exactly the parsed pairs |
| `CookieJarObject.PrintFrom` | internal/api/proxy_cookie_jar.go:102-106 | The output loop prints exactly the accumulated pairs |
| `CookieJarObject.HeaderIsDetermined` | internal/api/proxy_cookie_jar.go:80-100 | Two headers the code may produce for one log, request and time are equal: map iteration order cannot be seen |
| `CookieJarObject.ResendIsFixedPoint` | internal/api/proxy_cookie_jar.go:59-107 | Sending a header through the jar again at the same time and path, with or without the target cookie, changes nothing |
| `SetCookieScope.ScopeSetCookie` | internal/api/proxy_cookie_jar.go:179-203 | The in-place rewriting of the parts computes the scoped line, with the manager and no-session cases |
| `SetCookieScope.RewriteParts` | internal/api/proxy_cookie_jar.go:186-198 | The loop rewrites exactly the Path attributes after the first part and reports whether there was one |
| `SetCookieScope.ScopePartOf` | internal/api/proxy_cookie_jar.go:189-196 | A Path attribute, in any case and with any spaces, whose slash-led value is not under the session becomes exactly that value behind /dsh/<id> |
| `SetCookieScope.BarePathPart` | internal/api/proxy_cookie_jar.go:193-195 | A Path attribute without a value becomes /dsh/<id>/ |
| `SetCookieScope.OtherPartKept` | internal/api/proxy_cookie_jar.go:190-192 | A part not named path is left alone |
| `SetCookieScope.NoSessionNoScope` | internal/api/proxy_cookie_jar.go:183-185 | Without a session the line is left alone |
| `SetCookieScope.LinePartsFacts` | internal/api/proxy_cookie_jar.go:186-202 | For every request path: the first part and every attribute but Path keep text and position, every Path attribute the line had lies under the session, and the result has at least one |
| `SetCookieScope.ScopedLineParts` | internal/api/proxy_cookie_jar.go:186-202 | For every request path: read back, the rewritten line is exactly the rewritten parts, followed, if the line had no Path attribute, by the scoped default path cut at its semicolons |
| `SetCookieScope.LinePinnedIff` | internal/api/proxy_cookie_jar.go:186-202 | All Path attributes of the result lie under the session if and only if the line had one, or the default path is stable: no space before its first semicolon and no other Path attribute behind one |
| `SetCookieScope.ScopeSetCookieIdempotent` | internal/api/proxy_cookie_jar.go:179-203 | For every request path: rewriting a line twice is rewriting it once if and only if the line had a Path attribute, or the default path is stable; without a semicolon in the request path it is |
| `SetCookieScope.LinesAreSeparateIff` | internal/api/proxy_cookie_jar.go:179-203 | For every request path: no Path attribute of the rewritten line matches a request under another session if and only if the line had a Path attribute, or none behind a semicolon of the default path is /, /dsh, /dsh/ or under another session; without a semicolon in the request path none is |
| `SetCookieScope.WithinIff` | internal/api/proxy_cookie_jar.go:50-57 | A Path attribute matches a request under some other session if and only if its normalised value is /, /dsh, /dsh/ or names another session |
| `SetCookieScope.SemicolonWitness` | internal/api/proxy_cookie_jar.go:199-201 | Set in session x for the decoded request path /;path=/dsh/y/, the line a=1 gets a second Path attribute from the request: the cookie goes to session y, and a second rewriting changes the line |
| `SetCookieScope.SpaceWitness` | internal/api/proxy_cookie_jar.go:199-201 | A space before the semicolon of the request path is enough for the second rewriting to change the line |
| `ProxyStream.Stream.constructor` | internal/api/server.go:755-761 | Three empty bounded channels |
| `ProxyStream.Stream.FailWith` | internal/api/server.go:763-768 | Never waits; afterwards an error is on record |
| `ProxyStream.Stream.PutHeader` | internal/api/server.go:770-776 | Never waits; a second header is reported as an error |
| `ProxyStream.Stream.PutChunk` | internal/api/server.go:778-786 | Never waits; returns true exactly if there was room and then appends the chunk, otherwise leaves the chunks alone and an error on record |
| `ProxyStream.StepInv` | internal/api/server.go:486-529 | Every step of reader and handler keeps queues, written bytes, final marker and end reporting consistent |
| `ProxyStream.ReceivedInOrder` | internal/api/server.go:1360-1373 | Over all interleavings the chunks received are an in-order subsequence of those sent, and the bytes written are those of all received chunks but for one open or failed write |
| `ProxyStream.PrefixWhileNothingDropped` | internal/api/server.go:778-786 | While no `deliverChunk` has returned false, the browser has the bytes of a prefix of what the agent sent |
| `ProxyStream.CompleteIsExactIff` | internal/api/server.go:1362-1369 | A stream that ended on a final chunk has written exactly the bytes sent up to it if and only if every earlier chunk `deliverChunk` returned false for was empty |
| `ProxyStream.ChunkLedger` | internal/api/server.go:525-529 | Chunks offered = received + queued + counted overflows |
| `ProxyStream.StreamNeverStuck` | internal/api/server.go:492-501 | Once an end message or final chunk has been handled, a handler past the header always has an enabled step of its own |
| `ProxyStream.DropsAreReported` | internal/api/server.go:778-786 | After a drop an error is on record until the handler is done |
| `ProxyStream.QueuesBounded` | internal/api/server.go:755-761 | The channels never hold more than 1, 8 and 1 values |
| `ProxyStream.HandlerProgress` | internal/api/server.go:1306-1378 | Every step of the handler brings it closer to its end |
| `ProxyStream.FinalEndsStream` | internal/api/server.go:1360-1378 | With a final chunk at queue index i a streaming handler is done after at most 2 * (i + 1) steps of its own, whatever the reader adds, and until then has one enabled |
| `ProxyStreamEnds.CompleteNeedsNormalEnd` | internal/api/server.go:492-501 | A run in which the response ends normally has received an end message without an error or a chunk with the final flag; a stream whose only end carries an error never ends normally |
| `ProxyStreamEnds.FailedEndIsReported` | internal/api/server.go:494-495 | Once an end message with an error has been handled, an error is on record until the handler is done |
| `ProxyStreamEnds.ErrorEndsResponse` | internal/api/server.go:1370-1372 | Taking an error ends the response without another byte: aborted after the header, an error response before it |
| `ProxyStreamEnds.FirstErrorStays` | internal/api/server.go:763-786 | The first error stays; a second header and a chunk beyond 8 are errors and change nothing else |
| `ProxyStreamEnds.RefusedNeverStreams` | internal/api/server.go:1319-1323 | Without a header that is no refusal nothing is streamed and nothing written |
| `ProxyStreamEnds.HeaderStartsStream` | internal/api/server.go:1319-1360 | A header starts the stream exactly if it is no refusal and streaming was negotiated |
| `ProxyStreamEnds.UnsentEnds` | internal/api/server.go:1301-1305 | A request that could not be sent waits for no response |
| `ProxyStreamEnds.RegisteredWhileServed` | internal/api/server.go:1291-1295 | In every run the stream stays in the map until its handler is done |
| `ProxyStreamEnds.UnregisteredGetsNothing` | internal/api/server.go:788-793 | Once the stream is out of the map and the reader has no message for it in hand, nothing is offered to it |
| `ProxyStreamWitness.HoleIsReachable` | internal/api/server.go:1361-1373 | A response can end normally with bytes missing from its body, since the select may prefer `chunks` to `errors` |
| `Tunnels.StepInv` | internal/api/server.go:1045-1163 | Every step of any tunnel or of the reader keeps channels, counters and ledger consistent |
| `Tunnels.TunnelLedger` | internal/api/server.go:1050-1096 | wsOpenSent = wsOpenAcked + wsOpenFailed + tunnels opening; accepted browsers = unfinished tunnels + wsClosed; tunnelDropped = messages dropped on some tunnel |
| `Tunnels.TunnelChannel` | internal/api/server.go:795-808 | Per tunnel: dispatched = consumed + queued + dropped, at most 32 queued, consumption an in-order subsequence, a prefix while nothing was dropped |
| `Tunnels.LiveOnlyAfterOpen` | internal/api/server.go:1079-1096 | A tunnel forwards only after the first message it received was a successful open result |
| `TunnelPhases.EndsExactlyWhen` | internal/api/server.go:1070-1163 | A tunnel on its way or live ends exactly by an open message that could not be written, the timer, a first message that is no successful open result, a close, a frame the browser does not take, or the browser leaving |
| `TunnelPhases.OpenResultDecides` | internal/api/server.go:1079-1096 | A successful open result makes the tunnel live and is counted; any other first message is counted as a failure and the tunnel returns |
| `TunnelPhases.OpeningSteps` | internal/api/server.go:1054-1078 | The steps before the open result and after the return, each with its counter |
| `TunnelPhases.CloseEndsTunnel` | internal/api/server.go:1139-1142 | Once a live tunnel has received a close it is never live again |
| `TunnelPhases.FoundWhileRegistered` | internal/api/server.go:795-801 | The reader finds a tunnel exactly between its registration and its removal |
| `TunnelPhases.DroppedExactlyWhenFull` | internal/api/server.go:802-807 | A message is dropped and counted exactly if 32 are queued; otherwise it goes to the back of that tunnel's queue and no other tunnel changes |
| `RequestStream.Sender.SendChunk` | internal/api/server.go:1217-1221 | A refused chunk is followed by exactly one end message with an error, and by nothing else |
| `RequestStream.Sender.SendBody` | internal/api/server.go:1207-1231 | For every body and every way Read may partition it: start, chunks of 1 to 65536 bytes, one end; at most 16 MiB of chunks, a prefix of the body; nothing is sent after a refusal but the closing end message; and each return value says which end was sent and why |
| `RequestStream.Sender.SendProxyRequest` | internal/api/server.go:1197-1232 | Without streaming exactly one message; with it the same guarantees as the loop, also for a missing body and a refused start |
| `RequestStream.SentIff` | internal/api/server.go:1222-1231 | A streamed request returns nil if and only if no attempt was refused, the reader ended cleanly and the body is within the limit |
| `RequestStream.DecodeEncodeIff` | internal/api/server.go:823-826 | Splitting an envelope at the first newline recovers header and payload if and only if the header is neither empty nor contains a newline |
| `RequestStream.EncodeDecode` | internal/api/server.go:510-519 | Data decodes to a header and payload if and only if it is their encoding |
| `RequestStream.MalformedIff` | internal/api/server.go:511-514 | Data is refused if and only if it has no newline or starts with one |
| `Admission.StepInv` | internal/api/server.go:99-113 | Every load, swap and release of any request keeps counter, holders and retry accounts consistent |
| `Admission.CounterCountsHolders` | internal/api/server.go:99-113 | Under any interleaving the counter equals the number of requests holding a place, never above 16, and places taken = given back + held |
| `Admission.RefusedIffFull` | internal/api/server.go:101-104 | A load turns a request away if and only if 16 requests hold a place at that load |
| `Admission.RefusedSawLimit` | internal/api/server.go:1261-1267 | Every refused request had read exactly 16 |
| `Admission.SwapTakesIffUnchanged` | internal/api/server.go:105-108 | A swap takes a place exactly if the counter is still what was read; otherwise the request loads again, and never refuses |
| `Admission.RetriesNeedProgress` | internal/api/server.go:100-108 | A swap fails only if the counter changed since the load; a request retries no more often than others acquired or released |
| `Admission.UncontendedGetsAPlace` | internal/api/server.go:99-109 | With a place free, an undisturbed request gets it in one load and one swap |

## Left out

- OutboundScheduler.Scheduler.Run: the loops of the class run without interference from other goroutines; interleavings are covered by the step system of `OutboundModel`, to which `OutboundRefinement.PassIsRun` ties one pass.
- OutboundFairness.WrittenWithinPasses: bounds the wait in passes that start, not in time; whether passes keep starting is what `SleepsOnWorkIff` settles.
- OutboundSafety.ProgramOrder: is about one scheduler; the retry on a second connection (internal/api/server.go:692-709) may send a message again after a first write that did succeed.
- CookieJarObject.ProxyCookieJar.Apply: starts from parsed records; the Set-Cookie parser of Go's library is not part of this model, names have no `=` or `;`, values no `;`.
- RewrittenCache.Cache.Serve: header names are told apart without regard to case; the canonical spelling Go gives them is not modelled, and writing to the browser does not fail.
- RewrittenCache.Cache.Remove: the linked list is a sequence, so the list element pointers and their aliasing are not captured.
- RewrittenCacheInclusion.Inclusion: requests are served one after the other, with one size per key that fits the smaller cache; headers and bodies may change.
- ProxyStream.ReceivedInOrder: a failed write counts as nothing written; how much of it reached the browser is not modelled.
- Tunnels.TunnelChannel: frames are opaque; the base64 form and its decoding errors, and the forwarding direction from browser to agent, are not part of this model.
- RequestStream.Sender.SendBody: readers that return no bytes and no error for ever are excluded, a body is a finite list of reads.
- CookiePaths.SessionsAreSeparate: session ids are non-empty, without slashes and surrounding spaces, as the manager makes them.
- SetCookieScope.ScopeSetCookieIdempotent: for such ids without `;`, and cookies that are not the manager's own, whose lines are dropped.
- SetCookieScope.LinesAreSeparateIff: Path values are read as the jar reads them, with `/` for a value that is not slash-led; a browser would take the default path there.
- Counters are unbounded; the wrap-around of 64-bit counters is not modelled.
- Strings are ASCII: Unicode case folding and Unicode white space are not modelled; Max-Age is small enough not to overflow a duration.
- Nil receivers and nil contexts, JSON encoding of headers, logging, timers, heartbeats, and the HTTP and WebSocket libraries.
- Buffered request bodies, which are silently cut at 16 MiB (internal/api/server.go:1255) where streamed ones fail.
- The text of a cache key (internal/api/rewritten_js_cache.go:43-45), which is opaque here.
- `injectBrowserCompatibility`, Location rewriting, the database, login, pairing, enrolment and the dashboard.
