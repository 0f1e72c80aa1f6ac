# A model of the terminal gateway

The gateway multiplexes many terminal sessions over one WebSocket. Session output
is written to a ring buffer per session; every 20 ms the router takes what it can
from each buffer, packs it into one binary frame and hands the frame to the hub,
which offers it to every connection's bounded queue; the browser decodes it. This
project models that path, and beside it the rate limiter, the session life cycle
with its collector, the input broadcast, the output cleaner and the browser's echo
lock. `dafny verify dfyconfig.toml` checks all of it.

| file | models |
|---|---|
| `Bytes.dfy` | machine integers, byte strings, `copy`, arithmetic on circles |
| `Rings.dfy` | `gateway/internal/router/buffer.go` |
| `Codec.dfy` | `gateway/pkg/codec/frame.go` |
| `FrameParser.dfy` | `frontend/src/workers/parser.ts` |
| `BufferPool.dfy` | `gateway/pkg/buffer/pool.go` |
| `Sessions.dfy` | `gateway/internal/session/` (`session.go`, `manager.go`, `reconnect.go`) |
| `WarningReader.dfy` | a reader of the slow warning's text that shares nothing with its printer |
| `Routing.dfy` | one tick of `gateway/internal/router/router.go` on values, and its messages |
| `RouterRuns.dfy` | what holds over every run of the router |
| `RouterCases.dfy` | the failing states the router reaches, and what it does as written |
| `Routers.dfy` | the router object with its buffers, sessions and scratch pool in the heap |
| `RouterObjects.dfy` | calls of its methods in any order: runs over the objects |
| `RateLimiting.dfy` | `gateway/internal/resource/rate_limiter.go` |
| `Multiexec.dfy` | `gateway/internal/multiexec/engine.go` |
| `Hubs.dfy` | the hub of `gateway/internal/server/server.go` and the queues of `conn.go` |
| `Diff.dfy` | `gateway/internal/diff/engine.go` |
| `EchoLock.dfy` | the echo lock of `frontend/src/workers/ws.worker.ts` |
| `EndToEnd.dfy` | router, hub and decoders put together |

## How the code is represented

Objects whose methods change fields are classes; each method's contract gives the
whole new state as a function of the old one, and the promises are proved about
those functions, over one call and over every sequence of calls. Every method that
holds a mutex, and every tick, is one step. Time is an argument; runs with a clock
require that it does not go back. A session collector's pass is one event per
session, each at its own clock reading, so other events may come between. The order
in which `sync.Map.Range` visits keys is an argument too, or an arbitrary choice.
Where the code panics, the method returns so and its contract says exactly when, and
what has changed by then. The buffer size and the watermarks are parameters with
`low < high <= size`; `Rings.SOURCE_MARKS` holds the shipped ones.

## Where the code departs from its intent

The code is modelled as it stands; what the design needs instead is a parameter or
a second method, and the theorems say for which of the two they hold.

* `Write` (buffer.go:46-58) makes one copy that stops at the end of the array and
  is not limited to the free space. `Rings.WriteKeepsIffFits` gives the exact
  condition under which that is harmless, `Rings.OverrunReplacesOldest` and
  `Rings.OverrunLosesData` say what is lost otherwise, and `Rings.OverrunIsReachable`
  reaches such a state for every buffer size. `Rings.RingBuffer.WriteWrapping` is the
  two-part write, modelled on the copy `TryRead` makes; with it the ring is a bounded
  queue (`Rings.RingRefinesQueue`). `WriteMode` selects the one or the other in runs.
* `Pool.Get` (pool.go:33-42) hands out a slice of length zero, so `TryRead(data)` at
  router.go:102 reads nothing: `RouterRuns.EmptyScratchDeliversNothing`, and
  `RouterCases.AsWrittenDeliversNothing` for the code as it stands. The scratch
  length is a parameter (`Config.scratch`, `Router.reslices`): 0 as written, 4096 as
  router.go:98 asks for.
* `aggregate` passes slow sessions over (router.go:93-95), although it is the only
  reader, so a slow session stays slow: `RouterRuns.SlowForever`, reached by filling a
  new buffer to the high mark (`RouterCases.FillingUpSticks`). The performance
  design (docs/性能与容量设计.md:30-31) pauses the producer and keeps draining;
  `Config.drainsSlow` selects that, and `RouterRuns.DrainedRecovers` gives the tick of
  recovery.
* `SessionCount` is an unchecked `uint8` (router.go:113): a tick delivers all it takes
  exactly when at most 255 sessions contribute, which `Routing.Contributors` counts
  before the tick (`Routing.TickDeliversAllIff`); 256 sessions with one byte each lose
  everything (`RouterCases.CrowdLosesEverything`).
* Nothing stops `Detach` or a state change from reviving a session that has overstayed
  its limit, been closed or expired (reconnect.go:22-28). The collector is invisible in
  the runs that never detach or activate one that is past the limit
  (`Sessions.CollectorInvisibleIff`); where one does, `Sessions.RevivalShowsIff` says
  when a collection shows.
* The echo lock queues a locked session's blocks but also posts the whole frame at
  once (ws.worker.ts:68-79), so such a block reaches the page twice:
  `EchoLock.EverythingIsPostedAtOnce`, and `EchoLock.PostedTwice` for the count. Each
  input starts the queue anew, so the replay is complete exactly when no input finds a
  block queued: `EchoLock.ReplayIff`. The protocol notes (docs/执行与编排协议.md:89-90)
  want it held back.
* One pass of `StripANSI` can leave a new escape; `Diff.OnePassIff` says for which
  texts, by one scan of the input.
* `Broadcast` of the multiexec engine is documented to clone its input, but hands the
  caller's slice to every goroutine (engine.go:24-60), which writes what the slice holds
  when it runs. The shells end as after a synchronous call exactly when the caller leaves
  the slice alone until every goroutine has written (`Multiexec.AsyncWritesAsSyncIff`);
  `Multiexec.RefillShows` is a caller that does not.

## Model

| member | source | states |
|---|---|---|
| Rings.RingBuffer.Write | gateway/internal/router/buffer.go:38-59 | on every open ring: copies as much of the slice as fits before the end of the array and not a byte less, leaves every other cell alone, moves the counter by that count, and reports a full buffer exactly when the free space is smaller than the slice; on a closed ring EOF and no change |
| Rings.RingBuffer.WriteWrapping | gateway/internal/router/buffer.go:101-109 | the intended write, with the two-part copy of `TryRead`: limited to the free space, keeps the bound |
| Rings.RingBuffer.TryRead | gateway/internal/router/buffer.go:79-113 | in every state: takes exactly the oldest min(len, available) bytes across the wrap, leaves the rest of the slice alone, EOF only when empty and closed; panics exactly when the read would pass the end of the array twice, and then takes nothing |
| Rings.ReadTakesOldest | gateway/internal/router/buffer.go:83-112 | the bytes of a read by position: byte i comes from the cell of position read + i, the counter moves by their number, EOF only from an empty closed ring |
| Rings.RingBuffer.Close | gateway/internal/router/buffer.go:127-132 | sets the flag and nothing else |
| Rings.WriteKeepsIffFits | gateway/internal/router/buffer.go:46-58 | a write keeps the bound and every unread byte and appends its accepted prefix if and only if the stored count fits the free space |
| Rings.OverrunReplacesOldest | gateway/internal/router/buffer.go:47-52 | otherwise the bound breaks and the oldest unread byte is replaced by a byte of the slice; only the code as written can get there |
| Rings.OverrunLosesData | gateway/internal/router/buffer.go:46-58 | where the condition fails, some slice of that length loses unread data |
| Rings.OverrunIsReachable | gateway/internal/router/buffer.go:46-52 | for every buffer size: one full write and one more byte overwrite an unread byte |
| Rings.ShortCountWithoutError | gateway/internal/router/buffer.go:55-58 | a short count with a nil error is returned exactly when the slice fits but reaches past the end of the array, and never by the wrapping write |
| Rings.RingRefinesQueue | gateway/internal/router/buffer.go:38-113 | over every sequence of operations the wrapping ring gives the replies and contents of a bounded first-in-first-out queue |
| Rings.BoundedIffAllFit | gateway/internal/router/buffer.go:46-58 | over every sequence, either write: the bound holds throughout if and only if every write fits |
| Rings.RunConserves | gateway/internal/router/buffer.go:38-113 | over every sequence whose writes fit, either write: contents plus accepted bytes equal bytes read plus contents, in order |
| Rings.WrappingAllFit | gateway/internal/router/buffer.go:101-109 | with the two-part write every write of every sequence fits |
| Codec.Serialize | gateway/pkg/codec/frame.go:33-51 | the printing loop over a buffer, for well-formed and malformed frames, including the slice-bounds panic |
| Codec.Deserialize | gateway/pkg/codec/frame.go:53-86 | the parsing loop is the decoding function on every byte string |
| Codec.ParserInvertsPrinter | gateway/pkg/codec/frame.go:33-86 | parsing a printed well-formed frame gives it back, whatever bytes follow |
| Codec.PrinterInvertsParser | gateway/pkg/codec/frame.go:53-86 | whatever is accepted begins with the printed form of the well-formed frame returned |
| Codec.DecodeCharacterized | gateway/pkg/codec/frame.go:33-86 | a frame is returned if and only if it is well-formed and its printed form is a prefix of the input |
| Codec.RoundTripIffWellFormed | gateway/pkg/codec/frame.go:33-86 | the round trip works exactly for frames whose count and length fields are right |
| Codec.PrefixFree | gateway/pkg/codec/frame.go:33-51 | no printed frame is a prefix of another |
| Codec.TruncationRejected | gateway/pkg/codec/frame.go:54-71 | every strict prefix of a printed frame is rejected |
| Codec.WireLayout | gateway/pkg/codec/frame.go:33-51 | the printed bytes of every frame, well-formed or not: type, count, and for each block its id and length by value, most significant byte first, then its data, each block behind the last by that one's length field; the panic exactly when the six bytes of some block do not fit |
| Codec.DecodeReadsCount | gateway/pkg/codec/frame.go:57-80 | with more blocks than the count says, exactly the first `count` are read |
| FrameParser.ParseFrame | frontend/src/workers/parser.ts:21-47 | accepts exactly the inputs that begin with a printed well-formed frame; its views show that frame |
| FrameParser.DecodersAgree | frontend/src/workers/parser.ts:21-47 | any answer that meets the promise of `parseFrame` is the answer of `Deserialize` |
| FrameParser.DecodeBothWays | frontend/src/workers/parser.ts:21-47 | on every buffer both decoders accept or both reject, and give the same type, count, ids, lengths and data |
| BufferPool.Pool.Get | gateway/pkg/buffer/pool.go:33-42 | length zero, capacity of the class; the caller owns the array as long as nothing has been put back while it was waiting |
| BufferPool.Pool.Put | gateway/pkg/buffer/pool.go:44-56 | only full-length buffers of the three classes come back, each to its own class; sole ownership is kept if and only if the buffer was not already waiting |
| BufferPool.SmallestSufficientClass | gateway/pkg/buffer/pool.go:33-42 | a request gets the smallest class that holds it, and is met in full exactly up to 32768 |
| Routing.SweepIsPointwise | gateway/internal/router/router.go:74-116 | in whatever order the buffers are visited, each session gets what it would get alone |
| Routing.OrderIsIrrelevant | gateway/internal/router/router.go:74-116 | two visiting orders lead to the same state and the same bytes and warnings per session |
| Routing.TickDelivers | gateway/internal/router/router.go:106-121 | what a receiver decodes from a tick is the first (blocks mod 256) blocks |
| Routing.BlocksAreContributors | gateway/internal/router/router.go:74-116 | the blocks of a tick are those of the sessions that are known, have unread bytes and are not passed over as slow, judged before the tick, in the order of the visits |
| Routing.TickSends | gateway/internal/router/router.go:74-121 | all messages of a tick in order: first a warning for each session that crosses a mark, as they are visited, then one output frame of the contributing sessions, unless its count wraps to zero |
| Routing.TickDeliversAllIff | gateway/internal/router/router.go:113-121 | a tick delivers all it took from the buffers if and only if at most 255 sessions contribute to it |
| Routing.WideTickDeliversNothing | gateway/internal/router/router.go:113-121 | with a multiple of 256 contributing sessions nothing of the tick is delivered |
| Routing.WarningArrives | gateway/internal/router/router.go:124-139 | every receiver decodes a slow warning to one block under the session's id, whose text an independent reader takes for exactly that id, in decimal, and that flag |
| RouterRuns.Conservation | gateway/internal/router/router.go:67-122 | every run that keeps the buffer, whose writes to it fit and whose ticks have at most 255 contributing sessions; either write, any scratch length, slow sessions drained or not: contents plus accepted bytes equal the bytes decoded from the broadcasts plus contents |
| RouterRuns.BoundedForIffAllFit | gateway/internal/router/buffer.go:46-58 | in every run of the router a buffer keeps its bound if and only if every write to it fits |
| RouterRuns.DesignedConservation | gateway/internal/router/router.go:67-122 | the designed router conserves every run from a new buffer with at most 255 buffers, without further conditions |
| RouterRuns.EmptyScratchDeliversNothing | gateway/internal/router/router.go:98-103 | with the zero-length scratch slice no run delivers any output |
| RouterRuns.TickFollowsWatermarks | gateway/internal/router/router.go:83-102 | at or above high slow, at or below low normal, between unchanged; one warning per change; no output and no read for a slow session; otherwise exactly min(scratch, available) bytes |
| RouterRuns.WarningsAlternate | gateway/internal/router/router.go:84-90 | over every run a session's warnings strictly alternate from its first flag to its last |
| RouterRuns.SlowForever | gateway/internal/router/router.go:92-95 | as written a slow session above the low mark stays slow in every run, gets no output and no further warning |
| RouterRuns.SlowMeansStuck | gateway/internal/router/router.go:83-95 | every slow session a run leads to is in that state |
| RouterRuns.OnceSlowAlwaysSlow | gateway/internal/router/router.go:83-95 | once a run has made a session slow, every continuation leaves it slow and unserved |
| RouterRuns.DrainedRecovers | docs/性能与容量设计.md:28-31 | drained and with its producer paused, the backlog after m ticks and the flag after m ticks, exactly |
| RouterRuns.RecoveryBound | docs/性能与容量设计.md:31 | the flag clears exactly at the tick after ceil((backlog - low) / scratch) draining ticks |
| RouterCases.CrowdLosesEverything | gateway/internal/router/router.go:97-121 | a run from the empty router to 256 sessions with one byte each, whose next tick empties every buffer and delivers nothing to anyone |
| RouterCases.FillingUpSticks | gateway/internal/router/router.go:83-95 | one write up to the high mark and one tick lead a new buffer into the state that is never served again, with either write and any other sessions |
| RouterCases.AsWrittenStalls | gateway/internal/router/router.go:83-95 | in the shipped configuration 891289 bytes and a tick lead there from a new buffer of 1048576, and it is for ever: no further warning in any run that keeps the buffer and session |
| RouterCases.AsWrittenDeliversNothing | gateway/internal/router/router.go:98-103 | in the shipped configuration no run delivers any output |
| RouterCases.DesignedRecovers | docs/性能与容量设计.md:28-31 | in the designed configuration the flag of a paused session clears exactly one tick after its backlog, at 4096 bytes a tick, is down to 524288 |
| Routers.Router.RegisterBuffer | gateway/internal/router/router.go:36-40 | a new, empty, unshared buffer under the id; the others stay as they are |
| Routers.Router.UnregisterBuffer | gateway/internal/router/router.go:42-44 | the id's buffer goes, the others stay |
| Routers.Router.SendSlowWarning | gateway/internal/router/router.go:124-139 | hands the hub the bytes of the warning frame, which `Routing.WarningArrives` reads |
| Routers.Router.ReadBlock | gateway/internal/router/router.go:97-112 | the block read through the pooled array is a copy: it is no array of the pool, and the pool's array is back |
| Routers.Router.VisitKeeping | gateway/internal/router/router.go:97-112 | a later visit, reusing the same pooled array, leaves all blocks collected before as they were |
| Routers.Router.VisitBuffer | gateway/internal/router/router.go:74-116 | the closure passed to `Range`, in the heap, does what the tick function says |
| Routers.Router.Aggregate | gateway/internal/router/router.go:67-122 | a whole tick over objects: new state, and the exact bytes handed to the hub, in order |
| RouterObjects.Perform | gateway/internal/router/router.go:36-122 | any one call on the router, its buffers or the registry leads from objects that show a state to objects that show the next state, and hands the hub the bytes of that step |
| RouterObjects.PerformAll | gateway/internal/router/router.go:36-122 | so does any sequence of calls: runs over the objects are the runs the router theorems are about |
| RateLimiting.RateLimiter.Allow | gateway/internal/resource/rate_limiter.go:23-46 | admits when fewer than `max` times are left after the filter; the address then holds these times, and the new one if admitted, and no other address changes |
| RateLimiting.RateLimiter.Cleanup | gateway/internal/resource/rate_limiter.go:48-68 | every address is pruned, and dropped when nothing is left, in any order |
| RateLimiting.RecentIsFiltered | gateway/internal/resource/rate_limiter.go:30-36 | the filter keeps every time after the cutoff and no other, in order |
| RateLimiting.AnswersFollowHistory | gateway/internal/resource/rate_limiter.go:27-45 | in every run each answer is yes if and only if fewer than `max` of all requests ever admitted for the address lie in the window ending now |
| RateLimiting.CleanupIsInvisible | gateway/internal/resource/rate_limiter.go:48-68 | cleanups inserted anywhere change no answer |
| RateLimiting.OtherAddressesAreInvisible | gateway/internal/resource/rate_limiter.go:23-46 | the answers to one address are those of a run with that address alone |
| RateLimiting.RateBound | gateway/internal/resource/rate_limiter.go:30-45 | every interval as long as the window holds at most `max` admitted requests of one address |
| RateLimiting.EntriesStaySmall | gateway/internal/resource/rate_limiter.go:30-44 | in every run, with any clock and a `max` that is not negative, no address ever has more than `max` times in the log |
| RateLimiting.CleanupLeavesWindow | gateway/internal/resource/rate_limiter.go:48-68 | after a cleanup the log holds, for every address, exactly the admissions of the window that ends then, and no entry for an address without one |
| Sessions.Session.Detach | gateway/internal/session/reconnect.go:22-28 | detached, with the time of it |
| Sessions.Session.Attach | gateway/internal/session/reconnect.go:65-81 | succeeds exactly when `CanReconnect` would at the first clock reading, and takes down the second; a late attempt expires the session |
| Sessions.Manager.Register | gateway/internal/session/manager.go:52-54 | stored under its own id |
| Sessions.Manager.Unregister | gateway/internal/session/manager.go:56-58 | the id goes, nothing else |
| Sessions.Manager.Get | gateway/internal/session/manager.go:60-66 | the stored object, or none |
| Sessions.Manager.Cleanup | gateway/internal/session/manager.go:42-50 | removes exactly the sessions detached for longer than the limit at the moment each is looked at, in any order |
| Sessions.CollectedIff | gateway/internal/session/manager.go:45-47 | a session is collected if and only if it is detached and strictly past the limit; active, expired and closed ones never are |
| Sessions.Manager.HandleReconnect | gateway/internal/session/reconnect.go:94-105 | unknown ids fail; otherwise what `Attach` does, to that session alone |
| Sessions.PassIsCleanup | gateway/internal/session/manager.go:42-50 | a pass of single collections over all sessions, with nothing in between, is one cleanup |
| Sessions.CollectionsInvisibleIff | gateway/internal/session/manager.go:42-50 | for every run and all limits: collections inserted anywhere change no reconnect answer if and only if no session comes back after an event that could have found it overdue |
| Sessions.CollectorInvisibleIff | gateway/internal/session/manager.go:42-50 | over all runs that never detach or activate an inactive session past the reconnect limit, collections are invisible if and only if the collector's limit is at least that limit |
| Sessions.ShippedCollectorIsInvisible | gateway/internal/session/manager.go:9 | with the shipped limits, 600 seconds both (reconnect.go:9), they are |
| Sessions.EarlyCollectionShows | gateway/internal/session/manager.go:45-47 | with a shorter collector limit such a run shows the difference |
| Sessions.RevivalShowsIff | gateway/internal/session/reconnect.go:22-28 | for every session and all times: a collection before it is detached again changes the next answer if and only if it finds the session overdue and the request is within the limit |
| Sessions.SurvivesIff | gateway/internal/session/manager.go:42-50 | a session left to itself is collected if and only if it is detached and some collection finds it overdue; one that is active, expired or closed never is |
| Sessions.ReconnectWindow | gateway/internal/session/reconnect.go:22-28 | detach and reconnect: succeeds exactly within the limit, restores the session, and only once |
| Sessions.GoneStaysGone | gateway/internal/session/reconnect.go:73-76 | a closed, expired or overdue session that is neither revived nor registered anew stays so in every run, and no request brings it back |
| Multiexec.Engine.BroadcastSync | gateway/internal/multiexec/engine.go:68-103 | all sessions after one call; in target order, one error for every target that is unknown, not active, slow or whose write breaks, naming it and the first of these reasons, silence for the source, and no other error |
| Multiexec.Engine.Broadcast | gateway/internal/multiexec/engine.go:25-64 | the same errors but for broken writes, and a goroutine for every other target in order, each with its session and the caller's own array |
| Multiexec.Engine.WriteShared | gateway/internal/multiexec/engine.go:53-60 | a goroutine's write: what the array holds when it runs, to its session and no other, registered or not |
| Multiexec.AsyncWritesAsSyncIff | gateway/internal/multiexec/engine.go:53-60 | in whatever order the goroutines of a call write, the registry ends as after a synchronous call if and only if every one of them found the input unchanged in the shared array |
| Multiexec.RefillShows | gateway/internal/multiexec/engine.go:53-60 | for every healthy target: refilled before the goroutine runs, the array's new bytes reach the shell |
| Multiexec.ShellsReceive | gateway/internal/multiexec/engine.go:74-100 | every shell grows by what reaches it, judged from the state before the call; nothing else changes |
| Multiexec.SyncTellsAll | gateway/internal/multiexec/engine.go:74-100 | the errors of a synchronous call target by target, without reference to the decision function |
| Multiexec.AsyncTellsAll | gateway/internal/multiexec/engine.go:32-61 | the same for an asynchronous one, and which goroutines it starts |
| Multiexec.ErrorsAreOfOutcomes | gateway/internal/multiexec/engine.go:79-99 | one target's write changes no other target's decision: the errors are those judged from the state before the call, in target order |
| Multiexec.Accounting | gateway/internal/multiexec/engine.go:74-102 | skips plus errors plus successful writes equal the number of targets |
| Multiexec.FailureIsIsolated | gateway/internal/multiexec/engine.go:95-99 | how one write goes changes no other target's outcome and no other session |
| Multiexec.HealthyTargetReceives | gateway/internal/multiexec/engine.go:85-96 | a healthy target gets the input once per time it is named; a source, inactive or slow one gets nothing |
| Multiexec.TargetTakes | gateway/internal/multiexec/engine.go:74-99 | with writes that may break: a healthy target gets what each of its writes takes, in order, and any other session nothing |
| Multiexec.StreamIsFifo | gateway/internal/multiexec/engine.go:66-103 | over every run of calls a session's stream grows by what the calls delivered, in call order |
| Hubs.Hub.Register | gateway/internal/server/server.go:60-62 | the next id, wrapping at 2^32, and the connection under it |
| Hubs.IdsCountUp | gateway/internal/server/server.go:60-62 | from a new hub and after any run, registration number n gets the id n mod 2^32, beginning with 1 |
| Hubs.Hub.Unregister | gateway/internal/server/server.go:63-65 | whatever is stored under the connection's id goes, and its channel is closed; panics exactly when it was closed already |
| Hubs.Hub.Broadcast | gateway/internal/server/server.go:70-79 | one non-blocking send to every connection, in any order: queued unless 256 messages wait; panics exactly when some channel is closed, and then only the connections visited before have been sent to |
| Hubs.Conn.Receive | gateway/internal/server/conn.go:60 | the write pump takes the oldest queued message |
| Hubs.SameIdIff | gateway/internal/server/server.go:61 | two registrations share an id if and only if they are a multiple of 2^32 apart; distinct for fewer |
| Hubs.RunStaysSound | gateway/internal/server/server.go:57-79 | in every run links sit under their own ids and no queue exceeds 256 |
| Hubs.FanOut | gateway/internal/server/server.go:57-79 | what a client was sent, then its queue, is what was queued, then the broadcasts that found room, in order |
| Hubs.GapsAreFullQueues | gateway/internal/server/server.go:73-76 | the broadcasts taken are a subsequence of all, short by one per broadcast that found the queue full |
| Hubs.NothingLostIffNoDrop | gateway/internal/server/server.go:73-76 | nothing is lost if and only if no broadcast found the queue full |
| Diff.MatchIsTheEscape | gateway/internal/diff/engine.go:13 | the scanner finds the one escape that can begin at a position, if there is any |
| Diff.PatternByCodes | gateway/internal/diff/engine.go:13 | the pattern by character codes |
| Diff.StripKeepsTheRest | gateway/internal/diff/engine.go:46-48 | cutting a text into kept characters and leftmost non-overlapping matches, in any way, gives the stripped text |
| Diff.EveryTextIsCut | gateway/internal/diff/engine.go:46-48 | every text can be cut so |
| Diff.ChunkLaw | gateway/internal/diff/engine.go:46-48 | text may be stripped in chunks if and only if no suffix of the first chunk is an incomplete escape |
| Diff.PassShortens | gateway/internal/diff/engine.go:46-48 | a pass changes a text exactly when it has an escape, and then shortens it by at least three |
| Diff.OnePassIff | gateway/internal/diff/engine.go:46-48 | one pass is enough if and only if one scan of the input, over the characters between its matches, finds no escape that closes up |
| Diff.OnePassIsNotEnough | gateway/internal/diff/engine.go:46-48 | any escape put behind the ESC of another closes up: one pass leaves the outer one |
| Diff.StripAll | gateway/internal/diff/engine.go:46-48 | repeated passes end, and end without any escape |
| Diff.LinesAreTheText | gateway/internal/diff/engine.go:67-68 | the lines joined by newlines are the text, and none contains a newline |
| Diff.ProcessCleans | gateway/internal/diff/engine.go:58-83 | for any noise filter and digest: the cleaned text is the filtered rest of the raw text after any leftmost cut into escapes and kept characters; lines and digest are that text's; raw text, session and exit code are as given |
| Diff.EscapesVanishIff | gateway/internal/diff/engine.go:46-48 | an escape inserted behind a text leaves the stripped text as it was, whatever follows, if and only if the text does not end in an incomplete escape |
| Diff.EscapesAreNotCompared | gateway/internal/diff/engine.go:58-94 | then nothing of the result changes but the raw text, and the comparison does not see it |
| Diff.CompareSeesLines | gateway/internal/diff/engine.go:58-94 | for every digest: results compare equal if and only if the exit codes are the same and either the cleaned lines are or the digests of the two cleaned texts collide |
| EchoLock.EchoWorker.HandleInput | frontend/src/workers/ws.worker.ts:29-37 | locks every session of the input, clears its queue, and sets the timer |
| EchoLock.EchoWorker.HandleMessage | frontend/src/workers/ws.worker.ts:57-81 | queues the blocks of locked sessions and posts the frame, or posts a confirmation |
| EchoLock.EchoWorker.Release | frontend/src/workers/ws.worker.ts:37-47 | the callback: unlocks, posts and forgets, session by session |
| EchoLock.RunFollowsWindows | frontend/src/workers/ws.worker.ts:29-81 | in every run of inputs, messages and timers in any order, what is posted for a session is what its window says: opened anew by each input, shut by the first timer |
| EchoLock.LockReplays | frontend/src/workers/ws.worker.ts:37-47 | without overlap the release posts exactly the blocks received since the input, once each, in order, and ends the lock |
| EchoLock.ReplayIff | frontend/src/workers/ws.worker.ts:29-81 | over every run: blocks queued plus blocks received while locked equal blocks released plus blocks queued, in order, if and only if no input finds a block in the session's queue; otherwise as many are lost as the inputs found |
| EchoLock.OverlapLoses | frontend/src/workers/ws.worker.ts:31-46 | with overlap the blocks before the later input are never posted, the earlier timer ends the lock, and the later one posts nothing |
| EchoLock.TimersAreConserved | frontend/src/workers/ws.worker.ts:36-47 | over every run each input sets one timer and each timer fires at most once |
| EchoLock.ConfirmationIsForwarded | frontend/src/workers/ws.worker.ts:61-66 | a printed confirmation request is posted as its text and touches nothing else |
| EchoLock.EverythingIsPostedAtOnce | frontend/src/workers/ws.worker.ts:68-79 | every output block is also posted whole when it arrives, locked or not |
| EchoLock.EveryFrameIsPosted | frontend/src/workers/ws.worker.ts:57-81 | over every run, frames of every kind but confirmations are posted whole, and confirmations as the text of their first block, as they arrive and in that order; frames that do not parse are dropped |
| EchoLock.OtherKindsLeaveTheLock | frontend/src/workers/ws.worker.ts:61-78 | only terminal output changes the queues, and no message changes lock or timers |
| EchoLock.ReleaseInOrder | frontend/src/workers/ws.worker.ts:37-46 | a release posts the sessions in the order in which the input names them first |
| EchoLock.PostedTwice | frontend/src/workers/ws.worker.ts:37-79 | over every run, how many blocks reach the page: all that came and again those locked, but for the lost and the still queued; each exactly once if and only if nothing is replayed |
| EndToEnd.TakenDelivers | gateway/internal/server/server.go:70-79 | what a connection takes decodes to all a session's broadcasts carry if and only if no broadcast that finds its queue full carries output of the session |
| EndToEnd.BrowserGetsEverythingIff | gateway/internal/server/server.go:70-79 | under the conditions of `RouterRuns.Conservation`, and for a connection that starts with an empty queue: exactly then is it sent, or has queued, bytes that decode to all a buffer held and accepted, but for what is still in it |
| EndToEnd.WarningReachesPage | frontend/src/workers/ws.worker.ts:57-81 | a slow warning passes the browser's worker to the page as one frame that reads as the id and flag sent, and leaves the lock alone |

## Left out

- The SSH client, the WebSocket upgrade, the pumps' timeouts and closing of `Send`, the HTTP server, configuration, metrics and the graceful handoff: I/O outside the model.
- Direct replies on a connection's `Send` (server.go:186-193): the fan-out theorems are about broadcasts and the write pump's receives only.
- `RingBuffer.Read` and the condition variable: the router reads with `TryRead` only.
- Overflow of the 64-bit read and write counters, which would take 2^63 bytes in one session.
- Routers.Router.Aggregate: is handed the visiting order, and asks that the buffers have at least 4096 bytes; the broadcast is recorded as the bytes handed to the hub.
- Sessions.CollectorInvisibleIff: takes the check and the deletion of one session in `cleanup` as one step; the code reads `LastActiveAt` there without the lock.
- Multiexec.AsyncWritesAsSyncIff: is about one call whose writes all succeed, with the sessions staying registered; how the goroutines of several calls interleave is not promised by the code, and a failed write is only printed.
- Routers.Router.ReadBlock: a buffer put back twice could reach two callers at once; ticks run one after another, and no other user of the pool is modelled.
- Hubs.FanOut: its runs have no channel closed under a registered connection; `Hubs.Hub.Broadcast` says what happens then.
- The 50 ms of the echo lock: a timer is an event that may come at any time after its input, in any order with the others, which covers the browser's order.
- JSON parsing of a confirmation (whether it succeeds is an argument), the JSON of a slow warning beyond its text, and `createResizeFrame`.
- `FilterNoise` and the hashes of the diff engine: arbitrary functions in `Diff.Process`; the SHA-1 field is left out since `Compare` does not read it.
- The risk rules, sensitive-data masking, `ProbeSession`, the circuit breaker and the descriptor guard: single threshold or pattern tests with easy members.
