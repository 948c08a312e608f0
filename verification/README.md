# Verification of the frontend router

A Dafny 4.11 model of the stateful parts of the frontend router, with proofs about whole runs of them.
`dafny verify dfyconfig.toml` checks everything.

Each stateful part is modelled twice and tied together: a class whose fields and methods follow the Go
code, loops included, and specification functions on values. Every method's `ensures` equates the object's
new state with the specification function of its old state; the theorems about runs are stated over those
functions, and most of them say what a state means in terms of the events that led to it. Map iteration is an arbitrary choice of the next key, and the results do not depend on it.

| files | part |
|---|---|
| `ask_user.dfy`, `question_bridge.dfy`, `ask_protocol.dfy`, `ask_protocol_runs.dfy`, `ask_protocol_history.dfy` | the ask_user protocol: `Execute`, the WebSocket bridge, the response handler. `Execute` and the handler are split at their lock and channel operations; one pass of the bridge's loop is one step |
| `ws_hub.dfy`, `ws_hub_runs.dfy` | the WebSocket hub and its clients' bounded queues |
| `map_sums.dfy`, `rate_limiter.dfy`, `rate_limiter_runs.dfy`, `rate_limiter_history.dfy` | connection and abuse accounting |
| `connection_tracker.dfy` | the WebSocket validator's connection tracker over its rate limiter |
| `circuit_breaker.dfy`, `retry.dfy` | the circuit breaker with concurrent calls, and `Retry` |
| `fixed_window.dfy` | the per-IP fixed-window limiter |
| `json_scanner.dfy`, `json_nesting.dfy`, `json_text.dfy` | the JSON structure scanner, against proper nesting and the grammar of RFC 8259, sections 2 to 7 |
| `utf8.dfy`, `truncation.dfy` | UTF-8 validation and truncation, against section 4 of RFC 3629 |
| `escaping.dfy` | JSON escaping, against section 7 of RFC 8259 |
| `options.dfy` | the option type |

## Assumptions

- Request IDs, WebSocket client IDs and tracked connection IDs are fresh when they are handed out. The code
  makes them from the clock and calls them unique.
- Each method body runs atomically, except in the ask_user protocol, where every locked section and every
  channel operation of `Execute` and of the response handler is a step of its own. One pass of the bridge's
  loop is one step there: taking a message, queueing a response and updating the active questions are merged.
  `clock` values are integers (nanosecond ticks) read once per call
  (twice per call of `Execute` of the breaker), and do not go back.
- A token bucket's `Allow`, and which ready case a `select` takes, are arbitrary.
- `maxFailures >= 1` and `resetTimeout > 0` for the breaker, and a positive window for the fixed-window
  limiter's count within one window and its bound with both ends of the interval.
- Strings are byte strings in the scanner and the truncation (`byte` is an integer below 256). In the escaping
  they are sequences of characters; its patterns are ASCII, so this makes no difference. Counters are
  unbounded integers; the one place where a machine integer's width shows, the doubling backoff of `Retry`,
  wraps at 64 bits.

## Where the code does not do what is expected of it

- **A send can meet a closed response channel.** `HandleUserResponse` looks the channel up under the lock and
  sends outside it, and its log message expects a "channel full or closed" to reach the default case. A closed
  channel makes the send panic instead. `AskProtocolRuns.SendCanMeetClosed` gives a run, and
  `AskProtocolRuns.SendMeetsClosedIff` says exactly when it happens. Between the removal from
  `pendingRequests` and the close, a channel is open without being pending: the two halves of Execute's
  cleanup are separate steps, and `ChannelLifecycle` relates each fact to its own half.
- **The per-IP limit can be exceeded** by a client ID that presents a second address, because an existing
  client is counted against its first address: `RateLimiterRuns.PerIPLimitCanBeExceeded`, with the exact
  condition in `PerIPKeptIff`.
- **The tracker's cleanup leaks limiter slots.** It drops inactive connections without telling the limiter:
  `ConnectionTracking.TrackedWithinLimit`, `CleanupKeepsCountIff` and `LeaksAreForever`. And since
  `removeConnection` is called only for a connection just refused
  (`internal/validation/websocket_middleware.go:240`), no accepted connection is ever given back: one validator
  accepts at most `maxConnections` in its whole lifetime, by `LifetimeLimit`.
- **An auto-block can be forgotten** by the limiter's cleanup when it is longer than the client expiry:
  `RateLimiterRuns.AutoBlockPersistsIff`. The defaults are safe.
- **The breaker does not wait for all half-open calls to succeed**, as its comment says it does. It closes at
  the first success recorded once the quota of probes is used, and then all calls of the episode have succeeded
  iff no other of them is in flight: `CircuitBreakers.ClosesOnceQuotaUsed`, with a run in
  `ClosesWithProbesInFlight`. For callers one at a time it closes exactly at the `halfOpenMaxCalls + 1`-th
  success in a row: `OneAtATimeClosesAtStreak`.
- **Escaped text is JSON only without other control characters**: `Escaping.RoundTrip`.
- **Truncation stops at a genuine U+FFFD**, which `isValidUTF8` cannot tell from an invalid byte:
  `Truncation.LosesAtMostThreeBytes` gives the exact condition.
- **The scanner accepts more than JSON**: `JsonText.AcceptsMoreThanJson`. What nests properly is accepted, and
  what is accepted nests properly in its braces and in its brackets, each on their own; so acceptance and nesting
  are the same for a text with one kind only outside strings: `JsonNesting.AcceptsIffEachKindNests` and
  `OneKindIsExact`.

## Model

| member | source | states |
|---|---|---|
| AskUser.AskUserTool.Register | internal/tools/ask_user.go:87-95 | Execute registers a new, empty, open channel for a fresh request and touches no other |
| AskUser.AskUserTool.RemovePending | internal/tools/ask_user.go:99-101 | the first half of the cleanup forgets exactly this request and leaves every channel as it was |
| AskUser.AskUserTool.CloseChannel | internal/tools/ask_user.go:102 | the second half closes exactly this request's channel, which must still be open |
| AskUser.AskUserTool.Receive | internal/tools/ask_user.go:115-119 | the select's answer case empties the one-slot channel and yields what was in it |
| AskUser.AskUserTool.Lookup | internal/tools/ask_user.go:133-141 | a channel is found iff the request is pending, and it is the one registered for it |
| AskUser.AskUserTool.Send | internal/tools/ask_user.go:144-152 | the non-blocking send delivers into an open empty channel, drops on a full one and panics on a closed one |
| QuestionBridge.WebSocketToMCP.HandleQuestion | cmd/server/main_monitoring.go:383-422 | without clients the no-clients text is forwarded and nothing changes; otherwise, in any map order, the question becomes active for some client and each client's sender gets it once |
| QuestionBridge.WebSocketToMCP.HandleMessage | cmd/server/main_monitoring.go:438-504 | the effect of each message type on clients, active questions and outgoing frames, and what is forwarded |
| AskProtocol.StepMovesToken | cmd/server/main_monitoring.go:370-473 | no step of any participant copies or loses a request's token |
| AskProtocol.InvariantAt | internal/tools/ask_user.go:92-153 | over every run: tokens in one place each, channels fitting the progress of their Execute calls |
| AskProtocolRuns.TokenConservation | cmd/server/main_monitoring.go:370-473 | over every run each issued request is in exactly one place and others in none, at most one response is forwarded for it, and the "channel full" branch is never taken |
| AskProtocolRuns.DeliveredIsAvailable | internal/tools/ask_user.go:114-119 | an answer delivered to an Execute call that still waits can be taken |
| AskProtocolRuns.ChannelLifecycle | internal/tools/ask_user.go:92-103 | pending iff the removal has not run, open iff the close has not run, each at most once, close after removal, on every exit |
| AskProtocolRuns.SendMeetsClosedIff | internal/tools/ask_user.go:132-152 | a send panics iff its request was removed and closed between this response's lookup and the send; then it left by timeout or cancellation; otherwise the send delivers |
| AskProtocolRuns.SendCanMeetClosed | internal/tools/ask_user.go:97-153 | a run in which the send does panic |
| AskProtocolRuns.FirstAnswerWins | cmd/server/main_monitoring.go:444-473 | an answer Execute returns is the no-clients text of its own dispatch or the text of the first reply naming it after its dispatch, and no other text is possible in that run |
| AskProtocolRuns.DispatchedOnce | cmd/server/main_monitoring.go:370-392 | two dispatches of a request are the same step of the run |
| AskProtocolRuns.EveryKnownClientIsAsked | cmd/server/main_monitoring.go:394-492 | over every run each client has been handed exactly the questions dispatched while it was known and one acknowledgement per connect message of its own, once each and in order |
| AskProtocolRuns.KnownClients | cmd/server/main_monitoring.go:438-441 | a client is known iff it sent a message with a sender and has not disconnected since |
| AskProtocolHistory.LookupFindsIff | internal/tools/ask_user.go:132-141 | over every run a response finds its channel iff its request's removal has not run yet; otherwise it is dropped, and the request had left by timeout or cancellation |
| AskProtocolHistory.DroppedOnlyAfterRemoval | internal/tools/ask_user.go:97-141 | no response is recorded as not found while its Execute call waits or has not run its removal |
| AskProtocolHistory.OneExitEach | internal/tools/ask_user.go:87-128 | each Execute call registers once, queues its question at most once and leaves by exactly one of answer, timeout and cancellation, which alone decides its outcome |
| AskProtocolHistory.QuestionsInOrder | internal/tools/ask_user.go:105-112 | over every run questions are taken in the order they were queued, each with the text its own Execute call was given |
| AskProtocolHistory.ResponsesInOrder | cmd/server/main_monitoring.go:507-520 | over every run the handler receives responses in the order the bridge forwarded them |
| AskProtocolHistory.NoDeadlock | cmd/server/main_monitoring.go:370-473 | in every reachable state, with full queues too, an Execute call that is not done leaves some step of the process enabled, unless it has crashed |
| WsHub.Client.TrySend | internal/wsserver/server.go:225-229 | the non-blocking enqueue appends iff the queue is below capacity; the channel must be open |
| WsHub.Client.SendResponse | internal/wsserver/response_sender.go:11-19 | a response is appended, or dropped when the queue is full, and nothing else changes |
| WsHub.Client.Receive | internal/wsserver/client.go:77-83 | writePump takes messages first in, first out, also from a closed channel until it is drained |
| WsHub.Server.Register | internal/wsserver/server.go:205-208 | a new client joins the registry with an empty open queue |
| WsHub.Server.Unregister | internal/wsserver/server.go:211-218 | a registered client leaves and its channel is closed; for one already removed nothing happens |
| WsHub.Server.OfferToAll | internal/wsserver/server.go:222-231 | in any map order, every registered client gets the message or, with a full queue, is closed and removed |
| WsHub.Server.Broadcast | internal/wsserver/server.go:220-245 | the whole effect of one broadcast, to all clients or to one; only open channels are sent on or closed |
| WsHubRuns.CloseOnce | internal/wsserver/server.go:205-245 | over every run no send or close meets a closed channel, a channel is open iff its client is registered, is closed at most once, and no queue passes 256 |
| WsHubRuns.RemovedForGood | internal/wsserver/server.go:211-217 | a client once removed is in the registry at no later point |
| WsHubRuns.NoGapDelivery | internal/wsserver/server.go:220-245 | a registered client was enqueued every broadcast addressed to it since it connected, in order, whatever responses came between; a removed one got a prefix of them |
| WsHubRuns.RegisteredIff | internal/wsserver/server.go:205-240 | over every run a client is registered iff it connected, has not disconnected, and no broadcast addressed to it met a full queue; otherwise its channel has been closed once |
| WsHubRuns.WritesInOrder | internal/wsserver/client.go:77-83 | over every run writePump has written, one per receive, a prefix of all broadcasts and responses that were put into the queue while it had room, in order, and the rest is queued |
| WsHubRuns.DroppedIffFull | internal/wsserver/server.go:224-240 | a broadcast removes a client iff it is addressed to it and its queue is full, and leaves what is queued |
| MapSums.SumRemove | internal/validation/ratelimit.go:362-378 | a counting loop's total does not depend on the order of the map |
| RateLimiting.RateLimiter.AllowRequest | internal/validation/ratelimit.go:109-165 | the verdict and the new client table for every outcome of the token buckets, the block and the per-IP count |
| RateLimiting.RateLimiter.AllowMessage | internal/validation/ratelimit.go:168-190 | the verdict and the new client table for a message |
| RateLimiting.RateLimiter.AddConnection | internal/validation/ratelimit.go:193-224 | a connection is added iff both limits leave room, and is counted on the client's entry |
| RateLimiting.RateLimiter.RemoveConnection | internal/validation/ratelimit.go:227-238 | one connection less, clamped at zero |
| RateLimiting.RateLimiter.BlockClient | internal/validation/ratelimit.go:241-249 | a known client is blocked until the duration is over; an unknown one changes nothing |
| RateLimiting.RateLimiter.UnblockClient | internal/validation/ratelimit.go:252-260 | a known client's block is lifted; nothing else changes |
| RateLimiting.RateLimiter.Cleanup | internal/validation/ratelimit.go:347-358 | exactly the expired entries without connections are dropped, in any map order |
| RateLimiting.RateLimiter.GetTotalConnections | internal/validation/ratelimit.go:362-368 | the loop computes the sum over all clients |
| RateLimiting.RateLimiter.CountConnectionsForIP | internal/validation/ratelimit.go:370-378 | the loop computes the sum over the clients of one address |
| RateLimiting.TotalsUpdate | internal/validation/ratelimit.go:362-378 | how one entry's change moves the total and every per-address count |
| RateLimiting.CleanupKeepsTotals | internal/validation/ratelimit.go:347-378 | cleanup changes no total, no per-address count and no client's count |
| RateLimiterRuns.ConnectionLimits | internal/validation/ratelimit.go:193-238 | over every run the total stays within maxConnections, and every address within its limit when each client always presents the same one |
| RateLimiterRuns.PerIPKeptIff | internal/validation/ratelimit.go:202-221 | AddConnection keeps every address within its limit iff it refuses, or the client is new or known by this address, or its own address has room |
| RateLimiterRuns.PerIPLimitCanBeExceeded | internal/validation/ratelimit.go:202-221 | two connections of one client from two addresses exceed a per-address limit of one |
| RateLimiterRuns.BracketConservation | internal/validation/ratelimit.go:328-344 | with handlers that add on entry and remove on exit, each client's count is its live handlers, the total is all of them and within the limit, and the clamp never fires |
| RateLimiterRuns.EntersIffRoom | internal/validation/ratelimit.go:193-224 | over every run of handlers one more enters iff fewer than maxConnections are live and fewer than maxConnectionsPerIP count against its address |
| RateLimiterHistory.EntryIsHistory | internal/validation/ratelimit.go:109-260 | over every run, manual blocks included: violations, request and message counts are those since the entry was created, the last activity is the last request, connect or disconnect, and the client serves a block until the end of its last block not lifted |
| RateLimiterHistory.LetThroughIff | internal/validation/ratelimit.go:109-190 | over every run a request passes iff both buckets grant it, its client serves no block and its address has room; a message iff its client is known, its bucket grants it and no block is served |
| RateLimiterHistory.AutoBlockedAtThreshold | internal/validation/ratelimit.go:144-151 | over every run a request refused by its own bucket adds one violation and blocks the client for the configured time iff that violation reaches the threshold |
| RateLimiterHistory.KnownAtEachStep | internal/validation/ratelimit.go:119-358 | over every run a client becomes known by a request or a connection and is forgotten exactly by a cleanup later than the expiry after its last activity, with no connection left |
| RateLimiterRuns.AutoBlockPersistsIff | internal/validation/ratelimit.go:132-180 | an auto-blocked client is refused every request and message until the block ends, whatever happens, iff the block is no longer than the expiry plus one tick |
| ConnectionTracking.WebSocketValidator.ValidateConnection | internal/validation/websocket_middleware.go:233-246 | track, ask the limiter, untrack on refusal: the verdict and the new state of both |
| ConnectionTracking.WebSocketValidator.RemoveConnection | internal/validation/websocket_middleware.go:553-571 | a tracked connection leaves both the tracker and the limiter; an unknown one changes nothing |
| ConnectionTracking.WebSocketValidator.Cleanup | internal/validation/websocket_middleware.go:606-621 | exactly the inactive connections are dropped from the tracker, and the limiter is not told |
| ConnectionTracking.RefusalChangesNothing | internal/validation/websocket_middleware.go:233-242 | a refused connection leaves tracker and limiter as they were |
| ConnectionTracking.TrackedWithinLimit | internal/validation/websocket_middleware.go:207-247 | over every run each tracked connection counts one, the limiter's total is the tracked plus the dropped connections, and the tracked are within maxConnections |
| ConnectionTracking.CleanupKeepsCountIff | internal/validation/websocket_middleware.go:606-621 | cleanup keeps tracker and limiter in step iff it drops nothing |
| ConnectionTracking.TrackedAtEachStep | internal/validation/websocket_middleware.go:207-621 | over every run a connection becomes tracked iff it is validated with room in both limits, and stays so until removed or until a cleanup later than the timeout after its last activity |
| ConnectionTracking.LifetimeLimit | internal/validation/websocket_middleware.go:233-246 | over every run the limiter's total is the connections accepted less those given back; when none is given back, at most maxConnections are accepted in the validator's lifetime and every later one is refused |
| ConnectionTracking.LeaksAreForever | internal/validation/websocket_middleware.go:606-621 | a dropped connection counts one in the limiter at every later point, and once as many as the limit have been dropped every connection is refused |
| CircuitBreakers.CircuitBreaker.Execute | internal/resilience/circuit_breaker.go:85-100 | the function is called iff the call is admitted, and only then its result is recorded |
| CircuitBreakers.CircuitBreaker.AllowCall | internal/resilience/circuit_breaker.go:103-131 | the admission verdict and the new breaker state in each state |
| CircuitBreakers.CircuitBreaker.RecordResult | internal/resilience/circuit_breaker.go:134-182 | the new breaker state for a success or failure in each state |
| CircuitBreakers.CircuitBreaker.Reset | internal/resilience/circuit_breaker.go:204-215 | the breaker is closed with no failures counted |
| CircuitBreakers.BreakerSafety | internal/resilience/circuit_breaker.go:103-182 | over every run with concurrent and late results: closed iff the failures are below the limit, and at most halfOpenMaxCalls + 1 calls per half-open episode |
| CircuitBreakers.HalfOpenNeverSticks | internal/resilience/circuit_breaker.go:121-180 | a half-open breaker that refuses has a call of this episode in flight, and whichever call returns next closes or opens it |
| CircuitBreakers.StateAtEachStep | internal/resilience/circuit_breaker.go:103-215 | over every run with concurrent and late results: it opens from closed exactly at the maxFailures-th failure in a row, half-opens exactly at a call more than resetTimeout past the last failure, opens from half-open at any failure and closes at a success once the episode is full, closes at a reset, and changes state at nothing else |
| CircuitBreakers.AdmittedIff | internal/resilience/circuit_breaker.go:103-131 | over every run a call is admitted iff the breaker is closed, or open with the last failure more than resetTimeout ago, or half-open with room; from open it starts a new episode |
| CircuitBreakers.ClosesOnceQuotaUsed | internal/resilience/circuit_breaker.go:121-180 | over every run with concurrent and late results: a success closes a half-open breaker iff the quota is used, and then every call of the episode has succeeded iff no other of them is in flight |
| CircuitBreakers.OneAtATimeClosesAtStreak | internal/resilience/circuit_breaker.go:85-180 | over every sequence of calls made one at a time, with resets: a breaker that is not closed closes exactly at the success that is the (halfOpenMaxCalls + 1)-th in a row |
| CircuitBreakers.ClosesWithProbesInFlight | internal/resilience/circuit_breaker.go:172-180 | a run that closes the breaker while a probe of the episode is still in flight |
| CircuitBreakers.DeadDependencyBound | internal/resilience/circuit_breaker.go:85-165 | a dependency that always fails is called at most maxFailures + T/(resetTimeout + 1) times, and so at most maxFailures + T/resetTimeout, by time T after the first opening |
| Retries.Retry | internal/resilience/circuit_breaker.go:275-308 | the number of calls is min(first success, first cancelled wait, maxRetries, 4) + 1; the outcome, cancellation exactly when a wait is cancelled before any success and the limits; each wait, wrapped at 64 bits, and their sum, at most 15 times the backoff when nothing wraps |
| Retries.StopsAtFirst | internal/resilience/circuit_breaker.go:280-305 | a loop that stops for the first of these reasons has made that many calls and returns that outcome |
| Retries.DoubledIsPower | internal/resilience/circuit_breaker.go:300-301 | the wait after n doublings is the backoff times 2 to the n, so k calls wait backoff * (2^(k-1) - 1) |
| FixedWindow.RateLimitMiddleware.Handle | internal/middleware/middleware.go:221-250 | one request's sweep, in any map order, and decision |
| FixedWindow.SharedTableRefinesAutomaton | internal/middleware/middleware.go:218-250 | for each IP the shared, swept table decides as a one-client automaton without cleanup does on that IP's own requests |
| FixedWindow.SlidingIntervalBound | internal/middleware/middleware.go:221-250 | over every run one IP gets at most 2 * maxRequests - 1 requests through any interval as long as the window |
| FixedWindow.SlidingBoundIsTight | internal/middleware/middleware.go:233-247 | for every limit and window of at least two ticks a run reaches that bound |
| FixedWindow.ClosedIntervalBound | internal/middleware/middleware.go:221-250 | with both ends of the interval counted, at most 2 * maxRequests |
| FixedWindow.ClosedBoundIsTight | internal/middleware/middleware.go:233-247 | for every limit and positive window a run reaches that bound |
| FixedWindow.FirstOfEachWindow | internal/middleware/middleware.go:221-250 | over every run a request is admitted iff it is among its client's first maxRequests requests of their window, decided from the request times alone |
| FixedWindow.HeldIffRecent | internal/middleware/middleware.go:225-231 | the table holds exactly the clients whose last window opened at most one window ago |
| FixedWindow.OneWindowBound | internal/middleware/middleware.go:221-250 | after every run of the shared, swept table an entry's counter is the number of its client's requests admitted since its window opened, and at most maxRequests |
| JsonScanner.IsValidJSONStructure | internal/validation/request_validation.go:543-588 | the loop with early exit computes the scan's verdict |
| JsonScanner.AcceptsIffBalanced | internal/validation/request_validation.go:580-587 | accepted iff no prefix closes more than it opened outside strings and the whole text closes all |
| JsonNesting.NestedIsAccepted | internal/validation/request_validation.go:549-587 | everything properly nested outside strings is accepted |
| JsonNesting.AcceptsIffEachKindNests | internal/validation/request_validation.go:549-587 | accepted iff the text nests properly without its brackets and without its braces outside strings |
| JsonNesting.OneKindIsExact | internal/validation/request_validation.go:549-587 | with only one kind outside strings, accepted iff properly nested |
| JsonText.TextsNest | internal/validation/request_validation.go:549-587 | every well-formed JSON text is properly nested and ends outside strings |
| JsonText.AcceptsMoreThanJson | internal/validation/request_validation.go:543-588 | an unterminated string and crossed pairs are accepted, and neither is a JSON text |
| JsonText.ValueNeutral | internal/validation/request_validation.go:549-585 | every serialised JSON value returns the scanner to the state it started in, with no counter below zero on the way |
| JsonText.AcceptsEveryJsonText | internal/validation/request_validation.go:543-588 | every well-formed JSON text, with any white space, nesting, escapes and number forms, is accepted |
| Utf8.CharDecodes | internal/validation/input_limits.go:572-580 | a well-formed character decodes whole and gives U+FFFD only if it is U+FFFD |
| Utf8.CutCharIsInvalid | internal/validation/input_limits.go:572-580 | a character cut short decodes to U+FFFD |
| Truncation.IsValidUtf8 | internal/validation/input_limits.go:572-580 | the range loop computes whether no rune decodes to U+FFFD |
| Truncation.AcceptedIffWellFormed | internal/validation/input_limits.go:572-580 | isValidUTF8 accepts exactly the well-formed UTF-8 strings without U+FFFD |
| Truncation.TruncateString | internal/validation/input_limits.go:514-529 | the value itself when it fits, otherwise the longest accepted prefix within the limit |
| Truncation.TruncatesAtBoundary | internal/validation/input_limits.go:519-526 | for well-formed input the result is whole characters free of U+FFFD, and the next character is U+FFFD or does not fit |
| Truncation.LosesAtMostThreeBytes | internal/validation/input_limits.go:519-526 | at most three bytes are lost below the limit iff no U+FFFD starts four or more bytes before it |
| Escaping.FivePassesAreOne | internal/validation/sanitization.go:296-307 | the five sequential replacements equal one simultaneous escape of each character |
| Escaping.RoundTrip | internal/validation/sanitization.go:296-307 | a JSON string reader restores the input, unless it holds a control character other than newline, carriage return and tab; a lenient reader always does |
| Escaping.EscapingIsInjective | internal/validation/sanitization.go:296-307 | different inputs give different results |
| Escaping.ResultIsGuarded | internal/validation/sanitization.go:299-304 | the result holds no raw newline, carriage return or tab, every quote is behind an odd number of backslashes, and no escape is left open at the end |

## Left out

- HTTP and WebSocket transport, upgrades, deadlines, pings, JSON marshalling, logging, metrics and tracing: a message is already parsed, or malformed.
- `Execute`'s parameter checks and timeout duration: a request enters the model when it is registered, and its timeout may fire at any moment. The question handler's error exit cannot happen with the handler installed by main, which always returns nil.
- Shutdown: a bridge, handler or hub that has stopped is a run in which it takes no further step.
- The hub's forwarding of `messageCh` into its own unbuffered `broadcast` channel, which can block the hub on itself; broadcasts arrive from outside, and nothing is claimed about progress.
- `SendResponse` on a client whose channel the hub has just closed, which would panic: responses go to registered clients. In the bridge, a sender is a record of the frames handed to it, so the bridge's clients are not connected with the hub's.
- Data races from unlocked reads of the breaker's state, the middleware's map and the hub's registry: those bodies are taken as atomic.
- Token buckets, ID generation, header parsing for client addresses, the origin, header and subprotocol checks, and the message statistics.
- Manual blocks and unblocks in the persistence of an auto-block, which they override on purpose; they take part in every other run of the limiter.
- The regular-expression sanitisers, size and allow-list checks, health aggregation and error wrappers: they would only add single-branch members.
