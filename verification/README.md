# Verification model of agent-proxy-rust

agent-proxy-rust is a local proxy between AI coding agents and upstream model
APIs. Most of it moves bytes; a few small stateful algorithms decide which
upstream serves a request, when one is left alone, what is counted and what it
costs. This project models those algorithms in Dafny and proves what they
guarantee, mostly over whole runs.

Code that updates state in place is modelled as classes and methods with loops,
each proved against a specification function; the theorems are about those
functions. Expression-only code is modelled as functions.

`dafny verify dfyconfig.toml` checks everything.

## Files and main results

| file | subject | main results |
|---|---|---|
| `Selection.dfy`, `ModelRouter.dfy` | channel selection of the model router | the three passes over partitioned, stably sorted candidates pick what a declarative selection says, which is also stated in terms of the counters alone; it is unique and fails exactly in two described cases |
| `RouterRuns.dfy` | routing over runs | a routed request is for an enabled, keyed, unblocked channel; no month sees more responses than its quota and the requests in flight allow; a key is tryable exactly when its latest health signal lets it be |
| `Protocols.dfy`, `ChannelTypes.dfy` | protocol resolution; quota and health types | routing succeeds if and only if a condition on the channel's entries holds; the missing-entry failure cannot be reached |
| `RateLimiter.dfy`, `RateLimiterRuns.dfy` | token bucket | the bucket is exactly the greedy sliding-window limiter, on every channel separately; rejected attempts leave no trace |
| `CircuitBreaker.dfy`, `CircuitBreakerRuns.dfy` | circuit breaker | a request is rejected exactly when a predicate on the history holds; the load on a dead upstream is bounded |
| `ReportReader.dfy`, `ReportRuns.dfy` | incremental report reader | exactly-once accounting if and only if no counting read saw a torn last line; what the reads return adds up to the file |
| `Calendar.dfy`, `Timestamps.dfy`, `TimeWindow.dfy`, `CostStore.dfy` | cost records | text order of RFC 3339 timestamps is time order; filters, pruning and roll-ups select and conserve what they should, with the exact bounds for which they do; a report is made of the records of the last n local dates before now |
| `SseUsage.dfy` | usage extraction from event streams | the usage of a body in closed form over the values its events carry; spacing does not matter |
| `SeedRows.dfy`, `Seed.dfy`, `SeedRuns.dfy`, `SeedConvergence.dfy`, `SeedOrder.dfy` | versioned seed refresh under foreign keys | the version is earned; retries converge if and only if each differing entry succeeds once; with nothing but foreign keys in the way two refreshes converge in any order, or none ever; the order of the entries matters exactly when one waits for rows another supplies or two mappings entries disagree; operator columns survive |
| `Pricing.dfy` | pricing formulas | volume-discount pricing is subadditive; for two tiers subadditivity is exactly that no rate rises |
| `Common.dfy` | shared result types | |

## Where the code and its documentation or intent differ

The model follows the code. Each of these is stated as a theorem.

- The circuit breaker's documentation (circuit_breaker.rs:1-7) promises one probe
  after the cooldown. The half-open state admits every request until an answer
  arrives: `HalfOpenAdmitsEveryRequest`.
- Responses mark health under the channel's name (lib.rs:671-674), selection looks
  it up under the channel's id (lib.rs:294). Failover happens exactly when the two
  are equal: `FailoverIffNameIsId`.
- A quota is called monthly, but only a recorded response resets its counter. An
  exhausted mapping with nothing in flight is never selected again, whatever months
  pass: `ExhaustedStaysExhausted`; `LateResponseResets` says what does bring it back.
- A forced protocol is overridden by the mapping's own constraint:
  `ForcedProtocolHonouredIff`.
- A rejected request is told to retry after the window. That is good advice exactly
  when the limit is not zero: `RetryAfterWindowSucceedsIff`.
- A report line that is still incomplete when another line of the same read counts
  is lost for good: `TornLineIsLost`; `CountedExactlyOnceIff` is the exact condition.
- A prune whose age is beyond what the date library can subtract deletes the whole
  past instead of what is old enough: `PruneMeetsItsPromiseIff`.
- A window that reaches from four-digit years into later ones selects wrongly,
  because later years are written with a sign that sorts first; so does one that
  starts before the date library's reach, because that start becomes the epoch:
  `WindowFilterExactIff`, `RollingReportExactIff`.
- `days = 1` is documented as today from midnight to now. At local midnight that is
  nothing at all: the query leaves the end out (`LocalDateOccursIff`,
  `MidnightReportIsEmpty`, `MidnightInput`).
- The first start files the mappings' hash as `model_mappings`; a newer manifest that
  says `modelMappings` has identical mappings fetched again: `MappingsFetchedAgainIff`.
  The embedded manifest says so too, but the version gate keeps it from mattering
  until a newer one comes.
- A manifest's entries are visited in the order of a hash map, and foreign keys make a
  mapping fail that comes before its new channel, or a model before its new provider.
  `OrderIrrelevantIff` says when that shows, `OneRefreshSufficesIff` when no order can
  fail, and `TwoRefreshesConvergeIff` that a second refresh makes up for it.
- Normalising an event-stream body twice may lose a trailing blank line, though
  extraction never notices: `NormalizeTextIdempotentIff`, `ExtractionIgnoresSpacing`.

## How the outside world appears

- Time is an argument of each step. Runs assume a monotone clock, as the program's
  `Instant` is. The rate limiter's clock is real-valued seconds, the others count
  nanoseconds or, where the program does, Unix seconds.
- JSON parsing, UTF-8 validation and SHA-256 are unknown functions. The theorems
  hold for every such function.
- The files a reader sees, what the network returns for a seed entry and where the
  database fails for a reason of its own are arguments too. Foreign keys are modelled:
  they are taken to be enforced on every connection, at each statement.
- SQLite is assumed to compare text bytewise. The date library is assumed to render
  UTC with four-digit years from 0000 to 9999, the shortest exact fraction of 0, 3, 6
  or 9 digits and `+00:00`, and later or earlier years with a leading sign.

## Model

| member | source | states |
|---|---|---|
| RateLimiter.TokenBucket.constructor | crates/resilience/src/rate_limiter.rs:49-58 | a new bucket is full and refills at max requests per window; a zero window, which divides by zero, is an unbounded rate |
| RateLimiter.TokenBucket.Refill | crates/resilience/src/rate_limiter.rs:72-78 | the bucket afterwards is the specified refill: accrued tokens, capped, clock moved |
| RateLimiter.TokenBucket.TryConsume | crates/resilience/src/rate_limiter.rs:61-69 | admits exactly when the refilled level is at least one, and takes one token then; a rejection only refills |
| RateLimiter.Middleware.CheckRateLimit | crates/resilience/src/rate_limiter.rs:98-115 | only the channel's own bucket changes, created full on first use; a rejection carries the window as retry-after |
| RateLimiter.Middleware.OnRequest | crates/resilience/src/rate_limiter.rs:118-135 | one step of the bucket map; without a selected channel nothing happens |
| RateLimiterRuns.BucketIsSlidingWindow | crates/resilience/src/rate_limiter.rs:29-78 | over any monotone run the outcomes of a new bucket are those of the greedy limiter (admit whenever no window that ends now would exceed its budget), and of no other outcome sequence |
| RateLimiterRuns.MeteredExact | crates/resilience/src/rate_limiter.rs:61-78 | a bucket in any state admits exactly when both its own level and every window leave room |
| RateLimiterRuns.OutcomesByCredit | crates/resilience/src/rate_limiter.rs:61-78 | seconds matter only through the credit they accrue |
| RateLimiterRuns.RateLimitHolds | crates/resilience/src/rate_limiter.rs:29-34 | between any two attempts at times s <= t at most max + (max / window) * (t - s) are admitted |
| RateLimiterRuns.TokensAlwaysInRange | crates/resilience/src/rate_limiter.rs:34-78 | in every run of a new bucket the tokens stay within 0 and the capacity, and capacity and rate never change |
| RateLimiterRuns.RefillsCompose | crates/resilience/src/rate_limiter.rs:72-78 | two lazy refills in a row equal one |
| RateLimiterRuns.RejectionsInvisible | crates/resilience/src/rate_limiter.rs:61-69 | deleting any set of rejected attempts from a run leaves every other outcome as it was |
| RateLimiterRuns.RetryAfterWindowSucceedsIff | crates/resilience/src/rate_limiter.rs:107-113 | after any run, an attempt that waits a whole window is admitted exactly when max requests is at least one |
| RateLimiterRuns.ZeroWindow | crates/resilience/src/rate_limiter.rs:49-78 | a zero window admits everything, or nothing when max requests is zero |
| RateLimiterRuns.UnselectedPass | crates/resilience/src/rate_limiter.rs:118-135 | a request without a selected channel is let through, and the rest of the run is as if it had not been there |
| RateLimiterRuns.ChannelsAreIsolated | crates/resilience/src/rate_limiter.rs:98-115 | in a run over many channels, one channel's outcomes are those of its own bucket on its own attempts |
| RateLimiterRuns.LimiterIsSlidingWindowPerChannel | crates/resilience/src/rate_limiter.rs:98-135 | from start-up, every channel's admissions are those of the greedy limiter over that channel's attempts |
| CircuitBreaker.ChannelCircuit.AllowRequest | crates/resilience/src/circuit_breaker.rs:72-86 | closed and half-open admit; open admits, and turns half-open, exactly when the cooldown has passed |
| CircuitBreaker.ChannelCircuit.RecordSuccess | crates/resilience/src/circuit_breaker.rs:89-93 | back to a new circuit |
| CircuitBreaker.ChannelCircuit.RecordFailure | crates/resilience/src/circuit_breaker.rs:96-102 | one more failure; at the threshold the circuit opens now |
| CircuitBreaker.Middleware.EntryFor | crates/resilience/src/circuit_breaker.rs:146-148 | the channel's circuit, created closed; no other circuit changes |
| CircuitBreaker.Middleware.OnRequest | crates/resilience/src/circuit_breaker.rs:129-157 | one request step of the circuit map; rejected with the channel's name exactly when its circuit does not allow it |
| CircuitBreaker.Middleware.OnResponse | crates/resilience/src/circuit_breaker.rs:159-187 | one response step: 5xx and 429 count as failures, everything else resets |
| CircuitBreakerRuns.CircuitRepresentsHistory | crates/resilience/src/circuit_breaker.rs:72-102 | after any interleaving all of the circuit's fields are those the channel's history determines: trailing 5xx and 429 responses, the time of the last one, and whether a request has come a cooldown later |
| CircuitBreakerRuns.RejectsExactlyWhenTripped | crates/resilience/src/circuit_breaker.rs:129-187 | a request is rejected if and only if the channel's trailing run of 5xx and 429 responses has reached the threshold and the cooldown has not passed since the last of them |
| CircuitBreakerRuns.HalfOpenAdmitsEveryRequest | crates/resilience/src/circuit_breaker.rs:1-7 | once a request would be admitted, any number of unanswered requests before it leaves it admitted: there is no single probe |
| CircuitBreakerRuns.UnselectedPass | crates/resilience/src/circuit_breaker.rs:134-143 | without a selected channel a request is let through and no circuit changes |
| CircuitBreakerRuns.DeadCircuitIsTheMiddlewares | crates/resilience/src/circuit_breaker.rs:129-187 | the circuit of a sequential client of a dead upstream is the middleware's circuit for that channel |
| CircuitBreakerRuns.DeadInvariant | crates/resilience/src/circuit_breaker.rs:72-102 | each admission beyond the threshold has waited a whole cooldown after the failure before it |
| CircuitBreakerRuns.LoadOnDeadUpstream | crates/resilience/src/circuit_breaker.rs:1-7 | a dead upstream sees at most threshold + T / cooldown requests in time T |
| ChannelTypes.QuotaUsage.RecordUsage | crates/model-router/src/types.rs:274-289 | counts one request and its tokens, in a fresh month if the month has changed |
| ChannelTypes.WithinQuotaByCounters | crates/model-router/src/types.rs:292-298 | no quota and an unlimited one are never used up; the other two are while their counter has not reached the limit |
| ChannelTypes.ChannelState.RecordFailure | crates/model-router/src/types.rs:344-350 | one more failure; from the third on the channel is unhealthy since now |
| ChannelTypes.ChannelState.RecordSuccess | crates/model-router/src/types.rs:354-358 | healthy with no failures |
| ChannelTypes.ChannelState.MarkUnhealthy | crates/model-router/src/types.rs:361-365 | unhealthy since now with the weight of three failures |
| ChannelTypes.ChannelState.MarkRateLimited | crates/model-router/src/types.rs:371-375 | unhealthy since now with the weight of one failure |
| ChannelTypes.ChannelState.IsTryablePastCooldown | crates/model-router/src/types.rs:383-399 | healthy, or past 30 seconds (one failure), 5 minutes (two) or 15 minutes (three) |
| ChannelTypes.CooldownBySchedule | crates/model-router/src/types.rs:383-430 | an unhealthy channel is left alone for exactly 30 seconds, 5 minutes or 15 minutes, by its failures |
| ChannelTypes.ReachableStandings | crates/model-router/src/types.rs:331-377 | in every reachable state healthy means no failure time and at most two failures, unhealthy means a failure time and at least one |
| ChannelTypes.StandingByWeight | crates/model-router/src/types.rs:344-377 | the failure count of any history is the weight of its last mark or success plus the plain failures since; unhealthy exactly when that mark or three such failures say so |
| ChannelTypes.TryableIsMonotone | crates/model-router/src/types.rs:383-399 | once tryable, tryable at every later time without an event |
| Protocols.FirstOf | crates/model-router/src/lib.rs:584-589 | the first entry whose protocol is one of the names, or none when no entry has such a protocol |
| Protocols.StorageNames | crates/model-router/src/lib.rs:814-834 | the three storage names and the formats they stand for |
| Protocols.ParseInvertsToStr | crates/model-router/src/lib.rs:814-834 | parsing and naming protocols are inverse, and only the named formats parse |
| Protocols.ConstrainedTargetIsListed | crates/model-router/src/lib.rs:565-615 | whatever passes resolution and the mapping's constraint is listed by the channel and allowed by the mapping |
| Protocols.RoutingIsSound | crates/model-router/src/lib.rs:565-618 | a routed request goes to a listed and allowed protocol at the non-empty URL of the first entry for it |
| Protocols.ResolvedTargetAlwaysHasAnEntry | crates/model-router/src/lib.rs:790-804 | the "no protocol entry" failure cannot be reached after resolution |
| Protocols.SupportedFormatPassesThrough | crates/model-router/src/lib.rs:732-738 | without a forced protocol, a client format the channel lists and the mapping allows is kept; only an empty URL can fail |
| Protocols.ForcedProtocolHonouredIff | crates/model-router/src/lib.rs:565-611 | of successful routings, a forced protocol is the target exactly when the mapping allows it |
| Protocols.RoutingSucceedsIff | crates/model-router/src/lib.rs:565-618 | routing succeeds if and only if the preferred name is known and listed and either it is allowed and has a URL or the first allowed name listed is known and has one |
| Protocols.RoutedTargetIs | crates/model-router/src/lib.rs:565-618 | the target of a routed request: the preferred protocol if allowed, else the first the channel lists and the mapping allows |
| Selection.SelectionIsUnique | crates/model-router/src/lib.rs:271-357 | the declarative selection determines its result |
| Selection.DecisiveLeaderExists | crates/model-router/src/lib.rs:281-324 | among any decisive flat-fee candidates one leads all others |
| Selection.MeteredLeaderExists | crates/model-router/src/lib.rs:281-338 | among any usable metered candidates one leads all others |
| Selection.FirstUsableExists | crates/model-router/src/lib.rs:340-354 | where some candidate is usable there is a first one |
| Selection.ChosenCandidates | crates/model-router/src/lib.rs:271-357 | a chosen candidate is keyed and past its cooldown; an exhausted one is chosen only if it falls back and no metered or decisive candidate is usable |
| Selection.SelectionFailsIff | crates/model-router/src/lib.rs:312-357 | selection fails if and only if no candidate is usable or the leading decisive one is an exhausted blocking mapping |
| Selection.SelectsWhatIsPromised | crates/model-router/src/lib.rs:271-357 | selection is exactly what is promised in terms of the counters: the leader of the unspent and the blocking flat-fee candidates, else the leading metered one, else the first usable one, else nothing |
| Selection.LimitlessComesFirst | crates/model-router/src/lib.rs:301-325 | where a usable flat fee has no limit, only an unspent flat fee at or ahead of it is chosen, and only a spent blocking one ahead of it makes selection fail |
| ModelRouter.HealthMap.Entry | crates/model-router/src/lib.rs:408-419 | the state for a key, created healthy; no other state changes |
| ModelRouter.HealthMap.Mark | crates/model-router/src/lib.rs:397-419 | applies a failure event to one key, creating its state if needed |
| ModelRouter.HealthMap.MarkHealthy | crates/model-router/src/lib.rs:390-394 | a success resets an existing state and never creates one |
| ModelRouter.QuotaMap.Entry | crates/model-router/src/lib.rs:303-306 | the counter for a mapping, created fresh; no other counter changes |
| ModelRouter.QuotaMap.Record | crates/model-router/src/lib.rs:680-690 | records a response's usage for one mapping |
| ModelRouter.FindCandidates | crates/model-router/src/lib.rs:253-269 | the two nested loops build the specified candidate list |
| ModelRouter.CandidatesExact | crates/model-router/src/lib.rs:252-269 | a candidate is exactly a mapping for the model on an enabled channel |
| ModelRouter.CandidatesInListOrder | crates/model-router/src/lib.rs:253-269 | candidates stand in channel order: the candidates of a concatenation are the concatenation of the candidates |
| ModelRouter.MatchesInListOrder | crates/model-router/src/lib.rs:262-266 | and in mapping order within a channel, one for each mapping for the model |
| ModelRouter.Partition | crates/model-router/src/lib.rs:277-279 | splits the candidates by billing, each part in list order and complete |
| ModelRouter.ByPriorityOrders | crates/model-router/src/lib.rs:281-283 | the stable sort leaves higher priorities first and list order among equals |
| ModelRouter.Router.HasKey | crates/model-router/src/lib.rs:366-376 | an override decides alone; otherwise some channel with the id has a key |
| ModelRouter.Router.IsUsable | crates/model-router/src/lib.rs:287-296 | keyed, and healthy or past its cooldown |
| ModelRouter.Router.TryFlatFee | crates/model-router/src/lib.rs:286-323 | one step of the first pass: whether the candidate settles the request and how; at most one fresh counter is created |
| ModelRouter.Router.FlatFeePass | crates/model-router/src/lib.rs:285-324 | stops at the first decisive candidate in the sorted order, if any |
| ModelRouter.Router.MeteredPass | crates/model-router/src/lib.rs:326-338 | stops at the first usable metered candidate in the sorted order, if any |
| ModelRouter.Router.LastResortPass | crates/model-router/src/lib.rs:340-354 | the first usable candidate in list order, if any |
| ModelRouter.Router.SelectBeyondFlatFee | crates/model-router/src/lib.rs:326-358 | when nothing is decisive the second and third passes give the declarative selection |
| ModelRouter.Router.SelectChannel | crates/model-router/src/lib.rs:272-357 | the result is the declarative selection on the state before the call; only fresh quota counters are added |
| ModelRouter.Router.Resolve | crates/model-router/src/lib.rs:564-660 | the routing of a chosen candidate: URL, target, key override before stored key, and the mapping's data |
| ModelRouter.Router.OnRequest | crates/model-router/src/lib.rs:514-664 | the outcome is the selected candidate's routing or a described failure; nothing but fresh quota counters is added |
| ModelRouter.Router.MarkStatus | crates/model-router/src/lib.rs:692-719 | 5xx and 401 mark unhealthy, 429 rate-limited, other 4xx nothing, the rest healthy |
| ModelRouter.Router.OnResponse | crates/model-router/src/lib.rs:666-722 | counts quota for a flat-fee mapping and marks health under the channel's name; nothing else changes |
| ModelRouter.SelectionSameWithFreshCounters | crates/model-router/src/lib.rs:301-308 | counters created by looking never change any selection |
| RouterRuns.RoutedRequestIsSound | crates/model-router/src/lib.rs:514-664 | a routed request is for a mapping of the requested model on an enabled channel that is keyed and past its cooldown, with the key in force (the override first), at the URL and path of its first allowed entry; with distinct channel ids its key is not empty |
| RouterRuns.ResponseTouches | crates/model-router/src/lib.rs:666-722 | a response touches the health of the channel's name only and, for a flat fee, its mapping's counter only, which grows by one request and the tokens or starts again in a new month |
| RouterRuns.SelectionNeedsQuota | crates/model-router/src/lib.rs:301-325 | a guarded mapping is started only while it has quota left |
| RouterRuns.RequestQuotaHolds | crates/model-router/src/types.rs:273-298 | over all runs with at most k requests in flight, any aborts and month changes, a guarded mapping's counter plus its requests in flight never exceeds Q - 1 + k |
| RouterRuns.TokenQuotaHolds | crates/model-router/src/types.rs:273-298 | the same for tokens with at most M a response: its token counter plus M per request in flight never exceeds Q - 1 + k * M |
| RouterRuns.CountersCountResponses | crates/model-router/src/types.rs:273-289 | in every run the counter of a mapping is the number of responses recorded for it since the month last changed, and its tokens are their sum |
| RouterRuns.MonthIsRun | crates/model-router/src/types.rs:258-289 | where months only go forward, a month's responses are those since the month last changed |
| RouterRuns.MonthlyResponsesBounded | crates/model-router/src/types.rs:273-298 | over any run with at most k requests in flight, no month sees more than Q - 1 + k responses recorded for a guarded mapping |
| RouterRuns.MonthlyTokensBounded | crates/model-router/src/types.rs:273-298 | nor, with at most M tokens a response, more than Q - 1 + k * M tokens |
| RouterRuns.ExhaustedStaysExhausted | crates/model-router/src/types.rs:273-298 | exhausted with nothing in flight is for ever, whatever months go by |
| RouterRuns.LateResponseResets | crates/model-router/src/types.rs:273-289 | a late response ends the exhaustion exactly when it comes in another month and does not use up the new quota |
| RouterRuns.HealthIsLatestSignal | crates/model-router/src/lib.rs:692-719 | for any history of responses and probes a key is tryable if and only if the block of its latest decisive signal is over: 900 s after 5xx, 401 or a failed probe, 30 s after 429, none after a success |
| RouterRuns.SelectedChannelsAreNotBlocked | crates/model-router/src/lib.rs:286-357 | selection never picks a channel whose id is blocked by its latest signal |
| RouterRuns.UnblockedMeansUsable | crates/model-router/src/lib.rs:366-388 | a candidate is usable exactly when it is keyed and its block is over |
| RouterRuns.UsableIff | crates/model-router/src/lib.rs:366-388 | with distinct ids, usable means that the key in force is not empty and the block is over |
| RouterRuns.FailoverIffNameIsId | crates/model-router/src/lib.rs:666-719 | a server error takes a channel out of selection for 15 minutes if and only if its name equals its id |
| ReportReader.Reader.ConsumeReport | crates/core/src/report.rs:147-247 | one read: what it returns, and the new cursor of this session only |
| ReportReader.Reader.ScanLines | crates/core/src/report.rs:188-236 | the line scan counts the parsable lines that start at or after the cursor and takes metadata from all |
| ReportReader.Reader.AddEntry | crates/core/src/report.rs:207-235 | metadata from the first line that has it; savings, by category, only from new lines |
| ReportReader.SanitizeKeepsSafe | crates/core/src/report.rs:152-157 | the file name keeps exactly the letters, digits, dashes and underscores of the session id, in order |
| ReportReader.SafeNameIsFirst128 | crates/core/src/report.rs:156 | and the first 128 of them |
| ReportRuns.ReturnedSavings | crates/core/src/report.rs:218-247 | the four savings fields of one result are those of the lines it counts; no result means that none counted |
| ReportRuns.ReturnsNothingIff | crates/core/src/report.rs:244-250 | a read returns nothing if and only if no line counts and no line of the file has a project or a user |
| ReportRuns.CountedAtMostOnce | crates/core/src/report.rs:176-242 | over any reads of a file that does not shrink, torn or not, counted lines start at strictly increasing offsets below the cursor |
| ReportRuns.CountedIsPrefixIff | crates/core/src/report.rs:176-242 | what was counted is what the final file holds below the cursor if and only if no counting read saw a torn last line |
| ReportRuns.CountedExactlyOnceIff | crates/core/src/report.rs:176-242 | after a read of the final file every parsable line was counted exactly once, in order, if and only if no counting read saw a torn last line |
| ReportRuns.WholeLinesAreAccounted | crates/core/src/report.rs:176-242 | appends that end on line boundaries are accounted exactly, in total and per category |
| ReportRuns.ReportedIsCounted | crates/core/src/report.rs:218-226 | the sums of the four savings fields of what the reads return are the savings of the counted lines, in total and per operation name |
| ReportRuns.ReportedSavingsAddUp | crates/core/src/report.rs:133-146 | with whole-line appends the sums of the four returned fields are the savings in the file, in total and for the three operation names |
| ReportRuns.TornLineIsLost | crates/core/src/report.rs:238-242 | a line that was incomplete and unparsable in a counting read is never counted afterwards |
| Timestamps.FractionOrder | crates/cost/src/lib.rs:167 | fractions of different digit counts, followed by the zone, compare as the fractions they denote |
| Timestamps.TextOrderIsTimeOrder | crates/storage-sqlite/src/lib.rs:1158-1168 | for years 0000 to 9999 the text comparison of timestamps is the comparison of instants |
| Timestamps.TextDeterminesTime | crates/storage-sqlite/src/lib.rs:1158-1168 | distinct instants have distinct texts |
| Timestamps.OnEpochDay | crates/cost/src/lib.rs:167 | the text of 1970-01-01: date, separators and time |
| Timestamps.TimeTextForm | crates/cost/src/lib.rs:167 | the text of a time, with its separators |
| Timestamps.FractionForms | crates/cost/src/lib.rs:167 | the fraction has 0, 3, 6 or 9 digits, the fewest that are exact, and the zone follows |
| Calendar.EpochDay | crates/storage-sqlite/src/lib.rs:1234-1242 | day 719528 is exactly 1970-01-01, the origin of Unix seconds |
| CostStore.WindowFilterExactIff | crates/storage-sqlite/src/lib.rs:1158-1168 | over all years 0000 to 9999, the text filter selects exactly the instants of its window if and only if the window is sound: both bounds in the date library's reach and not leading from four-digit years into later ones, or a bound out of reach (which becomes the epoch) where that changes nothing |
| CostStore.SelectionIsByTime | crates/storage-sqlite/src/lib.rs:1232-1277 | over a sound window each stored record is selected, as often as it was stored, exactly when its instant and project match |
| CostStore.PruneIsByTime | crates/storage-sqlite/src/lib.rs:1324-1332 | each record survives a prune, as often as it was there, exactly when its instant is not before the cutoff |
| CostStore.PruneMeetsItsPromiseIff | crates/storage-sqlite/src/lib.rs:1323-1333 | of the past, exactly what is older than the given days is deleted if and only if the date library can subtract that many days |
| CostStore.Store.InsertCostRecord | crates/storage-sqlite/src/lib.rs:1033-1064 | appends the record with the rendering of the current instant (crates/cost/src/lib.rs:167) |
| CostStore.Store.PruneCostRecords | crates/storage-sqlite/src/lib.rs:1314-1339 | the rows left are the kept ones and the count is that of the rows deleted |
| CostStore.Store.SelectWindow | crates/storage-sqlite/src/lib.rs:1261-1277 | the rows of the WHERE clause, in storage order |
| CostStore.Store.AggregateCosts | crates/storage-sqlite/src/lib.rs:1228-1277 | one row per occurring group, with that group's totals |
| CostStore.SameGroupIff | crates/storage-sqlite/src/lib.rs:1248-1262 | two records fall in one group exactly when they agree on the columns of its GROUP BY clause |
| CostStore.TimeGroups | crates/storage-sqlite/src/lib.rs:1260-1261 | an hourly row is one hour of the UTC clock and a daily row one UTC date |
| CostStore.TotalsByColumn | crates/storage-sqlite/src/lib.rs:1264-1275 | each total is the sum of its own column over the group's rows, and the count their number |
| CostStore.GroupsTotalTheirRecords | crates/storage-sqlite/src/lib.rs:1264-1277 | any choice of roll-up rows totals the records that fall in them |
| CostStore.RollUpConserves | crates/storage-sqlite/src/lib.rs:1247-1277 | in every grouping the totals sum to the totals of the records that went in |
| CostStore.DailyIsSumOfHourly | crates/storage-sqlite/src/lib.rs:1260-1261 | each daily row is the sum of the hourly rows whose key extends its key |
| TimeWindow.CalendarWindowCoversLocalDates | apps/server/src/admin.rs:853-892 | a calendar window starts at a local midnight of the clamped offset; in it, end left out, lies exactly what is before now on one of the last max(days, 1) local dates |
| TimeWindow.OffsetClamp | apps/server/src/admin.rs:868-871 | offsets are minutes east, clamped to 12 hours west and 14 east |
| TimeWindow.OffsetExamples | apps/server/src/admin.rs:866-883 | the window at noon UTC of the epoch for offsets east and west, and beyond the clamp |
| TimeWindow.LocalDateOccursIff | apps/server/src/admin.rs:858-892 | each earlier one of these dates has an instant in the window, and today has one if and only if it is not local midnight |
| TimeWindow.CalendarReportSelects | apps/server/src/admin.rs:858-892 | over a sound window the records selected are, as often as stored, the project's records from before now on the last max(days, 1) local dates |
| TimeWindow.MidnightReportIsEmpty | apps/server/src/admin.rs:858-892 | a one-day report at local midnight selects nothing, whatever is stored |
| TimeWindow.MidnightInput | crates/storage-sqlite/src/lib.rs:1272-1277 | the epoch, one day, UTC: an empty window and an empty report |
| TimeWindow.RollingReportExactIff | apps/server/src/admin.rs:884 | without an offset, a report is right for every possible record if and only if the date library reaches back to its start |
| SseUsage.MergeUsageFields | crates/core/src/server.rs:820-833 | the loop over the fields, in any order, is the specified merge |
| SseUsage.ExtractUsageFromSse | crates/core/src/server.rs:722-783 | the scan merges the usage values of all events in order; nothing merged is a null result |
| SseUsage.MergeLine | crates/core/src/server.rs:736-776 | one line contributes the usage values of its event, in the order of the branches |
| SseUsage.MergeClosedForm | crates/core/src/server.rs:815-833 | each key holds the last strictly positive number seen for it, or the first value when there was none; the keys are exactly those seen |
| SseUsage.UsagesAreCarried | crates/core/src/server.rs:746-776 | the five branches of the scan are five sources, each a shape of event and a path, in this order |
| SseUsage.CarriedByShape | crates/core/src/server.rs:746-776 | spelled out for every type, with and without choices: which values an event carries |
| SseUsage.OneLineBody | crates/core/src/server.rs:735-745 | a one-line body carries what its event carries; empty data, the end mark and unparsable data carry nothing and give no result |
| SseUsage.ExtractedIsClosedForm | crates/core/src/server.rs:722-783 | each key of a body's usage is the last strictly positive number, or else the first value, among those its events carry at the five sources; the keys are exactly those found there |
| SseUsage.Spaces | crates/core/src/server.rs:797 | white space is that of Unicode; no printing ASCII character is |
| SseUsage.NormalizeLineIdempotent | crates/core/src/server.rs:793-810 | normalising a line twice changes nothing |
| SseUsage.SpacingVariantsNormalizeAlike | crates/core/src/server.rs:786-810 | a line with or without the space after its tag, with or without trailing space, normalises alike |
| SseUsage.LinesOfJoin | crates/core/src/server.rs:811-813 | splitting the joined lines gives them back, but for one trailing empty line |
| SseUsage.UsagesOfNormalizedLines | crates/core/src/server.rs:727-775 | extraction depends on the normalised lines and nothing else |
| SseUsage.SameNormalLinesSameUsage | crates/core/src/server.rs:727-775 | bodies whose lines normalise alike give the same usage |
| SseUsage.ExtractionIgnoresSpacing | crates/core/src/server.rs:727-813 | a body and its normalised form give the same usage |
| SseUsage.NormalizeTextIdempotentIff | crates/core/src/server.rs:793-813 | normalising a whole text twice changes nothing more if and only if it has at most one line or its last line is not blank |
| SeedRows.InsertAllKeepsRows | crates/storage-sqlite/src/seed.rs:413-448 | inserting providers or models changes no existing row, and every listed row finds its key or unique name taken afterwards |
| SeedRows.InsertAllIdempotent | crates/storage-sqlite/src/seed.rs:413-448 | inserting a list again, at any time, changes nothing |
| SeedRows.NewRowIsListed | crates/storage-sqlite/src/seed.rs:413-448 | a new row is a listed one, column by column, with its creation time moved up to now; nothing before it had its key or unique name |
| SeedRows.ChannelAfterUpserts | crates/storage-sqlite/src/seed.rs:449-481 | the row of each id after any list, duplicates included: seed columns of its last entry, other columns its own or, for a new row, its first entry's |
| SeedRows.NewChannelColumns | crates/storage-sqlite/src/seed.rs:449-481 | a new channel has its first entry's key and enabled flag and starts healthy; its seed columns are its last entry's |
| SeedRows.FirstForIsFirst | crates/storage-sqlite/src/seed.rs:454-481 | no entry before the first is for the id |
| SeedRows.LastForIsLast | crates/storage-sqlite/src/seed.rs:454-481 | no entry after the last is for the id |
| SeedRows.OperatorColumnsSurvive | crates/storage-sqlite/src/seed.rs:449-481 | no seed deletes a channel or touches its key, enabled flag, forced protocol, creation time or health columns |
| SeedRows.UpsertChannelsIdempotent | crates/storage-sqlite/src/seed.rs:449-481 | applying a channel list twice equals once, up to update times |
| SeedRows.MappingAfterUpserts | crates/storage-sqlite/src/seed.rs:483-517 | the row of each id after any list: its last entry's columns, or what was there when it is not listed |
| SeedRows.UpsertMappingsIdempotent | crates/storage-sqlite/src/seed.rs:483-517 | applying a mapping list twice equals once |
| SeedRows.LastRowIsLast | crates/storage-sqlite/src/seed.rs:483-517 | the columns an id ends up with are those of the entry after which it is not listed again |
| SeedRows.UpsertsCommuteIff | crates/storage-sqlite/src/seed.rs:483-517 | two mapping lists can be applied in either order if and only if no id ends differently in them |
| SeedRows.InsertResumes | crates/storage-sqlite/src/seed.rs:413-448 | inserting a list again after a first attempt stopped goes on where that stopped, up to creation times |
| SeedRows.OrphansAfterResume | crates/storage-sqlite/migrations/001_init.sql:18-27 | so the foreign-key failures of the second attempt are those of the first from there on |
| SeedRows.InsertedHaveParents | crates/storage-sqlite/migrations/001_init.sql:18-27 | the models that go in refer to stored providers |
| SeedRows.MappedHaveChannels | crates/storage-sqlite/migrations/001_init.sql:57-67 | the mappings that go in refer to stored channels |
| Seed.SeedOps.InsertRows | crates/storage-sqlite/src/seed.rs:413-448 | the insert loop up to the first row that fails: a model whose provider is missing and which is not ignored, or where the database fails otherwise |
| Seed.SeedOps.UpsertChannelRows | crates/storage-sqlite/src/seed.rs:449-481 | the channel loop up to a database failure |
| Seed.SeedOps.UpsertMappingRows | crates/storage-sqlite/src/seed.rs:483-517 | the mapping loop up to the first row whose channel is missing or where the database fails otherwise |
| Seed.SeedOps.UpsertEntry | crates/storage-sqlite/src/seed.rs:406-526 | applies an entry by its name; an unknown name or unparsable body fails and changes nothing |
| Seed.SeedOps.FetchAndApplyEntry | crates/storage-sqlite/src/seed.rs:360-400 | the hash is stored exactly when the body was fetched, matched its hash, was applied to its last row on the tables it found and the hash could be written; the tables afterwards, partial application included |
| Seed.SeedOps.VisitEntry | crates/storage-sqlite/src/seed.rs:283-300 | an entry whose stored hash is the manifest's is skipped without a fetch; otherwise one step of the specified visits, which fails exactly when the entry stays pending |
| Seed.SeedOps.SeedRefresh | crates/storage-sqlite/src/seed.rs:249-315 | for the order in which the entries came: the whole new metadata and tables, and the names fetched; a manifest that is not newer changes and fetches nothing |
| Seed.SeedOps.VisitEntries | crates/storage-sqlite/src/seed.rs:279-300 | the loop visits every entry once in some order, fetches the pending ones, and has errors exactly when some entry is pending afterwards |
| Seed.SeedOps.SeedInit | crates/storage-sqlite/src/seed.rs:164-196 | the whole new metadata and tables of a first start; a version above zero is left alone |
| Seed.SeedOps.ApplyAllEntries | crates/storage-sqlite/src/seed.rs:529-566 | the four entries in order up to the first failure; hashes and source only when all were applied |
| Seed.InitKeepsTables | crates/storage-sqlite/src/seed.rs:529-551 | a first start deletes no row and changes no column of the operator, wherever it stops |
| Seed.RefreshKeepsTables | crates/storage-sqlite/src/seed.rs:283-300 | a refresh, whatever it fetched and wherever its entries stopped, deletes no row and changes no column of the operator |
| Seed.UpsertKeepsTables | crates/storage-sqlite/src/seed.rs:405-526 | applying any number of an entry's rows deletes no row and changes no column of the operator |
| Seed.RefreshKeepsReferences | crates/storage-sqlite/migrations/001_init.sql:18-67 | a refresh, in any order and however far its entries get, keeps every model's provider and every mapping's channel stored |
| Seed.NotYetVisited | crates/storage-sqlite/src/seed.rs:283-289 | an entry not yet visited is as pending as at the start |
| SeedRuns.VersionRisesIff | crates/storage-sqlite/src/seed.rs:265-315 | one refresh raises the version, to the manifest's, if and only if the manifest is newer and every entry's stored hash then matches |
| SeedRuns.RefreshNotes | crates/storage-sqlite/src/seed.rs:302-313 | success notes where and when it came from and clears the error; failure notes the errors only; behind the version gate nothing is noted |
| SeedRuns.OnlyVerifiedBodies | crates/storage-sqlite/src/seed.rs:387-398 | a body that cannot be fetched or whose hash differs changes nothing; one that matches is what gets applied |
| SeedRuns.FailuresAreNotRecorded | crates/storage-sqlite/src/seed.rs:396-403 | an entry that stops at a row, or whose hash cannot be written, is not recorded |
| SeedRuns.VersionIsEarned | crates/storage-sqlite/src/seed.rs:249-315 | over any run the version never falls, and above its start it is that of a manifest of the run all of whose entries matched when it was reached |
| SeedRuns.PendingAfter | crates/storage-sqlite/src/seed.rs:283-313 | after a refresh what is pending is what was pending and whose visit, on the tables it found, did not succeed |
| SeedRuns.FailedRefreshKeepsProgress | crates/storage-sqlite/src/seed.rs:283-313 | a failed refresh keeps the version and its successes; exactly the entries that did not succeed are left |
| SeedRuns.RepeatIsNoOp | crates/storage-sqlite/src/seed.rs:265-273 | after a success a repeat changes and fetches nothing |
| SeedRuns.RetriesConvergeIff | crates/storage-sqlite/src/seed.rs:249-315 | retries of one manifest reach its version if and only if every entry that differed succeeds in at least one of them |
| SeedRuns.FetchedAfterInitIff | crates/storage-sqlite/src/seed.rs:551-561 | after a complete first start, of a newer manifest exactly those entries are fetched that differ from the embedded files, and of those the first start does not name the ones pending before |
| SeedRuns.MappingsFetchedAgainIff | crates/storage-sqlite/src/seed.rs:551-561 | identical mappings are fetched again after a first start if and only if the manifest calls them modelMappings and is newer |
| SeedConvergence.SucceedsIffReady | crates/storage-sqlite/src/seed.rs:360-400 | with nothing but foreign keys in the way, a visit succeeds if and only if no row of the entry is an orphan on the tables it finds |
| SeedConvergence.SuppliedStays | crates/storage-sqlite/src/seed.rs:283-300 | no visit changes whether an entry's rows will find their parents; an entry once ready stays ready |
| SeedConvergence.OneRefreshSufficesIff | crates/storage-sqlite/src/seed.rs:283-315 | one refresh reaches the version in every order if and only if every pending entry is ready as things stand |
| SeedConvergence.TwoRefreshesConvergeIff | crates/storage-sqlite/src/seed.rs:249-315 | two refreshes of a manifest or more reach its version, in any orders, if and only if every pending row's parent is stored or will be by the manifest's own parents entry; otherwise no number does |
| SeedConvergence.SuppliedSucceedsByTwo | crates/storage-sqlite/src/seed.rs:249-315 | an entry whose parents are or will be stored succeeds in the first refresh or in the second |
| SeedConvergence.FirstStartSucceedsIff | crates/storage-sqlite/src/seed.rs:164-196 | a first start whose files parse succeeds if and only if every inserted model's provider and every mapping's channel is stored by then; its tables are then those of the four lists and all four hashes are recorded |
| SeedConvergence.FirstStartOnEmptyIff | crates/storage-sqlite/src/seed.rs:529-551 | on an empty database that is: the mappings' channels are in the channels file and the inserted models' providers among those the providers file stores |
| SeedOrder.WaitsIff | crates/storage-sqlite/migrations/001_init.sql:18-67 | an entry gets further after other visits if and only if it would stop now at a row whose parent those visits supply |
| SeedOrder.SettlesInAnyOrder | crates/storage-sqlite/src/seed.rs:283-300 | where nothing waits, the result of the visits in closed form; the order shows only in the two mappings entries |
| SeedOrder.OrderIrrelevantIff | crates/storage/src/types.rs:444-453 | any two orders leave the same tables, hashes and numbers of applied rows if and only if no pending entry waits for rows another supplies and no two mappings entries disagree |
| Pricing.TierFor | crates/cost/src/lib.rs:542-547 | the first tier that covers the total |
| Pricing.PerTokenAdditive | crates/cost/src/lib.rs:513-534 | per-token cost is additive in usage |
| Pricing.MillionCostsItsRate | crates/cost/src/lib.rs:513-534 | a million tokens of one kind cost that kind's rate, a missing rate counting as zero |
| Pricing.UnitPrices | crates/cost/src/lib.rs:459-508 | what a million tokens or a request costs by each untiered formula, and in which unit |
| Pricing.CharPrices | crates/cost/src/lib.rs:492-501 | a token counts as three quarters of a character, an output token that times the multiplier |
| Pricing.TieredIsItsTier | crates/cost/src/lib.rs:542-567 | tiered by tokens, a usage costs what the first tier whose bound covers its input and output tokens charges; nothing without one or when it is priced by the item |
| Pricing.FlatFormulasAdditive | crates/cost/src/lib.rs:459-508 | every formula but the tiered one is additive up to its per-request part |
| Pricing.TierMonotone | crates/cost/src/lib.rs:536-547 | more input and output tokens never select an earlier tier |
| Pricing.CostAtLaterTier | crates/cost/src/lib.rs:542-567 | with a volume discount, a usage costs at least what a later tier's rates would charge |
| Pricing.TieredSubadditive | crates/cost/src/lib.rs:536-567 | with token prices that never rise from tier to tier, two requests cost at least what their sum costs |
| Pricing.TwoTierSubadditiveIff | crates/cost/src/lib.rs:536-567 | with two token tiers and a bound of at least one, subadditivity for all usages holds if and only if no rate of the second is above the first's |
| Pricing.SubadditiveForcesLastRates | crates/cost/src/lib.rs:536-567 | in any schedule with an unbounded tier, subadditivity forces its rates to be at most those of every tier that some positive token count selects |
| Pricing.RisingRatesAreNotSubadditive | crates/cost/src/lib.rs:536-567 | a concrete schedule on which splitting a request pays |

## Left out

- Counter widths: `u32`, `u64` and `i64` counters are unbounded here; the failure, request and token counters would wrap or panic only after more events than a process sees.
- Floating-point rounding: the bucket's tokens, prices and JSON numbers are reals, so results hold up to rounding.
- Concurrency inside a step: a selection, a recorded response, a report read and a bucket update are each one atomic step. The report file is read before its cursor is locked, so two overlapping reads of one session are outside the model.
- The HTTP server, forwarding, authentication, logging, admin handlers and the probes' network calls; a probe appears only through what it writes to the health map.
- Protocol conversion and compression, which wrap external crates.
- Retry backoff, token estimation, model aliases, middleware order, agent detection and error-to-status mapping, which would add easy members only.
- Loading and reloading channels from storage and parsing their billing and pricing JSON; the pricing of a metered mapping is opaque text here.
- What `on_request` leaves behind when it fails after selection: the rewritten body and the target protocol already stored in the connection context.
- The token count taken from a response body is an argument of `OnResponse`.
- Flat-fee selections of a quota run are guarded: every candidate with the mapping's id carries the quota and blocks, or a metered candidate is usable. Without that the last pass may select an exhausted mapping, as `ChosenCandidates` says.
- Reports of a file that shrinks: the cursor reset is in `ConsumeReport`, the run theorems are about files that only grow.
- The report line's trimming and the entry fields copied into the breakdown are part of the unknown parser and of an opaque text.
- The query's other filters (user, project, model, channel), its descending order, limit and offset, and the order of aggregate rows by cost.
- The displayed keys of the two project-model groupings: grouping leaves out their month and hour, so only conservation is stated for them. A SUM over no rows has no group and does not occur.
- Timestamps outside years 0000 to 9999: only the sign they start with is modelled, which decides every comparison with the records a proxy writes. The date library's reach is an argument that takes in more than those years. The panics of date arithmetic for huge day counts with an offset in `compute_time_range` are not modelled.
- `seed_status`, `seed_check_remote` and the comparison they display.
- Metadata is typed here: the version a number, hashes a map from entry names, where the program keeps decimal text and `name:sha256` keys. The text of joined errors is an argument.
- A failing write of an entry's hash is an argument (`hashFails`); failing writes of the version, the notes or a first start's hashes are not modelled. The clock is read once a refresh or first start, not once an entry.
- Connection and other database failures are the row at which an entry stops; the rows before it stay, as they do without a transaction. A mapping's channel is checked on every upsert, where the database skips the check for an unchanged column; by `RefreshKeepsReferences` that check cannot fail.
- `TwoRefreshesConvergeIff` and `OneRefreshSufficesIff` are about refreshes in which only foreign keys can fail; `RetriesConvergeIff` covers all other failures.
- Several extractors of usage from one response body, which read fixed fields, and the subscription cost, which is constant.
