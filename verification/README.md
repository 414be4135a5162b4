# Sentio outbound mail: a verified model

Sentio is a mail server written in Rust. This project models the parts of it whose behaviour is decided by code
rather than by I/O: the outbound queue with its delivery engine and retry policies, the SMTP conversation with a
remote host, the connection pool shared by concurrent tasks, the counters that guard against abuse, and the wire
codecs. Everything is stated for all inputs, all behaviours of the environment, and all runs.

How the outside appears in the model:

- **Repositories, blob store, broker, remote servers.** A `World` says how each awaited call ends, as a function of
  how many calls came before it; a statement about all worlds covers every pattern of failures and answers.
  Suppression checks, suppression writes and all other calls can fail independently. The handler's hard timeout is the
  world's `deadline`: calls at or after it never happen. Offers and records in a pass's log carry the number of their
  call, so a statement about the log can say what the world answered to each.
- **Hash maps** are drained in any order. A delivery pass is specified for every admissible order of the domain groups.
- **The broker** hands out any waiting message next and redelivers only what was Nak'd.
- **Concurrent tasks** (pool, warm-up) interleave atomic steps. Semaphores have identities.
- **Clocks** are parameters and never run backwards; random jitter is a parameter in [-1, 1].
- **HMAC, SHA and base64 tokens** are arbitrary functions.
- `f64` is `real`. Integer widths are explicit where they matter: `u32` attempt numbers, saturating and wrapping
  `u64` products, the truncation of the broker's delivery count.

## Files

| file | part of the system |
|---|---|
| `Basics.dfy`, `Text.dfy` | shared types; trimming and splitting of strings |
| `Retry.dfy` | backoff policy |
| `Delivery.dfy`, `DeliveryFacts.dfy`, `Engine.dfy` | one delivery pass: specification, its properties, the engine object proved against it |
| `Outcomes.dfy`, `Offering.dfy`, `Results.dfy`, `Reports.dfy` | what a pass reports, whom it offers, what it answers and sends, read off its events |
| `Overrides.dfy` | per-domain retry settings and the spelling of domains |
| `Queue.dfy`, `Persistence.dfy`, `Statuses.dfy`, `Suppression.dfy`, `Turns.dfy`, `Consumer.dfy` | the queue as a transition system, whole-run theorems, what one turn does with a message, the consumer loop |
| `Session.dfy` | the SMTP conversation |
| `Pool.dfy`, `PoolProgress.dfy`, `PoolLimits.dfy`, `PoolAge.dfy`, `PoolReuse.dfy`, `PoolObject.dfy` | connection pool: invariant, progress, limits and evictions, ages, reuse of idle connections, the pool object |
| `Kv.dfy`, `RateGuard.dfy`, `Reputation.dfy`, `ReputationRace.dfy`, `Warmup.dfy` | key-value store with expiry and its three clients |
| `DotStuffing.dfy`, `Replies.dfy`, `Xtext.dfy`, `Spki.dfy`, `Verp.dfy`, `Tracking.dfy` | wire codecs |
| `Dsn.dfy`, `DsnFields.dfy`, `DsnFolding.dfy`, `DsnNames.dfy`, `DsnRoundTrip.dfy` | bounce reports: printer and parser, fields, folded lines, field names, and exactly when the round trip holds |

`dafny verify dfyconfig.toml` checks the whole project.

## What the proofs show about the code

The main theorems hold as one would hope: every run of the queue is finite and conserves messages, no pool run
deadlocks, the codecs are inverses. In these places the code does something its comments, names or callers do not
suggest; each has a lemma with the exact condition or a concrete run.

- **Evictions break the per-destination limit.** The comment at crates/sentio-smtp-client/src/pool.rs:173 says
  entries with outstanding permits are kept; the code keeps only those with idle connections. Some run breaks the
  limit if and only if it is positive and below the global one (`PoolLimits.LimitBreaksExactly`); the bound that does
  hold, one more limit per eviction (`Pool.Limits`), is attained (`PoolLimits.LimitAttained`); and clean-ups as the
  comment describes them would keep the plain limit (`PoolLimits.CarefulRunsKeepLimit`).
- **A failed suppression check delivers anyway** (crates/sentio-smtp-client/src/delivery.rs:389-423): a suppressed
  recipient is offered to SMTP if and only if one of its own checks failed and time was left
  (`Suppression.BarredOfferedExactly`).
- **A handler timeout between recording a hard bounce and writing the suppression** leaves the recipient unsuppressed,
  and it is offered again (`Suppression.HardBounceBarsExactly`, `Suppression.TimeoutReoffers`); without such a cut it
  never is (`Suppression.RunNeverReoffersBounced`).
- **A message can be acknowledged without an event row for each recipient**: exactly when the pass left through an
  early return, as for a body that cannot be fetched, or an event insert failed, which is only logged
  (`Suppression.AckRecordsExactly`).
- **A message can be acknowledged without ever getting a final status.** When nothing is deferred this happens exactly
  on the early returns, when deliveries and suppressed recipients are mixed and nothing else happened, and when the
  status write fails; when something is deferred, exactly when the handler's own write fails and no bounce was written
  before (`Statuses.AckSettlesExactly`, `Statuses.MissingBodyLeavesNothing`).
- **A legacy attempt header freezes the retry count**, so only one of the two retry budgets can ever matter
  (`Persistence.FrozenDecision`, and over whole runs `Statuses.DrainedDeferral`).
- **The retry delay can fall once**, between attempts 4 and 5, where the fixed schedule ends, under a condition that
  differs for blocks (`Retry.WholeSequenceMonotone`).
- **Per-domain retry overrides are looked up with the domain as the first recipient of a group spells it**, while
  grouping lower-cases it: a recipient is treated by the domain it is grouped under in every configuration if and only
  if it is written without capital letters (`Overrides.HonouredExactly`, `Overrides.MissedOverride`), and the order of
  two spellings in an envelope decides for both (`Overrides.FirstSpellingDecides`, `Overrides.OrderMatters`).
- **A 2xx reply to DATA itself counts as delivered** although the message was never sent: a conversation with a server
  that answers everything with 250 ends that way (`Session.Conversation.DeliverToYesMan`). Against a server that
  conforms on DATA, Delivered means that the message was sent and accepted (`Session.Conversation.TryMxHost`).
- **The relay path waits for a greeting after STARTTLS** that no conforming server sends
  (`Session.Conversation.RelayUpgrade`); the MX path does not (`Session.Conversation.TryMxHost`).
- **Reply texts keep their CR**, because crates/sentio-smtp-client/src/connection.rs:327 trims the line end in the
  wrong order (`Replies.ReadRendered`).
- **The text of a multi-line reply contains line breaks and is cut when the report is read back**: the round trip
  holds if and only if the response survives unfolding (`DsnRoundTrip.RoundTripExactly`,
  `DsnRoundTrip.SeveralLinesAreCut`). No response changes the status read back, and none changes the recipient unless
  the first recipient is blank (`DsnRoundTrip.FieldsAlwaysRight`, `DsnRoundTrip.RecipientRightExactly`).
- **Dot-stuffing treats a bare LF as a line start**, so a receiver that splits at CRLF recovers the message exactly
  if and only if no bare LF precedes a dot (`DotStuffing.RecoveredExactly`).
- **A warm-up counter that cannot be read counts as zero**, so a full schedule lets a sender pass exactly then
  (`Warmup.FullPassesExactly`).
- **A refused warm-up check has already charged the schedules before the full one** (`Warmup.CheckAndIncrement`),
  and concurrent senders can overshoot the limit by one less than their number, no more (`Warmup.OvershootBound`,
  `Warmup.OvershootIsReached`).
- **A warm-up schedule whose growth rounds to nothing never completes** (`Warmup.StuckExactly`).
- **A day can lower a warm-up limit**: exactly when it is stored above its maximum or the percentage, which nothing
  checks, is negative enough (`Warmup.LoweredExactly`); a failed status write leaves a schedule at its maximum but
  active, and stops the loop (`Warmup.AdvanceDaily`).
- **Concurrent infractions lose points**: all but the last recorded ones can be lost, and no more
  (`ReputationRace.PointsLostBound`, `ReputationRace.AllButLastLost`); none are exactly when every write finds the score
  its task has read (`ReputationRace.LosesNothingExactly`).
- **A returned connection's age restarts**, so a checkout can return a stream of any age since opening
  (`PoolAge.AnyAge`, `PoolAge.AgeUnbounded`); it is below the maximum age for certain exactly when the age at return
  leaves room for the longest idle time (`PoolAge.AgeBoundedExactly`, `PoolAge.RunAgeBounded`).
- **Bytes read before the TLS handshake are carried into the encrypted session**: the next reply acted on is the one
  sent inside it, whatever the server sends there, if and only if that buffer is empty (`Replies.CarriedBufferMatters`).

## Model

| member | source | states |
|---|---|---|
| `Queue.StepUsesPotential` | crates/sentio-queue/src/consumer.rs:209-270 | every turn of the loop, on every queue and in every world, strictly lowers a potential of the queue, truncation of the delivery count included |
| `Queue.RunsAreFinite` | crates/sentio-queue/src/consumer.rs:179-271 | a run from any queue, also one holding entries at or past the cap, is no longer than the potential of that queue, DSNs spawned on the way included |
| `Queue.RunBound` | crates/sentio-queue/src/consumer.rs:209-270 | from freshly submitted messages: at most K(1 + nK) handled deliveries per message with n reportable recipients, K = max(1, max_retries) |
| `Queue.NewMessagesAreReports` | crates/sentio-smtp-client/src/delivery.rs:1336-1383 | one handling enqueues at most one message per recipient, all with a null sender and addressed to the original sender, and none when the sender is null |
| `Queue.RunConserves` | crates/sentio-queue/src/consumer.rs:211-270 | over every run each message ever enqueued is in exactly one place once: waiting, acked, dead-lettered or lost; lost stays empty while dead-letter publishes succeed |
| `Queue.TerminalDisposition` | crates/sentio-queue/src/consumer.rs:211-270 | after a drained run each message was acked or dead-lettered, never both, given that dead-letter publishes succeed |
| `Queue.RunNeverReoffers` | crates/sentio-smtp-client/src/delivery.rs:385-471 | over all messages and redeliveries, if suppression checks succeed, and whatever else fails, no recipient is handed to SMTP after a suppression for that tenant was written |
| `Suppression.RunNeverReoffersBounced` | crates/sentio-smtp-client/src/delivery.rs:1336-1346 | if suppression checks and writes succeed and no handling is cut right after recording a hard bounce, no hard-bounced recipient is ever offered again for that tenant |
| `Suppression.TimelyRunNeverReoffersBounced` | crates/sentio-smtp-client/src/delivery.rs:1599-1625 | in particular in every run whose handlings all end before their deadline |
| `Suppression.CutMeansTimeout` | crates/sentio-smtp-client/src/delivery.rs:1599-1625 | such a cut happens only to a handling that runs into its deadline |
| `Suppression.HardBounceBarsExactly` | crates/sentio-smtp-client/src/delivery.rs:1336-1346 | a recorded hard bounce leaves its recipient suppressed iff the write comes before the deadline and succeeds, or it was suppressed before |
| `Suppression.TimeoutReoffers` | crates/sentio-smtp-client/src/delivery.rs:1599-1625 | a deadline between record and write: the next delivery offers the bounced recipient again although every call succeeds |
| `Suppression.BarredActiveExactly` | crates/sentio-smtp-client/src/delivery.rs:385-432 | a suppressed recipient stays in the list to offer iff one of its own checks failed |
| `Suppression.BarredOfferedExactly` | crates/sentio-smtp-client/src/delivery.rs:385-471 | a domain group offers a suppressed recipient to SMTP iff one of its checks failed and time was left |
| `Suppression.AckRecords` | crates/sentio-smtp-client/src/delivery.rs:385-471 | past the early returns an acknowledged message has had one call of record_outcome per recipient occurrence, before them none |
| `Suppression.AckRecordsExactly` | crates/sentio-smtp-client/src/delivery.rs:1299-1301 | an acknowledged message has one event row per recipient occurrence iff the pass got past its early returns and every insert succeeded, or there was no recipient |
| `Outcomes.PassTruthful` | crates/sentio-smtp-client/src/delivery.rs:385-471 | in every pass past the early returns: what is recorded, drops aside, is the remote side's answer to an offer of that recipient; each offer has one outcome of its own, in order, with that answer and an address of its domain; in time, the answer is on record for everyone offered |
| `Outcomes.OutcomesAreTheRecords` | crates/sentio-smtp-client/src/delivery.rs:385-471 | in a pass that ends in time an outcome, bounce class included, is handed to the handler iff it is on record for some recipient |
| `Outcomes.UnsuppressedAreOffered` | crates/sentio-smtp-client/src/delivery.rs:385-471 | in a pass that ends in time every recipient that was not suppressed before it is offered to SMTP and the answer is on record for it |
| `Offering.OffersExactly` | crates/sentio-smtp-client/src/delivery.rs:385-471 | when the checks succeed or nobody is suppressed, a pass that ends in time makes one offer per group that has somebody left, in order, to exactly its recipients not suppressed before the pass, in their order |
| `Results.StatusTells` | crates/sentio-smtp-client/src/delivery.rs:474-522 | the status after such a pass: bounced if a bounce is on record, else deferred if a deferral is, else delivered if nobody was dropped, dropped if nobody was delivered to, and untouched if both occurred |
| `Results.AnswersRecord` | crates/sentio-smtp-client/src/delivery.rs:1643-1679 | such a pass is acknowledged iff no deferral is on record or the budget of the deferred groups is used up; otherwise it asks for a retry after a deferred group's own delay, than which none is longer |
| `Results.DeferralRetried` | crates/sentio-smtp-client/src/delivery.rs:1533-1558 | a deferral on record is retried while count and age are within every recipient's settings, and acknowledged once they are within nobody's |
| `Results.TimeoutAnswer` | crates/sentio-smtp-client/src/delivery.rs:1599-1625 | a handling that runs into its deadline is tried again five minutes later |
| `Results.EarlyAnswers` | crates/sentio-smtp-client/src/delivery.rs:238-305 | the early returns: an unusable tenant or id and a missing body are acknowledged with nothing touched; a used-up warm-up limit is retried like a soft deferral of the first recipient until that budget is used up |
| `Reports.RecordReportsExactly` | crates/sentio-smtp-client/src/delivery.rs:1336-1383 | recording one outcome publishes exactly one message, null-sender, to the original sender, under a new id with status queued and with its event, iff the call is in time, the outcome a hard bounce, the sender not null and the four calls behind it succeed in time; otherwise none |
| `Reports.HandleReportsExactly` | crates/sentio-smtp-client/src/delivery.rs:1397-1504 | what one handling publishes, cut short or not, is exactly the reports its hard bounces on record call for, in order, and the report events name exactly those recipients |
| `Reports.TurnSendsReports` | crates/sentio-smtp-client/src/delivery.rs:1488-1504 | one turn of the loop puts exactly those reports on the queue as new messages |
| `Queue.RunReportsOnce` | crates/sentio-smtp-client/src/delivery.rs:1336-1383 | over all redeliveries, if suppression checks and writes succeed, a recipient of a message is reported at most once per occurrence in its envelope |
| `Persistence.ExhaustedAtLargestBudget` | crates/sentio-smtp-client/src/delivery.rs:1533-1558 | within the lifetime the budget is exhausted exactly when the count reaches the largest budget of the deferred domains |
| `Persistence.DeferredResult` | crates/sentio-smtp-client/src/delivery.rs:1643-1679 | a deferring handling acks exactly when the count has reached that budget, marking the message bounced if the write succeeds, and otherwise asks for a retry |
| `Persistence.DeferredDecision` | crates/sentio-queue/src/consumer.rs:217-253 | Nak before the last handling; on it ack if the engine gives up first, otherwise dead-letter, with and without a legacy attempt header |
| `Persistence.FrozenDecision` | crates/sentio-queue/src/consumer.rs:62-95 | with an explicit attempt header the decision depends on the header or on the cap, never on both |
| `Turns.GarbageTurn` | crates/sentio-queue/src/consumer.rs:254-270 | a payload that does not parse is dead-lettered, or lost if that publish fails; it is never counted as acknowledged, and nothing else changes |
| `Turns.AnswerDecides` | crates/sentio-queue/src/consumer.rs:211-270 | where an entry goes by the handler's answer: acknowledged; sent back with exactly the delay asked for below the cap, buried at it; or buried |
| `Turns.PlainRetry` | crates/sentio-queue/src/consumer.rs:221-231 | a retry without a delay of its own waits 3, 5, 10, 15 and 30 minutes after the first five deliveries, without jitter and up to the cap |
| `Turns.TurnExactly` | crates/sentio-queue/src/consumer.rs:209-270 | one turn of a message past the early returns: back after five minutes if cut short, acknowledged without a deferral on record or with the budget used up, otherwise back after the longest delay of a deferred group; at the cap buried instead of sent back |
| `Turns.EveryHandlingAnswered` | crates/sentio-queue/src/consumer.rs:211-270 | over every run each handling of a message is answered exactly once: a Nak, an acknowledgement, a dead letter or a loss |
| `Persistence.PersistentDeferral` | crates/sentio-queue/src/consumer.rs:217-253 | at every point of a run in which each handling of a message defers, where the message is after its h-th handling |
| `Persistence.DrainedWhereabouts` | crates/sentio-smtp-client/src/delivery.rs:1643-1679 | after a drained run it was handled exactly max(1, min(M + 1, N)) times and is acked iff M + 1 <= max(1, N), or with a legacy header once and acked iff the header is at least M, otherwise max(1, N) times; not acked means dead-lettered exactly once |
| `Statuses.DrainedDeferral` | crates/sentio-smtp-client/src/delivery.rs:1643-1679 | the same, and when it is acked its status at the end of the run is bounced, given that the one write that gives up on it succeeds, whatever happened to earlier ones, and that no other message has its id |
| `Statuses.OthersStatus` | crates/sentio-smtp-client/src/delivery.rs:474-499 | handling another message never changes the status of an id that is not its own |
| `Statuses.MarkedLast` | crates/sentio-smtp-client/src/delivery.rs:1643-1679 | the handling that gives up on a message leaves its status bounced when its status write succeeds |
| `Consumer.Loop.Invoke` | crates/sentio-queue/src/consumer.rs:196-209 | parsing and handling one message has the effect and result the transition system assigns to it |
| `Consumer.Loop.Settle` | crates/sentio-queue/src/consumer.rs:211-270 | the acknowledgement moves the message to exactly the place decided, a Nak is sent with its delay, and the new messages join the queue |
| `Consumer.Loop.Turn` | crates/sentio-queue/src/consumer.rs:179-271 | one iteration of the loop is one step of the transition system, Naks and their delays included (what a step does: Turns.GarbageTurn, Turns.AnswerDecides, Turns.TurnExactly) |
| `Consumer.Loop.Run` | crates/sentio-queue/src/consumer.rs:170-271 | the loop empties the queue in any order and any world, what it did is a run of the system, it ends within the potential of the first queue, and if dead-letter publishes succeed every message was acked or dead-lettered exactly once |
| `Consumer.FreshAccounted` | crates/sentio-queue/src/consumer.rs:170-178 | a loop starts with every submitted message waiting exactly once |
| `Delivery.GroupingIsPartition` | crates/sentio-smtp-client/src/delivery.rs:1717-1728 | the groups together hold exactly the recipients, repetitions included |
| `Delivery.AfterLastAtIsSuffix` | crates/sentio-smtp-client/src/delivery.rs:1513-1558 | the domain under which settings are looked up is the part after the last `@`, the whole address if there is none |
| `Overrides.HonouredExactly` | crates/sentio-smtp-client/src/delivery.rs:1513-1558 | every configuration treats a recipient by the domain it is grouped under iff that domain is written without capital letters, or the address without `@` is the word unknown |
| `Overrides.MissedOverride` | crates/sentio-queue/src/retry.rs:62-79 | a spelling without an entry of its own gets the general settings, which is right iff the domain has no override or one that changes nothing |
| `Overrides.FirstSpellingDecides` | crates/sentio-smtp-client/src/delivery.rs:449-464 | every deferred outcome of a pass is judged by the spelling of the first recipient of its group in envelope order |
| `Overrides.OrderMatters` | crates/sentio-smtp-client/src/delivery.rs:449-464 | two spellings of one domain: which comes first decides whether the override applies to both |
| `Overrides.TwoSpellings` | crates/sentio-smtp-client/src/delivery.rs:1717-1728 | a concrete pair of recipients grouped together of which only one is spelled as grouped |
| `Delivery.Longest` | crates/sentio-smtp-client/src/delivery.rs:1513-1528 | the scheduled delay is one of the deferred recipients' own delays and none is longer; absent iff none is deferred |
| `DeliveryFacts.HandleEffect` | crates/sentio-smtp-client/src/delivery.rs:1576-1680 | in every world a handling only appends its own message's events, records one outcome per recipient occurrence if it ends in time, reports only for a non-null sender and at most once per occurrence, and when it returns early it logs, publishes and suppresses nothing |
| `DeliveryFacts.HandlePublishes` | crates/sentio-smtp-client/src/delivery.rs:1397-1504 | what a handling publishes are null-sender reports to the original sender, at most one per recipient |
| `DeliveryFacts.OneOutcomePerOccurrence` | crates/sentio-smtp-client/src/delivery.rs:385-471 | a pass that ends in time records exactly one outcome per occurrence of each recipient |
| `DeliveryFacts.StatusUnsetExactly` | crates/sentio-smtp-client/src/delivery.rs:474-499 | the choice at the end of a pass: no status iff nothing bounced or deferred and both a delivery and a drop occurred |
| `Statuses.PassSettles` | crates/sentio-smtp-client/src/delivery.rs:474-522 | a pass leaves a final status iff it got past its early returns, chose one and its write succeeded |
| `Statuses.AckSettlesExactly` | crates/sentio-smtp-client/src/delivery.rs:1576-1680 | exactly when an acknowledged message that had none before has a final status afterwards (its id being its own), in terms of its outcomes and of the two status writes |
| `Statuses.MissingBodyLeavesNothing` | crates/sentio-smtp-client/src/delivery.rs:291-305 | a message whose body cannot be fetched is acknowledged and the repository is untouched |
| `DeliveryFacts.HandleGuarded` | crates/sentio-smtp-client/src/delivery.rs:385-432 | if suppression checks succeed a handling keeps every suppressed recipient away from SMTP |
| `DeliveryFacts.HandleSilent` | crates/sentio-smtp-client/src/delivery.rs:385-432 | if suppression checks succeed a recipient suppressed before a handling gets no report from it |
| `Engine.GroupByDomain` | crates/sentio-smtp-client/src/delivery.rs:1717-1728 | returns an admissible grouping: distinct lower-cased domains, order kept inside a group, same multiset of recipients |
| `Engine.DeliveryEngine.PublishDsn` | crates/sentio-smtp-client/src/delivery.rs:1397-1504 | assign, upload, insert, publish; the first failure ends it and leaves what was done before (what that sends: Reports.RecordReportsExactly) |
| `Engine.DeliveryEngine.RecordOutcome` | crates/sentio-smtp-client/src/delivery.rs:1226-1393 | one event per call; a hard bounce also bars the recipient and reports to a non-null sender (exactly when: Suppression.HardBounceBarsExactly, Reports.RecordReportsExactly) |
| `Engine.DeliveryEngine.Screen` | crates/sentio-smtp-client/src/delivery.rs:385-432 | the loop of suppression checks splits the group as specified |
| `Engine.DeliveryEngine.AttemptGroup` | crates/sentio-smtp-client/src/delivery.rs:385-471 | one verdict for the whole group, recorded for each recipient still active and handed on (Outcomes.PassTruthful) |
| `Engine.DeliveryEngine.Attempt` | crates/sentio-smtp-client/src/delivery.rs:238-522 | `deliver` has, for some admissible order of the groups, the specified outcomes and effect, early returns included; the outcomes are those on record (Outcomes.OutcomesAreTheRecords) |
| `Engine.DeliveryEngine.RetryBudgetExhausted` | crates/sentio-smtp-client/src/delivery.rs:1533-1558 | true iff something is deferred and every deferred outcome's own policy denies another try |
| `Engine.DeliveryEngine.DeferredRetryDelay` | crates/sentio-smtp-client/src/delivery.rs:1513-1528 | the maximum over the deferred recipients' own policies, none iff nothing is deferred |
| `Engine.DeliveryEngine.Process` | crates/sentio-smtp-client/src/delivery.rs:1576-1680 | `handle` has the specified effect and result for some admissible order of the groups; the result is the one its records call for (Results.AnswersRecord, Results.EarlyAnswers) |
| `Retry.DelayBounded` | crates/sentio-queue/src/retry.rs:90-124 | no attempt, class or draw gives more than the maximum delay; without jitter the delay is the planned one |
| `Retry.JitterBounds` | crates/sentio-queue/src/retry.rs:115-123 | jitter moves a delay by at most its factor of it, up to rounding down and the cap |
| `Retry.JitterExactly` | crates/sentio-queue/src/retry.rs:115-123 | the middle draw leaves a delay alone, the extreme draws add and subtract the whole factor of it, rounded down, within zero and the cap |
| `Retry.LateDelaysNeverFall` | crates/sentio-queue/src/retry.rs:90-113 | from attempt 5 on planned delays are nondecreasing, through shift overflow and saturation |
| `Retry.WholeSequenceMonotone` | crates/sentio-queue/src/retry.rs:90-113 | for every class, the delay falls after an attempt iff that attempt is 4, base is below 30 min and base (twice base for a block) is below max |
| `Retry.DelayReachesCap` | crates/sentio-queue/src/retry.rs:90-113 | with a positive base the maximum is reached at the first doubling that passes it, at the latest when the shift overflows |
| `Retry.BlockAgainstSoft` | crates/sentio-queue/src/retry.rs:103-113 | `Block` lies between one and two times `Soft`, exactly two when the cap allows |
| `Retry.ScheduleExactly` | crates/sentio-queue/src/retry.rs:6-18 | without jitter the first five attempts wait 3, 5, 10, 15 and 30 minutes, a block twice as long, up to the maximum |
| `Retry.DoublesExactly` | crates/sentio-queue/src/retry.rs:94-101 | after that the delay starts at the base and doubles with each attempt up to the maximum, through shift overflow and saturation |
| `Retry.UnitsExactly` | crates/sentio-queue/src/retry.rs:51-79 | days and seconds become milliseconds unless they overflow, jitter is a quarter, and an override replaces what it sets and nothing else |
| `Session.Conversation.SendData` | crates/sentio-smtp-client/src/connection.rs:259-271 | the body follows only a 354, and the reply returned is the last one read |
| `Session.Conversation.SendMessage` | crates/sentio-smtp-client/src/delivery.rs:1088-1138 | reports Delivered iff MAIL, every RCPT in order and the data phase were accepted, Deferred iff the first refusal of MAIL, of a recipient or of the message has a code in 400-499, Bounced iff it has any other; waits only for owed replies |
| `Session.Conversation.Secure` | crates/sentio-smtp-client/src/delivery.rs:1000-1069 | ready under a strict policy only after a successful handshake, and in plain text only if TLS is opportunistic and not offered or turned down; a failed handshake ends the conversation |
| `Session.Conversation.TryMxHost` | crates/sentio-smtp-client/src/delivery.rs:940-1084 | against every server: no read when no reply is owed, no MAIL before a handshake under Required or Dane; a message is begun only after greeting, EHLO and, whenever offered and agreed, STARTTLS with a second EHLO; from there the codes decide: Delivered iff everything was accepted, which includes the message itself if the server conforms on DATA, Deferred iff the first refusal is 4yz, Bounced iff it is another; a failure has a reason on the wire or in the policy |
| `Session.Conversation.RelayUpgrade` | crates/sentio-smtp-client/src/delivery.rs:779-855 | the relay path waits for a reply nobody owes iff the handshake succeeded |
| `Session.Conversation.DeliverToYesMan` | crates/sentio-smtp-client/src/connection.rs:259-271 | a whole conversation with a server that answers everything with 250 ends Delivered although the body was never sent |
| `Pool.RunInv` | crates/sentio-smtp-client/src/pool.rs:84-178 | in every interleaving permits are conserved in the global and in every domain semaphore, and a destination has at most one semaphore more than evictions |
| `Pool.GlobalBalanceKept` | crates/sentio-smtp-client/src/pool.rs:84-114 | each step keeps free plus owned global permits at max_connections, abandoned acquisitions included |
| `Pool.DomainBalanceKept` | crates/sentio-smtp-client/src/pool.rs:84-114 | each step keeps, per semaphore ever made, free plus held permits at max_connections_per_dest |
| `Pool.FewSemsKept` | crates/sentio-smtp-client/src/pool.rs:160-178 | a new semaphore for a destination appears only with its first entry or after an eviction |
| `Pool.Limits` | crates/sentio-smtp-client/src/pool.rs:84-178 | in every run at most max_connections permits are out, and for one destination at most (1 + its evictions) times max_connections_per_dest |
| `PoolProgress.EveryWaiterIsServed` | crates/sentio-smtp-client/src/pool.rs:84-178 | in whatever order the semaphores serve, first come first served included, and whatever is checked in, checked out or evicted meanwhile: once no acquisition or drop is possible every task that waited has been granted its permit, after exactly the work there was, at most four actions per task |
| `PoolProgress.SomethingInTurn` | crates/sentio-smtp-client/src/pool.rs:84-114 | if any acquisition or drop is enabled, one is enabled that overtakes nobody at its semaphore |
| `PoolProgress.InTurnComesToRest` | crates/sentio-smtp-client/src/pool.rs:84-114 | serving first come first served always comes to such an end |
| `PoolProgress.NoDeadlock` | crates/sentio-smtp-client/src/pool.rs:84-178 | whenever a task waits in a run, some acquisition or drop is enabled, evictions notwithstanding |
| `PoolProgress.ZeroLimitBlocks` | crates/sentio-smtp-client/src/pool.rs:71-114 | if either limit is zero no run ever hands out a permit: the hypothesis above is needed |
| `PoolLimits.LimitAttained` | crates/sentio-smtp-client/src/pool.rs:84-178 | the bound is attained: for every number of evictions e and every j up to the limit, as far as the global limit allows, a run with exactly e evictions and e times the limit plus j permits out |
| `PoolLimits.LimitBreaksExactly` | crates/sentio-smtp-client/src/pool.rs:165-175 | some run has more permits out for a destination than its limit iff that limit is positive and below the global one; one eviction is then enough |
| `PoolLimits.LimitKept` | crates/sentio-smtp-client/src/pool.rs:84-114 | without an eviction, or when the global limit is no larger, the plain limit holds in every run |
| `PoolLimits.CarefulRunsKeepLimit` | crates/sentio-smtp-client/src/pool.rs:173-174 | if clean-ups dropped no entry with a holder or waiter, as the comment says, the plain limit would hold in every run |
| `PoolAge.AgeBoundedExactly` | crates/sentio-smtp-client/src/pool.rs:117-157 | every checkout that can return a connection finds it younger than the maximum age since opening iff its age when returned leaves room for the longest idle time |
| `PoolAge.RunAgeBounded` | crates/sentio-smtp-client/src/pool.rs:117-157 | in every run whose connections are returned that early, every checkout returns one younger than the maximum age |
| `PoolAge.AnyAge` | crates/sentio-smtp-client/src/pool.rs:136-139 | a run after which a checkout returns a stream of any chosen age |
| `PoolAge.AgeUnbounded` | crates/sentio-smtp-client/src/pool.rs:117-157 | a connection returned and taken again within both timeouts is still handed out after any number of rounds |
| `PoolReuse.CheckInExactly` | crates/sentio-smtp-client/src/pool.rs:141-157 | a check-in puts the connection last in its domain's idle list and changes nothing else; a new entry gets a semaphore of its own with all permits |
| `PoolReuse.CheckOutKeeps` | crates/sentio-smtp-client/src/pool.rs:117-134 | a checkout touches nothing but the end of its domain's idle list: entry, semaphore, permits and other domains stay |
| `PoolReuse.LastInFirstOut` | crates/sentio-smtp-client/src/pool.rs:117-157 | any number of connections returned and as many checkouts within the timeouts: each comes back, newest first, and the idle list is as before |
| `PoolReuse.CleanUpInvisible` | crates/sentio-smtp-client/src/pool.rs:160-178 | a clean-up never changes what any later checkout returns |
| `PoolObject.ConnectionPool.SemaphoreFor` | crates/sentio-smtp-client/src/pool.rs:92-104 | finds or creates the entry, exactly as the transition system's lookup |
| `PoolObject.ConnectionPool.AcquirePermit` | crates/sentio-smtp-client/src/pool.rs:84-114 | as far as it gets without waiting, the two acquisitions and the lookup are the steps of the transition system |
| `PoolObject.ConnectionPool.DropPermit` | crates/sentio-smtp-client/src/pool.rs:60-63 | both permits return, the domain one to the semaphore it came from |
| `PoolObject.ConnectionPool.CheckOutConn` | crates/sentio-smtp-client/src/pool.rs:117-134 | the most recently returned usable connection; everything returned after it was stale and is dropped; none only if none was usable |
| `PoolObject.ConnectionPool.CheckInConn` | crates/sentio-smtp-client/src/pool.rs:136-157 | puts the connection last in the idle list with its age restarted, so it is usable at once, and changes nothing else; a new entry gets a fresh semaphore |
| `PoolObject.ConnectionPool.CleanUpExpired` | crates/sentio-smtp-client/src/pool.rs:160-178 | keeps exactly the usable connections and the entries that still have one, and returns how many were dropped over all domains |
| `Kv.Store.Get` | crates/sentio-abuse/src/mock.rs:48-76 | returns a live value only, and dropping an expired entry changes no later read |
| `Kv.Store.SetEx` | crates/sentio-abuse/src/mock.rs:78-93 | replaces value and expiry |
| `Kv.Store.Del` | crates/sentio-abuse/src/mock.rs:95-102 | removes the key |
| `Kv.Store.Incr` | crates/sentio-abuse/src/mock.rs:113-132 | counts on from a live value keeping its expiry, or from nothing without one |
| `Kv.Store.Expire` | crates/sentio-abuse/src/mock.rs:134-146 | resets the expiry of an existing entry only |
| `RateGuard.WindowBound` | crates/sentio-abuse/src/rate_guard.rs:26-62 | in every history, a 60 s window starting s seconds into a minute holds at most max(60 + max(s - 1, 0))/60 accepted connections of one IP, so fewer than 2 max |
| `RateGuard.WindowBoundIsExact` | crates/sentio-abuse/src/rate_guard.rs:26-62 | for every limit and every offset s >= 1 a history attains that bound, rounded down |
| `RateGuard.MinuteBound` | crates/sentio-abuse/src/rate_guard.rs:26-62 | within one clock minute at most max are accepted |
| `RateGuard.QuietAccepted` | crates/sentio-abuse/src/rate_guard.rs:39-62 | a call is accepted while this and the previous minute's calls together fit the limit, refused when this minute's alone do not, and at the start of a minute the first is exact |
| `RateGuard.CounterAlive` | crates/sentio-abuse/src/rate_guard.rs:39-52 | the 120 s expiry keeps the current and the previous counter alive and exact whenever they are read |
| `RateGuard.Guard.CheckRate` | crates/sentio-abuse/src/rate_guard.rs:26-62 | each answer extends the history by a decision of the kind the bounds speak about, whatever other IPs do |
| `Reputation.DecayedLater` | crates/sentio-abuse/src/ip_reputation.rs:45-84 | letting time pass scales the whole sum of decayed points |
| `Reputation.ScoreAfterInfraction` | crates/sentio-abuse/src/ip_reputation.rs:88-107 | an infraction adds its points to the sum over live infractions |
| `Reputation.ScoreLater` | crates/sentio-abuse/src/ip_reputation.rs:45-84 | until the next operation the sum is the last one decayed, and nothing after seven days |
| `Reputation.NeverWorsens` | crates/sentio-abuse/src/ip_reputation.rs:118-139 | without a new infraction neither the score nor the graduated action ever worsens |
| `Reputation.ActionExactly` | crates/sentio-abuse/src/ip_reputation.rs:118-127 | each action holds on exactly its interval of the score, for thresholds in any order |
| `Reputation.Tracker.GetScore` | crates/sentio-abuse/src/ip_reputation.rs:45-84 | the lazily decayed score equals the sum over live infractions of points times decay to the seconds since |
| `Reputation.Tracker.RecordInfraction` | crates/sentio-abuse/src/ip_reputation.rs:88-107 | extends the IP's history by the infraction and returns that sum, other IPs untouched |
| `Reputation.Tracker.ResetScore` | crates/sentio-abuse/src/ip_reputation.rs:110-115 | ends the live stretch of the history: the sum is zero |
| `Reputation.Tracker.Evaluate` | crates/sentio-abuse/src/ip_reputation.rs:118-139 | the action is the one whose interval of scores that sum lies in |
| `ReputationRace.PointsLostBound` | crates/sentio-abuse/src/ip_reputation.rs:88-107 | however concurrent calls interleave within one second, the score grows by at least the points recorded last and at most by all |
| `ReputationRace.LosesNothingExactly` | crates/sentio-abuse/src/ip_reputation.rs:88-107 | with positive points nothing is lost iff every write finds the score its task has read |
| `ReputationRace.SequentialLosesNothing` | crates/sentio-abuse/src/ip_reputation.rs:88-107 | in particular one call at a time grows the score by all points |
| `ReputationRace.AllButLastLost` | crates/sentio-abuse/src/ip_reputation.rs:88-107 | for any number of tasks a run in which only the last points count |
| `Warmup.CheckAndIncrement` | crates/sentio-smtp-client/src/warmup.rs:39-72 | refused exactly at the first schedule that does not let the sender pass, a failed read counting as zero; the schedules before it, and only those, have been charged, and their counters can be read for two days |
| `Warmup.FullPassesExactly` | crates/sentio-smtp-client/src/warmup.rs:42-58 | a full schedule with a positive limit lets a sender pass iff its own read failed |
| `Warmup.SequentialNeverExceeds` | crates/sentio-smtp-client/src/warmup.rs:39-72 | one sender at a time never takes a counter past its limit |
| `Warmup.OvershootBound` | crates/sentio-smtp-client/src/warmup.rs:39-70 | with k concurrent senders, in every interleaving, the counter never exceeds limit + k - 1, and never moves when the limit is zero |
| `Warmup.OvershootIsReached` | crates/sentio-smtp-client/src/warmup.rs:39-70 | for every k and every limit a run reaches that bound |
| `Warmup.AdvanceDaily` | crates/sentio-smtp-client/src/warmup.rs:78-122 | each schedule is advanced on its own up to the first failed write; that one may stay active at its maximum, and later ones are untouched |
| `Warmup.NewLimitExactly` | crates/sentio-smtp-client/src/warmup.rs:91-100 | below the maximum the new limit is within one half of the old one grown by the percentage, halves away from zero; it is at the maximum only if that growth rounds to it or more |
| `Warmup.AdvanceMonotone` | crates/sentio-smtp-client/src/warmup.rs:91-119 | for a limit up to the maximum: a day never passes the maximum, lowers the limit of an active schedule iff limit times pct < -50, and raises it iff it is below the maximum and the product is >= 50 (<= -50 and > 50 for a negative limit; the smallest 32-bit limit is never lowered) |
| `Warmup.LoweredExactly` | crates/sentio-smtp-client/src/warmup.rs:91-119 | a day lowers the limit of an active schedule iff it was stored above its maximum or limit times pct < -50 (<= for a negative limit; never below the smallest 32-bit integer) |
| `Warmup.Completes` | crates/sentio-smtp-client/src/warmup.rs:81-119 | if limit times pct >= 50 the schedule completes within max(1, max - limit) days |
| `Warmup.StuckExactly` | crates/sentio-smtp-client/src/warmup.rs:81-119 | a schedule never changes again iff it is completed, or below its maximum with -50 <= limit times pct < 50 (-50 < and <= 50 for a negative limit, no lower bound at the smallest 32-bit integer) |
| `DotStuffing.DotStuff` | crates/sentio-smtp-client/src/connection.rs:419-445 | the in-place repair of the last line equals stuffing the message with its last line ended, then the terminator |
| `DotStuffing.EndOfDataOnlyAtEnd` | crates/sentio-smtp-client/src/connection.rs:419-445 | for every byte string CRLF.CRLF occurs at the end of the output and nowhere else |
| `DotStuffing.RecoveredExactly` | crates/sentio-smtp-client/src/connection.rs:419-445 | a receiver of section 4.5.2 of RFC 5321 always stops at the end, and recovers the message iff no bare LF precedes a dot |
| `DotStuffing.CrlfMessagesRecovered` | crates/sentio-smtp-client/src/connection.rs:419-445 | CRLF-only messages come back exactly, with a final CRLF added if missing |
| `Replies.Reader.ReadLine` | crates/sentio-smtp-client/src/connection.rs:364-389 | for every split into nonempty reads, the next line of the stream, and buffer plus unread bytes are what follows it |
| `Replies.Reader.ReadResponse` | crates/sentio-smtp-client/src/connection.rs:321-361 | for every split into nonempty reads, the reply and the remaining stream are those of the whole byte stream |
| `Replies.ReadRendered` | crates/sentio-smtp-client/src/connection.rs:321-361 | a rendered multi-line reply is read back with its code and all texts, each with its CR, and nothing after it is consumed |
| `Replies.LineTakenExactly` | crates/sentio-smtp-client/src/connection.rs:325-357 | a line without a code in front is malformed, one with a code and no dash after it is a whole reply; a plus sign and two digits count as a code below 100 |
| `Replies.EnhancedExactly` | crates/sentio-smtp-client/src/connection.rs:340-346 | the enhanced status of a reply is the first of its texts' first words with at least five bytes and a period second, and missing iff there is none |
| `Replies.Reader.Upgrade` | crates/sentio-smtp-client/src/delivery.rs:1008-1025 | the encrypted stream replaces the plain one and the unread buffer is carried over |
| `Replies.CarriedBufferMatters` | crates/sentio-smtp-client/src/delivery.rs:1008-1025 | whatever is sent inside TLS, the next reply is read from there alone iff the carried buffer is empty |
| `Xtext.XtextEncode` | crates/sentio-smtp-client/src/connection.rs:399-410 | the loop computes the escaped form of every byte string |
| `Xtext.RoundTrip` | crates/sentio-smtp-client/src/connection.rs:399-410 | a decoder of section 4 of RFC 3461 inverts it, and the output is printable and free of `=` |
| `Spki.ReadElement` | crates/sentio-smtp-client/src/tls.rs:385-414 | the length loop agrees with the definition on every input, out-of-range lengths refused |
| `Spki.ReadTlv` | crates/sentio-smtp-client/src/tls.rs:385-414 | takes exactly one DER element off the front, whatever follows |
| `Spki.ExtractSpki` | crates/sentio-smtp-client/src/tls.rs:322-372 | stepping with a moving position agrees with the field-wise definition on every input and never indexes out of range |
| `Spki.ExtractsSpki` | crates/sentio-smtp-client/src/tls.rs:322-372 | for every certificate built as in section 4.1 of RFC 5280, with or without version, the result is exactly the subjectPublicKeyInfo encoding |
| `Spki.ExtractionIsContained` | crates/sentio-smtp-client/src/tls.rs:322-372 | on arbitrary bytes a result is one complete element lying inside the input |
| `Verp.RoundTrip` | crates/sentio-core/src/verp.rs:64-106 | decoding inverts encoding for every 128-bit id and every tag function |
| `Verp.EncodingInjective` | crates/sentio-core/src/verp.rs:64-70 | two ids never share a local part |
| `Verp.AcceptsExactly` | crates/sentio-core/src/verp.rs:85-106 | decoding yields an id iff the text is prefix, 32 hex digits of that value, dot and their tag |
| `Verp.DecodedIsId` | crates/sentio-core/src/verp.rs:85-106 | whatever is decoded fits 128 bits |
| `Verp.ReturnPathLeadsBack` | crates/sentio-smtp-client/src/delivery.rs:207-228 | only the null sender stays null, and what stands before the first `@` of a rewritten return path decodes to the message id |
| `Tracking.RenderPieces` | crates/sentio-smtp-client/src/tracking.rs:82-102 | cutting a text into links and single characters loses nothing |
| `Tracking.NoNewLink` | crates/sentio-smtp-client/src/tracking.rs:82-102 | rewriting makes no link where the text had none |
| `Tracking.PiecesOfRewritten` | crates/sentio-smtp-client/src/tracking.rs:82-102 | the rewritten text has the same pieces, each link replaced: nothing outside links changes, none appears or vanishes |
| `Tracking.Idempotent` | crates/sentio-smtp-client/src/tracking.rs:82-102 | rewriting twice is rewriting once, on every text, when the base URL holds no quote |
| `Tracking.TargetsRecoverable` | crates/sentio-smtp-client/src/tracking.rs:82-102 | from each rewritten link the token's decoder recovers the original target; skipped links are untouched |
| `Tracking.NoHrefUnchanged` | crates/sentio-smtp-client/src/tracking.rs:82-102 | a text without href is returned as it is |
| `Tracking.HrefRewritten` | crates/sentio-smtp-client/src/tracking.rs:82-102 | the first href attribute of a text, with any white space around its equals sign: what precedes it is copied, the attribute is replaced by its tracking address unless the link is skipped, and the rest is rewritten on its own |
| `Tracking.LinkKeptExactly` | crates/sentio-smtp-client/src/tracking.rs:82-102 | a link is left as it is iff it is a mailto:, tel: or fragment link in any case or carries the mark already |
| `Tracking.WebLinksRewritten` | crates/sentio-smtp-client/src/tracking.rs:82-102 | every http or https link without the mark is rewritten to the tracking address of its own target |
| `Tracking.InjectPixel` | crates/sentio-smtp-client/src/tracking.rs:65-77 | the pixel is inserted before the last `</body>` of any case, at the end if there is none, and nothing else changes |
| `Dsn.FirstSmtpCode` | crates/sentio-smtp-server/src/bounce_handler.rs:174-198 | the first isolated three-digit number between 200 and 599, none iff there is none |
| `Dsn.ExtractFields` | crates/sentio-smtp-server/src/bounce_handler.rs:107-169 | the two loops compute unfold-then-scan on every text |
| `Dsn.FoldingInvariant` | crates/sentio-smtp-server/src/bounce_handler.rs:107-169 | replacing a single interior space by CRLF and white space changes nothing that is extracted, in any text |
| `Dsn.GenerateStatusPart` | crates/sentio-smtp-client/src/headers.rs:190-217 | the appended text is the head lines and one block per recipient, each line ended by CRLF |
| `DsnRoundTrip.RoundTripExactly` | crates/sentio-smtp-server/src/bounce_handler.rs:107-198 | for every report and every response, broken or not: first recipient that is not blank, status, trimmed response and its first code are read back iff, trailing white space aside, its line breaks lie in its leading white space and each later line is indented |
| `DsnRoundTrip.OneLineSurvives` | crates/sentio-smtp-client/src/headers.rs:190-217 | a response without a line break always survives |
| `DsnRoundTrip.FieldsAlwaysRight` | crates/sentio-smtp-server/src/bounce_handler.rs:107-169 | for every response the status is right, and so is the recipient when the first one is not blank |
| `DsnRoundTrip.ClassReadBack` | crates/sentio-smtp-client/src/headers.rs:226-232 | the status read back is 5.0.0 iff the bounce is hard, 5.7.1 iff it is a block, 4.0.0 iff it is soft, and the action printed is delayed for soft ones only |
| `DsnRoundTrip.RecipientRightExactly` | crates/sentio-smtp-server/src/bounce_handler.rs:107-169 | the recipient read back is right for every response iff the first recipient is not blank |
| `DsnNames.FieldNamesLoose` | crates/sentio-smtp-server/src/bounce_handler.rs:130-134 | in any text, letter case in a field name and white space before its colon change nothing that is extracted, whatever precedes and follows |
| `DsnFields.ExtractedHasNoLf` | crates/sentio-smtp-server/src/bounce_handler.rs:107-169 | no diagnostic read from any text contains a line break |
| `DsnFolding.ReadDiagnostic` | crates/sentio-smtp-server/src/bounce_handler.rs:107-169 | one printed diagnostic without inner line breaks is either taken whole or replaced by something shorter |
| `DsnRoundTrip.SeveralLinesAreCut` | crates/sentio-smtp-client/src/connection.rs:49-51 | the text of a reply is not read back as soon as some line break in it has text that is not blank on both sides |

## Left out

- Queue.RunsAreFinite: assumes the broker redelivers only on Nak; the 60 s ack-wait against the 600 s handler limit, failed acks and Naks, and several consumers on one stream are not modelled.
- Queue.RunNeverReoffers: assumes that nobody removes a suppression, and that suppression checks succeed; BarredOfferedExactly says what a failed one does.
- Engine.GroupByDomain: lower-casing is ASCII, where the source uses Unicode lower-casing.
- Tracking.Idempotent: a base URL that contains a quote is excluded, as it closes the rewritten attribute early.
- Tracking.TargetsRecoverable: which links are skipped is decided by ASCII lower-casing; in Rust a Kelvin sign also lower-cases to k.
- Tracking.InjectPixel: lower-casing is ASCII; in Rust a character whose lower case has another byte length shifts the insertion point.
- Reputation.Tracker.RecordInfraction: time zero is excluded, because the source reads a stored zero as a missing time stamp.
- Reputation.Tracker.GetScore, RateGuard.Guard.CheckRate, Warmup.CheckAndIncrement: store errors (except failed reads in Warmup), sub-second clocks and `f64` rounding are not modelled; the store calls of one operation are atomic, except in ReputationRace and in the races of Warmup.
- Replies.Reader.ReadResponse: works on bytes; lossy UTF-8 decoding and its panics at character boundaries are not modelled, timeouts end the stream.
- DsnRoundTrip.RoundTripExactly: recipients, MTA names, envelope id and date are assumed free of line breaks, as SMTP and the configuration guarantee; only the remote response can hold one.
- Session.Conversation.TryMxHost: a handshake clears what is owed; bytes carried over in the read buffer are treated by CarriedBufferMatters, not in the conversation.
- PoolProgress.EveryWaiterIsServed: tasks that arrive while others wait are not counted; first come first served then bounds a task's wait by those ahead of it, which is not stated.
- Session.Conversation.RelayUpgrade: only the step after STARTTLS; the rest of the relay path repeats the MX path.
- DSN parameters on MAIL and RCPT, capabilities other than STARTTLS, DNS, MX and address iteration, and the pooling of real streams in a delivery attempt.
- Delivery events, webhooks, metrics and response texts in the records; only outcomes, suppressions, statuses and published messages are kept.
- `classify_bounce`: the keyword scan that turns a reply into a class; the class is whatever the remote side makes it.
- The human-readable part of a report, the MIME walk of `parse_dsn`, and the rest of `generate_dsn`.
- DKIM, ARC, SPF, DANE lookups, MTA-STS, BIMI and certificate validation beyond the SPKI extraction.
- `greylist`, `auth_guard`, `ban`, `whitelist` and the DNSBL cache: easy clients of the same store.
- The inbound SMTP session, REST API, MCP server, LLM crate, configuration loading, PostgreSQL, S3, NATS and Redis clients.
