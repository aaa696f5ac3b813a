# Verified model of the ticket-monitoring platform's core

A Dafny model of the parts of the platform whose correctness is hard to see by reading: the egress proxy
pool that many workers share, the booking lifecycle and the only service that writes it, the audit hash
chain, refresh-token families, the migration runner, and the check-digit and money arithmetic. Code that
updates rows or loops is modelled as classes and methods, each proved against a specification function;
what the platform promises is then proved about those functions, for all inputs and all finite runs.

`dafny verify dfyconfig.toml` checks everything.

## Modules

| file | models |
|---|---|
| Prelude.dfy | options, results, filtering, JavaScript's white space class |
| Quarantine.dfy | packages/proxy/src/quarantine.ts: what one health sample means for a proxy |
| Rotation.dfy | packages/proxy/src/rotation.ts: which proxy a worker should use |
| Pool.dfy | packages/proxy/src/pool.ts and admin.ts: the catalogue as a class, each operation equal to a function of the old state |
| PoolRuns.dfy | runs of the pool: snapshot and claim of `acquire` are separate steps, everything else interleaves freely |
| PoolRest.dfy | rest windows, thresholds, dead proxies and the evidence log over runs |
| ConcurrentHealth.dfy | `recordHealth` split into its read, its update and its insert |
| ConcurrentClaims.dfy | the claiming transaction of `acquire` split into its two statements |
| BookingMachine.dfy | packages/booking/src/state-machine.ts |
| BookingService.dfy | packages/booking/src/service.ts |
| AuditChain.dfy | the audit trigger and `verify_audit_chain` of packages/database/src/migrations/index.ts |
| Sessions.dfy | packages/auth/src/session.ts |
| Migrations.dfy | packages/database/src/migrate.ts |
| Decimals.dfy, Residues.dfy | decimal numerals and remainders, shared by the last two |
| Doubles.dfy | JavaScript numbers: rounding to nearest, ties to even, of integers and quotients (IEEE 754), as an arbitrary function with that property |
| Validation.dfy | packages/shared/src/validation.ts: SHEBA, card and national-id checks |
| Money.dfy | packages/shared/src/money.ts: sums, printing, parsing, multiplying |

Conventions: time is a non-decreasing clock in milliseconds, shared by process and database; fresh UUIDs and
tokens, database row order, the signature check of tokens and the state of a user are parameters; a
transaction is one step, and a failed one changes nothing; the hash of the audit chain is an arbitrary
function to 64-digit hexadecimal strings, and theorems that need collision freedom exhibit the collision
instead. How a database session writes an instant as text is a parameter too. The order of UUIDs is the order
of numbers. A ghost run is a sequence of steps, so a theorem about `Run` is about every interleaving.

## What the code does that its documentation does not say

Each line but the one on `ttlMs`, which the model simply does not read, has a theorem below.

- The failure counter handed to `decideQuarantine` already includes the sample. One CAPTCHA on a failed
  sample rests the proxy (docs/proxy-pool.md line 46 says repeated CAPTCHAs), a CAPTCHA on a successful
  sample never does, and the second 403/407 in a row rests it, not the third (line 47).
- Marking dead always comes with resting, so the QUARANTINED event is written and MARKED_DEAD never is.
- A successful probe does not revive a DEAD proxy, although a RECOVERED event is written and
  docs/proxy-pool.md line 24 promises recovery; neither does enabling it. Only another rest moves it on.
- A good probe inside the rest window releases the proxy. `ProxyPool.probeDue` prevents that, but the prober
  uses the SQL due set, which honours every rest only when the probe interval is at least eight hours; the
  settings allow one hour at most.
- An authentication offence after five or more earlier offences can move a deadline earlier.
- `recordHealth` reads outside its update: a stale good sample erases a rest imposed in between and its offence,
  and of two rate limits recorded at once one is lost. Only the two counters survive interleaving; failing run,
  score and offence count do exactly when the read was not stale in what they are computed from.
- Two claims of one worker whose statements interleave can run into the unique index; one claim at a time never
  does.
- The lease horizon is always thirty minutes; `ttlMs` and the expiry computed from it are unused. A lost
  claim still frees the worker's other row.
- An auto-cancelled request is CANCELLED without a completion time. An empty idempotency key is stored but
  never looked up, so a second one fails on the unique index.
- A request whose creation crashes between its insert and its first timeline row never gets that row.
- The audit hash covers neither tenant, actor, addresses nor metadata of an event: they can be rewritten in every
  row and the chain verifies to the same last hash. Of the columns it does cover, a remembered last hash leaves
  those of a row open exactly when a field contains a bar, a digest is absent or empty, or another instant is
  written alike. A chain with its end cut off still verifies.
- The verifier writes every `created_at` anew, and no session sets its time zone or date style: an untouched chain
  verifies exactly in the sessions that write every row's instant as the session did that inserted it.
- Two exchanges of one refresh token that both read it live leave two live sessions, and one that read it live
  before a reuse was detected puts a live session into the killed family.
- A second migration runner with a stale plan fails on the primary key; it does not skip. The advisory lock keeps
  runners apart exactly when they lock on sessions of their own that are not closed while idle; the client locks
  and unlocks on any session of a pool.
- The SHEBA check accepts check digits 00, 01 and 99, which the standard's procedure never produces.
- Every valid national id that ends in 1 is one changed digit away from another valid id.
- `multiply` can miss the nearest integer. For a safe product: with a positive denominator when the shifted
  product is an odd number above 2^53 whose rounding crosses a multiple of the denominator (9007199254740989
  times 1/12), with a negative one on a whole class of arguments, for -1 on all of them. For a larger product
  exactly when the roundings move the quotient to another integer: 10000 basis points of 9007199254740992 are
  9007199254740993.
- A sum with a safe total fails when a running total is unsafe, so the order of the amounts matters.

## Model

| member | source | states |
|---|---|---|
| Quarantine.NextHealthScore | packages/proxy/src/quarantine.ts:106-114 | the score stays in 0..100, a good sample never lowers it, a bad one never raises it |
| Quarantine.ScoreMovesBy | packages/proxy/src/quarantine.ts:106-114 | one sample moves the score by exactly +5, +3, -12 or -18, by outcome and source, as far as 0 and 100 allow |
| Quarantine.ReasonNamesTheSignal | packages/proxy/src/quarantine.ts:65-100 | the reason given is that of the first signal the sample carries, in terms of its columns |
| Quarantine.DeadMeansRested | packages/proxy/src/quarantine.ts:65-122 | whenever `shouldMarkDead` holds, `decideQuarantine` quarantines on the same counter |
| Quarantine.WindowClosedForm | packages/proxy/src/quarantine.ts:39-42 | with the default base the window is base times 2 to the min(offences, 4) and the daily cap never binds |
| Quarantine.WindowGrowsToADay | packages/proxy/src/quarantine.ts:39-42 | for every base the window doubles with each of the first four offences until it reaches a day |
| Quarantine.RestSecondsHeld | packages/proxy/src/quarantine.ts:30-33 | a configured rest window is kept as it is between a minute and a day, else moved to the nearer bound, and is 15 minutes by default |
| Rotation.SortedIsASort | packages/proxy/src/rotation.ts:65-71 | ordering candidates by health, last rotation and id is a sort: ordered and a permutation |
| Rotation.HeadOfSortedIsBest | packages/proxy/src/rotation.ts:110-111 | the first candidate precedes or equals every other in the published order |
| Rotation.FindAssignedFinds | packages/proxy/src/rotation.ts:104 | the search finds an eligible row of the worker if and only if there is one |
| Rotation.RefusalMatches | packages/proxy/src/rotation.ts:123-136 | the reason for refusing is the one the rule gives for the set of rows |
| Rotation.SelectProxyFollowsTheRule | packages/proxy/src/rotation.ts:77-121 | `selectProxy` implements the rule stated on the set of rows: sticky inside its window, else the best other eligible row, else the due sticky row, else the exact refusal |
| Rotation.RuleDeterminesOutcome | packages/proxy/src/rotation.ts:73-121 | the rule allows only one outcome |
| Rotation.SelectionIgnoresRowOrder | packages/proxy/src/rotation.ts:64-121 | permuting the rows changes nothing, down to the reported reason |
| Rotation.SelectionSucceedsIffEligible | packages/proxy/src/rotation.ts:86-121 | without assumptions on ids: a row is selected iff the mode is not OFF and some row is eligible; it is eligible; sticky and rotated outcomes have a row of the worker behind them |
| Rotation.SelectionReadsColumns | packages/proxy/src/rotation.ts:66-121 | what is selected, on the rows' columns alone: the worker's own row while its window is open; else of the other rows that serve one that is healthier than each of them, or as healthy and rotated earlier (never is time 0), or equal in both and of smaller id; the own row only if no other serves; with flags and reason |
| Rotation.RefusalReadsColumns | packages/proxy/src/rotation.ts:123-136 | the refusal, likewise: the first description that fits every row of the provider |
| Pool.ListingIsCatalogue | packages/proxy/src/pool.ts:69-70 | any listing order of the rows presents the same set of selectable proxies with unique ids |
| Pool.EffectiveRpmIsNearest | packages/proxy/src/pool.ts:262-265 | the budget on a lease is the scaled one to the nearest request, halves upwards, and one exactly where that would be less; it never exceeds the configured one |
| Pool.RestsIffOffence | packages/proxy/src/pool.ts:168-186 | whether a sample rests or kills the proxy in closed form on the columns of row and sample: a restriction, or a failure with a challenge, or the second denial in a row, unless it is a good probe inside the window; death at the fifth hard failure outside one |
| Pool.ObservationReadsColumns | packages/proxy/src/pool.ts:163-223 | every column of the row after one observation, as a function of the row and the sample: score, counters, stamps, status, deadline, offences, budget, lease, probe time, and what stays |
| Pool.EventsReadColumns | packages/proxy/src/pool.ts:241-249 | which event an observation writes, on the same columns |
| Pool.ProbeDueMeans | packages/proxy/src/pool.ts:252-259 | `probeDue` holds exactly for a row out of service whose deadline and probe time have passed |
| Pool.SqlDueMeans | packages/proxy/src/selector.sql.ts:7-17 | exactly where the SQL due set differs from it for a resting row |
| Pool.SelectedIsGrantedIff | packages/proxy/src/pool.ts:94-102 | undisturbed, a selected row is granted iff no other worker took it within the last thirty minutes |
| Pool.AcquireReadsColumns | packages/proxy/src/pool.ts:65-120 | what `acquire` grants and leaves behind, on the columns of the table: the leased row is the worker's own inside its window, or comes before every other fit row in score, rotation time and id, or is the only one, the stamp follows the reason, the worker's other rows are freed; otherwise the refusal, or the row lost to its holder |
| Pool.ProxyPool.constructor | packages/proxy/src/pool.ts:43-48 | an empty catalogue with the given settings |
| Pool.ProxyPool.Choose | packages/proxy/src/pool.ts:68-82 | the reading half of `acquire` selects by the rule whatever order the rows arrive in |
| Pool.ProxyPool.Commit | packages/proxy/src/pool.ts:89-107 | the claiming half: the worker's other rows are freed, the chosen row is taken iff it passes the re-validation, the event follows the claim, nothing else changes |
| Pool.ProxyPool.Acquire | packages/proxy/src/pool.ts:65-120 | undisturbed, the outcome is the one the rule allows and the one AcquireReadsColumns spells out: refused with its reason and no change, or the claim of the selected row with its stamp and event, and a lease iff the row passes the re-validation; a lease is on an eligible row, displaces only a holder older than the maximum, carries the effective budget and leaves the worker no other row |
| Pool.ProxyPool.Release | packages/proxy/src/pool.ts:123-130 | only the worker's own assignment of that row is cleared, and is; one event, other rows and the rotation stamp stay; another worker's assignment or a removed proxy changes no row |
| Pool.ProxyPool.RecordHealth | packages/proxy/src/pool.ts:163-250 | one observation moves score (+5, +3, -12 or -18 within 0..100), counters, status, deadline, budget, probe time and lease together, each given by the columns of row and sample, and appends one sample and the matching event; a removed proxy changes nothing |
| Pool.ProxyPool.Create | packages/proxy/src/admin.ts:50-72 | refused exactly when the catalogue holds 200 or the id is taken; otherwise one fresh ACTIVE, unassigned row whose settings are the wished ones held between their bounds, and one event; other rows stay and the limit holds |
| Pool.ProxyPool.Update | packages/proxy/src/admin.ts:74-103 | only provider, rotation and rate of that row change, to the wished values held between their bounds, and what is not wished stays; status, deadline, assignment and other rows stay; exactly unknown ids are refused |
| Pool.ProxyPool.SetEnabled | packages/proxy/src/admin.ts:105-110 | only the enabled flag of that row changes, to the wished value, with the matching event; exactly unknown ids are refused |
| Pool.ProxyPool.Remove | packages/proxy/src/admin.ts:112-118 | only that row goes; no evidence is lost and none refers to it any more, the new REMOVED event included |
| PoolRuns.RowByRow | packages/proxy/src/pool.ts:65-250 | every step changes rows one by one; rows appear only by creation and go only by removal |
| PoolRuns.RecordKeepsLifecycle | packages/proxy/src/pool.ts:168-223 | `recordHealth` keeps: ACTIVE has no deadline, QUARANTINED has one, an assigned row is ACTIVE |
| PoolRuns.RecordKeepsBounds | packages/proxy/src/pool.ts:184-186 | `recordHealth` keeps score, budget multiplier and counters in their bounds |
| PoolRuns.DecisionDeadline | packages/proxy/src/quarantine.ts:74-98 | the deadline set is now plus 15 or 30 minutes times 2 to the min(offences, 4), by the reason |
| PoolRuns.RecordKeepsDeadline | packages/proxy/src/pool.ts:184-217 | in every run a deadline lies at most 30 minutes times 2 to the min(count - 1, 4) ahead of the clock |
| PoolRuns.AssignmentAfter | packages/proxy/src/pool.ts:89-107 | a step assigns at most the chosen row of a claim, frees the worker's others, and moves a rotation stamp only with an assignment |
| PoolRuns.RunKeepsInv | packages/proxy/src/pool.ts:65-250 | every run from a good state stays good: one proxy per worker, coherent rows, bounded deadlines |
| PoolRuns.PoolAlwaysCoherent | packages/database/src/verify.ts:213-253 | in every run the unique index never fires and all four counts of the nightly check are zero |
| PoolRuns.LeaseLasts | packages/proxy/src/pool.ts:86-107 | through any steps of others, with any stale snapshots, a worker keeps its proxy and its stamp for thirty minutes unless the proxy is rested or removed |
| PoolRuns.OnlyExpiredLeasesAreTaken | packages/proxy/src/pool.ts:101-105 | a claim that changes the holder finds a lease older than the maximum |
| PoolRuns.BeginIsStamped | packages/proxy/src/rotation.ts:103-120 | a call in flight has seen a stamp no older than its worker's last scheduled rotation, and a scheduled rotation is already five minutes late |
| PoolRuns.RunKeepsRotationInv | packages/proxy/src/pool.ts:94-106 | with one acquire in flight per worker that knowledge holds along every run |
| PoolRuns.ScheduledRotationsAreSlow | packages/proxy/src/admin.ts:178-182 | two scheduled rotations of one worker are at least 300 seconds apart in every such run |
| PoolRest.CaptchaRestsIffSampleFailed | packages/proxy/src/pool.ts:168-178 | a CAPTCHA rests the proxy iff the sample failed |
| PoolRest.FailedProbesWearDown | packages/proxy/src/quarantine.ts:106-114 | n failed probes in a row, whatever they failed on, leave a score of max(0, h - 12n) |
| PoolRest.AlikeSamplesMoveScore | packages/proxy/src/quarantine.ts:106-114 | n samples of one outcome and source move the score n times as far, within 0 and 100 |
| PoolRest.SecondAuthFailureRests | packages/proxy/src/pool.ts:168-178 | a 403/407 failure rests the proxy iff the previous sample failed too |
| PoolRest.RestIsHonoured | packages/proxy/src/pool.ts:252-259 | if probes wait for `probeDue`, a row with a deadline stays out of service until it has passed, however often it is rested again without an earlier deadline |
| PoolRest.NoLeaseBeforeDeadline | packages/proxy/src/pool.ts:94-102 | and no lease is handed out on it before then |
| PoolRest.WaitingProbesHonourRests | packages/proxy/src/pool.ts:252-259 | if probes wait for `probeDue`, in every run a row becomes ACTIVE only at or after the deadline it then carries |
| PoolRest.ReleaseIffGoodProbe | packages/proxy/src/pool.ts:179-217 | exactly when a sample returns a quarantined row to service |
| PoolRest.SqlDueSetReleasesEarly | packages/proxy/src/selector.sql.ts:7-17 | a run in which the SQL due set lists a resting row and the probe releases it 25 minutes early |
| PoolRest.LongIntervalHonoursRests | packages/proxy/src/pool.ts:285-293 | with a probe interval of at least eight hours the next probe of a resting row is never due before its deadline, in every run |
| PoolRest.ShortIntervalBreaksRest | packages/proxy/src/selector.sql.ts:7-17 | for every shorter interval, a run in which the SQL due set lists a resting row and the probe ends its rest early |
| PoolRest.SqlDueSetHonoursRestsIff | packages/proxy/src/selector.sql.ts:7-17 | with probes taken from the SQL due set, every rest is honoured in every run if and only if the probe interval is at least eight hours |
| PoolRest.LaterOffenceRestsLonger | packages/proxy/src/pool.ts:184-217 | an offence never moves the deadline earlier when at most four came before or it is not an authentication failure |
| PoolRest.AfterOffences | packages/proxy/src/quarantine.ts:39-42 | the state after n rate limits: count, failing run and deadline |
| PoolRest.RestNeverShrinksIff | packages/proxy/src/quarantine.ts:91-94 | over all runs a further offence never shortens a rest if and only if the count is at most four or the reason is not authentication |
| PoolRest.RestHalvesBudget | packages/proxy/src/quarantine.ts:44-47 | a rest halves the budget, rounding up, and never below 12 percent |
| PoolRest.BudgetRecovers | packages/proxy/src/pool.ts:185 | clean samples double the budget; four restore it from any value and from the smallest no fewer do |
| PoolRest.DeadOnlyLeavesThroughRest | packages/proxy/src/pool.ts:216 | no step of any kind takes a DEAD row anywhere but to QUARANTINED, and only by resting it |
| PoolRest.RecoveredMeansStillDead | packages/proxy/src/pool.ts:216-248 | exactly when RECOVERED is written, and that the row is still DEAD then |
| PoolRest.MarkedDeadIsNeverLogged | packages/proxy/src/pool.ts:241-249 | no run ever writes a MARKED_DEAD event |
| PoolRest.RecordKeepsEvidence | packages/proxy/src/pool.ts:163-250 | one observation keeps every row's counters explained by the logs |
| PoolRest.CountersAreExplained | packages/proxy/src/pool.ts:163-250 | in every run successes, failures, the failing run, the score and the offence count of every row are folds of its append-only samples and events |
| ConcurrentHealth.CountsSurviveInterleaving | packages/proxy/src/pool.ts:188-240 | with reads, updates and inserts of any number of calls interleaved, success and failure counts equal the logged samples plus the calls not yet logged |
| ConcurrentHealth.StaleWriteKeepsRestIff | packages/proxy/src/pool.ts:163-223 | a late write leaves the row resting iff it rests it itself or read it resting without a good probe |
| ConcurrentHealth.StaleWriteExplainsIff | packages/proxy/src/pool.ts:163-223 | a late write leaves failing run, score and offence count the folds of the evidence iff the failing run it read is current or ended by the sample, both scores lead to the same next one, and no offence was counted in between |
| ConcurrentHealth.StaleWriteErasesRest | packages/proxy/src/pool.ts:163-223 | an interleaving in which a good sample undoes another call's quarantine and its offence, and the score differs from the fold of the two samples |
| ConcurrentHealth.StaleWriteLosesOffence | packages/proxy/src/pool.ts:163-223 | an interleaving of two rate limits that both rest the proxy and leave one offence, a failing run of one and the score of one failure |
| ConcurrentClaims.IndexRefusesIff | packages/proxy/src/pool.ts:89-107 | whatever commits between the two statements of a claim, the unique index refuses it iff the chosen row would be granted and another row came to the worker in between |
| ConcurrentClaims.SplitClaimKeepsOne | packages/database/src/migrations/0006_proxy_pool.sql:30-31 | a claim that commits leaves every worker at most one row, whatever happened in between |
| ConcurrentClaims.LoneClaimsAreAtomic | packages/proxy/src/pool.ts:86-107 | after any steps that commit no claim of the worker, the two statements are never refused and have the effect of the one step of the runs |
| ConcurrentClaims.TwinClaimsClash | packages/proxy/src/pool.ts:89-107 | of two claims of one worker that both run their first statement first, the later is refused |
| BookingMachine.FindIn | packages/booking/src/state-machine.ts:180-190 | a definition with that target and, if one is asked for, that trigger; none exactly if there is none |
| BookingMachine.FindsTheFirst | packages/booking/src/state-machine.ts:180-190 | and it is the first such definition |
| BookingMachine.EdgeIsRow | packages/booking/src/state-machine.ts:63-165 | the table and the edge relation agree on all 18 by 18 pairs |
| BookingMachine.AcceptedIffEdge | packages/booking/src/state-machine.ts:192-222 | a transition is accepted exactly along an edge, and terminal states have none |
| BookingMachine.TriggerDecidesTarget | packages/booking/src/state-machine.ts:63-194 | a trigger alone decides where a request goes, whatever state it is in, and every edge has one |
| BookingMachine.TerminalIffNoExit | packages/booking/src/state-machine.ts:63-169 | the four terminal states are exactly those without a way out, and all others can be cancelled |
| BookingMachine.RefusalListsTheExits | packages/booking/src/state-machine.ts:204-222 | a refused move is answered with exactly the states that can be reached |
| BookingMachine.SideEffectsFor | packages/booking/src/state-machine.ts:225-236 | every effect of every definition reaching the target, each once |
| BookingMachine.CancellationEffects | packages/booking/src/state-machine.ts:63-160 | every cancellation is audited and stops the monitors, except from RESERVED, where it cancels with the provider and refunds |
| BookingMachine.ExpiryEffects | packages/booking/src/state-machine.ts:79-113 | every expiry stops the monitors and is announced |
| BookingMachine.FailureEffects | packages/booking/src/state-machine.ts:70-158 | every failure is announced, except from LOCKED and PASSENGER_FORM |
| BookingMachine.AcceptanceEffects | packages/booking/src/state-machine.ts:64-78 | accepting creates monitors and takes quota, giving up then releases it |
| BookingMachine.SearchEffects | packages/booking/src/state-machine.ts:84-103 | every search gets a job and an attempt |
| BookingMachine.SubmissionEffects | packages/booking/src/state-machine.ts:89-118 | a match is stored and announced, a lock stores its token, a submission authorizes the charge |
| BookingMachine.InterruptionEffects | packages/booking/src/state-machine.ts:119-141 | a human check pauses, keeps its context, starts its clock and is announced; asking for approval is announced and sets a deadline |
| BookingMachine.RetryEffects | packages/booking/src/state-machine.ts:89-136 | a search without a match is recorded and backs off, an unused match is rejected, a lost seat backs off and is announced softly |
| BookingMachine.TicketEffects | packages/booking/src/state-machine.ts:119-157 | a hold is stored; a ticket settles the charge, is announced and cancels the lower priorities |
| BookingMachine.RowCharges | packages/booking/src/state-machine.ts:63-165 | in every row only LOCKED to RESERVING opens a charge, and exactly the ways out of the charged states (and LOCKED to CANCELLED) list a closing effect |
| BookingMachine.ChargesArePaired | packages/booking/src/state-machine.ts:63-165 | after every history at most one charge is open, one exactly in the six charged states, none in a terminal state |
| BookingMachine.HistoriesAreShort | packages/booking/src/state-machine.ts:63-165 | a history with r retries has at most 12 + 4r transitions |
| BookingMachine.BoundIsSharp | packages/booking/src/state-machine.ts:63-165 | for every r some booked history reaches that bound |
| BookingMachine.SubmissionBefore | packages/booking/src/state-machine.ts:104-150 | a history under reservation passed AVAILABLE, LOCKED, RESERVING in a row and stayed charged since |
| BookingMachine.BookedWentThroughReservation | packages/booking/src/state-machine.ts:104-160 | every booked history did so and reached BOOKED from RESERVED, as its last step |
| BookingMachine.OnlyLiveReservationsCanFail | packages/booking/src/service.ts:216-221 | with what the service passes, only the check on live reservations can stop a transition |
| BookingMachine.HistoriesPassTheChecks | packages/booking/src/state-machine.ts:255-298 | given its true history and open charges, a request is stopped exactly by a second live reservation or by being BOOKED with no provider reference; the checks on exits, availability and charges never fire |
| BookingMachine.ReachableStates | packages/booking/src/state-machine.ts:311-324 | the search returns exactly the states some path leads to, each once, sorted by name |
| BookingService.Service.CreateRequest | packages/booking/src/service.ts:86-146 | a used key replays the earlier request, exactly when it is used and not empty; otherwise one CREATED request appears whose columns are those asked for, with one timeline row; keys stay unique; when it fails; nothing else changes |
| BookingService.Service.Transition | packages/booking/src/service.ts:152-225 | it succeeds iff the request is the tenant's, the move is an edge and no two of its reservations are pending, held, reserved or booked; otherwise the error says which, with the exits of the state, and the whole store is unchanged; on success status, stamps, reason, one log row and one timeline row with exactly the effects of the move, column by column |
| BookingService.LiveReservationsMeans | packages/booking/src/service.ts:60 | the count exceeds one iff there are two reservations of the tenant's request that have not ended |
| BookingService.Service.CancelRow | packages/booking/src/service.ts:328-350 | the four statements for one row of the auto-cancel: it is cancelled with its reason and one log row, other requests and all reservations stay |
| BookingService.Service.CancelLowerPriorities | packages/booking/src/service.ts:289-355 | the result lists exactly the targeted requests, each once, and the store is the fold of cancelling them, spelled out by AutoCancelReadsColumns |
| BookingService.ResultTable.SelectResult | packages/booking/src/service.ts:357-377 | the result becomes the only selected one of its request, or nothing changes |
| BookingService.AutoCancelIsExact | packages/booking/src/service.ts:284-355 | exactly the targeted requests and their ACTIVE monitors change, every logged move is an edge, and repeating it finds nothing |
| BookingService.AutoCancelReadsColumns | packages/booking/src/service.ts:284-355 | who is cancelled, on the columns: the user's other requests on the journey with a larger priority number, neither finished nor locked nor charged; and every column of requests, monitors, log and timeline afterwards |
| BookingService.LoggedMoveKeepsInv | packages/booking/src/service.ts:171-214 | moving along an edge with one row in each log keeps log, timeline, status and stamps of every request in agreement |
| BookingService.LogAndStatusAgree | packages/booking/src/service.ts:86-355 | after any sequence of calls each request's log is a chained path from CREATED to its status, its timeline is one longer, and its stamps match |
| BookingService.LogsObeyTheMachine | packages/booking/src/service.ts:152-225 | so each logged history has paired charges and at most 12 + 4r rows |
| BookingService.TerminalIsFinal | packages/booking/src/service.ts:152-355 | once terminal, a request and its log never change again, whatever is called |
| BookingService.CrashedCreateStaysUnlogged | packages/booking/src/service.ts:97-146 | after a crash between the insert and the first timeline row, in every later run of the service the timeline stays one row short |
| BookingService.AutoCancelLeavesCompletionUnset | packages/booking/src/service.ts:328-333 | an auto-cancel leaves the completion time empty where `transition` would set it |
| AuditChain.AuditLog.constructor | packages/database/src/migrations/index.ts:22 | an empty log |
| AuditChain.AuditLog.Insert | packages/database/src/migrations/0002_hardening.sql:49-68 | the trigger appends one row, linked to the last one under the inserting session's rendering; a chain that verifies under that rendering still does |
| AuditChain.AuditLog.VerifyAuditChain | packages/database/src/migrations/0002_hardening.sql:70-96 | the walk accepts iff every row is linked and hashed right under the verifying session's rendering; otherwise it names the first bad row and how many rows it looked at |
| AuditChain.HashedSplits | packages/database/src/migrations/index.ts:22 | the previous hash and the payload can be read off the hashed text |
| AuditChain.SameEndSameHistory | packages/database/src/migrations/index.ts:22 | verified chains with the same last hash have the same length, hashes and payloads throughout, or exhibit a collision |
| AuditChain.LastHashFixesHistoryIff | packages/database/src/migrations/index.ts:22 | what a remembered last hash fixes: a table verifies and ends in it iff it has the chain's hashes and hashed payloads row by row, short of a collision |
| AuditChain.UnhashedColumnsAreFree | packages/database/src/migrations/0001_init.sql:985-1002 | what it does not fix: with tenant, actor, addresses and metadata of any rows rewritten, a verified chain still verifies and ends in the same hash |
| AuditChain.HashedColumnsAreFixedIff | packages/database/src/migrations/0002_hardening.sql:49-96 | behind a remembered last hash the hashed columns of a row can be rewritten iff the row is ambiguous, short of a collision |
| AuditChain.HashesAreDistinct | packages/database/src/migrations/index.ts:22 | no hash occurs twice in a verified chain, short of a collision |
| AuditChain.ConcurrentInsertsBreakTheChain | packages/database/src/migrations/index.ts:22 | two inserts that read the same last row cannot both verify, short of a collision |
| AuditChain.TruncationVerifies | packages/database/src/migrations/index.ts:22 | every prefix verifies, and only its last hash tells it from the whole |
| AuditChain.RenderingDecides | packages/database/src/migrations/0002_hardening.sql:57-85 | a row linked under one rendering of timestamps is accepted under another iff both write its instant alike, or the two texts collide |
| AuditChain.VerifiesUnderIff | packages/database/src/migrations/0002_hardening.sql:57-85 | a chain built by inserts alone verifies in a session iff that session writes every row's instant as the inserting one did, or the texts collide |
| AuditChain.PayloadIsAmbiguousIff | packages/database/src/migrations/index.ts:22 | the payload determines the hashed columns unless, and exactly unless, a field contains a bar, a digest is absent or empty, or another instant is written alike |
| AuditChain.PayloadsCanCoincide | packages/database/src/migrations/index.ts:22 | an example: a bar moved from one field to the next |
| AuditChain.PayloadExample | packages/database/src/migrations/0002_hardening.sql:49-68 | one row's payload, written out: the fields in their order between bars |
| Sessions.SessionService.constructor | packages/auth/src/session.ts:82-86 | no sessions, version zero |
| Sessions.SessionService.InvalidateIssuedTokens | packages/auth/src/session.ts:89-92 | the version grows by one and is returned |
| Sessions.SessionService.Create | packages/auth/src/session.ts:94-135 | one fresh live session of that user, tenant, family and token, with its expiry, or a unique violation, exactly when id or token is taken, and no change |
| Sessions.SessionService.Authenticate | packages/auth/src/session.ts:138-169 | accepted exactly for a live, unexpired session of the tenant, an active user and the current version, and then for that session's user and tenant; each refusal with its condition |
| Sessions.SessionService.Rotate | packages/auth/src/session.ts:175-252 | every outcome with its condition: malformed, unknown, reuse (exactly the live sessions of the family revoked), expired, inactive, unique violation, or the exchange: a live successor with the user, tenant and family of the presented session, which is revoked and names it |
| Sessions.SessionService.Revoke | packages/auth/src/session.ts:254-259 | only that session, and only if live, is revoked, with the reason and the time; nothing else changes |
| Sessions.SessionService.RevokeAllForUser | packages/auth/src/session.ts:261-268 | exactly the user's live sessions are revoked and counted |
| Sessions.FreshSessionAuthenticates | packages/auth/src/session.ts:94-169 | right after a successful create, its id and tenant authenticate exactly until the expiry, for an active user and the current version |
| Sessions.RotationMovesAuthentication | packages/auth/src/session.ts:138-252 | right after an exchange the successor authenticates exactly until its expiry, for the same user and tenant, and the exchanged session never |
| Sessions.InvalidationShutsOutVersions | packages/auth/src/session.ts:89-169 | after the version is raised, of the tokens accepted before exactly those without a version still are |
| Sessions.RotationGrowsChain | packages/auth/src/session.ts:210-231 | an exchange extends the family's chain of replacements at its end |
| Sessions.FamiliesAreChains | packages/auth/src/session.ts:171-252 | in every run each family is one chain of replacements, only its end can be live, and no refresh token is exchanged twice |
| Sessions.ReuseKillsFamily | packages/auth/src/session.ts:187-198 | presenting a spent token leaves its family without a live session |
| Sessions.DeadFamilyStaysDead | packages/auth/src/session.ts:138-283 | after that no step of any run makes a session of the family live, and no exchange on it succeeds |
| Sessions.LateWriteKeepsOneLiveIff | packages/auth/src/session.ts:179-231 | a write after a stale read keeps one live session iff no other session of the family is live by then |
| Sessions.LateWriteRevivesDeadFamily | packages/auth/src/session.ts:179-231 | a write after a stale read puts a live session, its successor and no other, into a family that was killed in between |
| Sessions.DoubleExchangeForks | packages/auth/src/session.ts:179-231 | two exchanges that both read the token live leave two live sessions |
| Migrations.Database.constructor | packages/database/src/migrate.ts:43-53 | no records |
| Migrations.Database.ListApplied | packages/database/src/migrate.ts:55-60 | exactly the recorded names, ascending |
| Migrations.Database.Plan | packages/database/src/migrate.ts:62-80 | the catalogue filtered by being unrecorded, and by being recorded with another checksum, both in its order |
| Migrations.PlanIsFiltered | packages/database/src/migrate.ts:62-80 | the two lists as filters of the catalogue |
| Migrations.PendingIsNew | packages/database/src/migrate.ts:69-78 | nothing pending is recorded or listed twice |
| Migrations.Database.ApplyAll | packages/database/src/migrate.ts:109-120 | each migration runs and is recorded together, in order, up to the first name already recorded |
| Migrations.Database.Skipped | packages/database/src/migrate.ts:121-123 | exactly the recorded names not applied by this run |
| Migrations.Database.MigrateUp | packages/database/src/migrate.ts:90-131 | refused with nothing changed iff some migration is recorded with another checksum, and the error names exactly those in order; otherwise exactly the missing migrations run in order, each is recorded with its checksum, and the rest is reported as skipped |
| Migrations.PendingAfterPrefix | packages/database/src/migrate.ts:62-80 | with the first n recorded, the plan is the rest and there is no drift |
| Migrations.PlannerBreaksIffChanged | packages/database/src/migrate.ts:75-99 | in the runs, a runner that plans is broken at once iff some recorded checksum differs, and otherwise plans exactly the missing migrations |
| Migrations.ApplySucceedsIffNext | packages/database/src/migrate.ts:109-119 | under interleaving a runner's next migration succeeds iff it is the next one due; otherwise the runner breaks and releases the lock |
| Migrations.AppliedIsAPrefix | packages/database/src/migrate.ts:90-131 | any runners with any stale plans, with or without lock, crashing anywhere: what has run is always a prefix, each migration once and recorded |
| Migrations.LockExcludes | packages/database/src/migrate.ts:105-128 | of the runners that take the lock at most one is between lock and unlock |
| Migrations.LockExcludesIff | packages/database/src/migrate.ts:105-128 | over pooled sessions the lock keeps runners apart in every run iff no two lock on one session and no idle session is closed |
| Migrations.LockIsReturnedIff | packages/database/src/migrate.ts:105-128 | it is free in every run whenever no runner is at work iff each unlocks on the session it locked |
| Migrations.StaleRunnerBreaks | packages/database/src/migrate.ts:90-119 | for every catalogue, a run in which a runner that holds the lock fails on a name recorded after its plan was made, and runs nothing |
| Migrations.RecoverAndRepeat | packages/database/src/migrate.ts:90-131 | from any prefix one undisturbed run completes it and the next applies nothing |
| Validation.DigitsOfIsWhatIsSpelled | packages/shared/src/validation.ts:20-24 | the digits a card or id validator sees are exactly those typed, in any mix of Latin, Persian and Arabic-Indic digits and with any separators |
| Validation.IsValidSheba | packages/shared/src/validation.ts:124-132 | the digit loop accepts iff the text has the shape and the whole expanded number leaves 1 modulo 97 |
| Prelude.SpacesAreListed | packages/shared/src/validation.ts:125 | the class of white space removed there and in money.ts is the 25 characters ECMA-262 lists |
| Validation.ShebaIgnoresSeparators | packages/shared/src/validation.ts:125 | white space and hyphens make no difference anywhere in the input |
| Validation.ShebaTextOfPlain | packages/shared/src/validation.ts:125 | without them every character counts as itself, in upper case and with ASCII digits |
| Validation.ShebaIgnoresCase | packages/shared/src/validation.ts:125 | neither does the case of its letters |
| Validation.ShebaLayout | packages/shared/src/validation.ts:127-128 | that number is the account, 1827, and the check digits |
| Validation.ShebaSubstitution | packages/shared/src/validation.ts:124-132 | a valid SHEBA with one digit of the 24 replaced is valid iff the digit is the same |
| Validation.ShebaTransposition | packages/shared/src/validation.ts:124-132 | a valid SHEBA with any two of its 24 digits exchanged, adjacent or not, is valid iff they are equal |
| Validation.ShebaCheckDigits | packages/shared/src/validation.ts:124-132 | for every account exactly one pair in 02..98 is accepted, the standard's; a pair is accepted iff it agrees with it modulo 97 |
| Validation.UnusualCheckDigitsAccepted | packages/shared/src/validation.ts:124-132 | the pairs 00, 01 and 99 are each accepted for some account |
| Validation.IsValidCardNumber | packages/shared/src/validation.ts:111-121 | the right-to-left loop accepts iff there are 16 digits and the doubled-digit total is a multiple of ten |
| Validation.CardPair | packages/shared/src/validation.ts:114-119 | which digits are doubled: of each pair of digits the first counts twice, less nine from five on, and the second once |
| Validation.CardCheckDigit | packages/shared/src/validation.ts:111-121 | whatever the first fifteen digits, exactly one last digit is accepted, the one that completes the total to a multiple of ten |
| Validation.Doubled | packages/shared/src/validation.ts:117 | for a digit: twice it, less nine when that has two digits |
| Validation.CardSubstitution | packages/shared/src/validation.ts:111-121 | a valid card number with one digit replaced is valid iff the digit is the same |
| Validation.CardTransposition | packages/shared/src/validation.ts:111-121 | exchanging neighbours escapes notice iff they are equal or a 0 and a 9 |
| Validation.CardJumpTransposition | packages/shared/src/validation.ts:114-119 | exchanging digits two places apart always escapes notice |
| Validation.IsValidIranianNationalId | packages/shared/src/validation.ts:8-17 | the loop accepts iff there are ten digits, not all equal, and the last is the check digit of the weighted sum |
| Validation.RepdigitsAreRefused | packages/shared/src/validation.ts:11 | ten equal digits are refused whatever their weighted sum, which is 54 times the digit |
| Validation.NationalIdCongruence | packages/shared/src/validation.ts:12-16 | the check is one congruence modulo 11 over all ten digits, except that sum 2 with check digit 1 also passes |
| Validation.NationalIdSubstitution | packages/shared/src/validation.ts:8-17 | the exact fate of every single changed digit of a valid id |
| Validation.NationalIdTransposition | packages/shared/src/validation.ts:8-17 | the exact fate of exchanging any two digits of any valid id, the check digit included; with neither check digit 1 it passes iff they are equal |
| Validation.NationalIdLimit | packages/shared/src/validation.ts:8-17 | a valid id notices every single-digit error if and only if its check digit is not 1 |
| Money.SumMeans | packages/shared/src/money.ts:81-89 | a sum succeeds iff it has a currency, uses no other and every running total is safe; it is then the mathematical sum |
| Money.ReduceFrom | packages/shared/src/money.ts:87-88 | the same for the reduce caught after any number of amounts |
| Money.SumDependsOnOrder | packages/shared/src/money.ts:81-89 | the same three amounts sum or fail depending on their order |
| Money.Match | packages/shared/src/money.ts:167-169 | whatever the pattern finds is a well-written amount that spells the whole text |
| Money.MatchFinds | packages/shared/src/money.ts:167-169 | the pattern reads every well-written amount, in exactly one way |
| Money.ParseMeans | packages/shared/src/money.ts:166-178 | a readable input parses to its minor units, or fails on decimals or on the safe bound; everything else is an invalid amount |
| Money.ParseIgnoresSeparators | packages/shared/src/money.ts:166-168 | commas and white space make no difference anywhere in the input |
| Money.CanonicalValue | packages/shared/src/money.ts:151-160 | the printed unit and fraction stand for the amount, with exactly the currency's decimals |
| Money.PrintedExamples | packages/shared/src/money.ts:150-160 | three amounts written out, which fix the decimals of each currency |
| Money.ParseOfPrint | packages/shared/src/money.ts:150-178 | parsing what was printed gives the amount back, for every safe amount and currency |
| Money.PrintOfParse | packages/shared/src/money.ts:150-178 | printing what was parsed gives the canonical form: no leading zeros, all decimals, no minus on zero |
| Money.SameAmountSameText | packages/shared/src/money.ts:150-178 | two accepted texts mean the same amount iff their canonical forms agree |
| Doubles.RoundingExists | packages/shared/src/money.ts:100-102 | some function rounds every real in the normal range to nearest, ties to even, so the assumption of the theorems on products can be met |
| Doubles.NearestIsUnique | packages/shared/src/money.ts:100-102 | however a real is placed between neighbouring doubles, the nearest is the same |
| Doubles.IntegerIsRounded | packages/shared/src/money.ts:100-102 | a whole number of either sign below 2^107 is rounded to the nearest one of 53 binary digits and a power of two, half way to the even one |
| Doubles.RoundedReachesIff | packages/shared/src/money.ts:102 | the rounded quotient of two integers reaches an integer n iff the exact one does or misses it by less than half the distance of doubles below n, or by exactly half when n is the even one |
| Doubles.RoundedStaysIff | packages/shared/src/money.ts:102 | and it does not exceed n iff the exact one does not or exceeds it by as little, with the distance above n |
| Doubles.RoundedQuotient | packages/shared/src/money.ts:102 | rounding a quotient keeps its whole part, for numerators up to half the divisor above 2^53 |
| Money.DivideIsComputed | packages/shared/src/money.ts:100-102 | for every safe product the double computation gives the integer computation with only the shifted magnitude rounded |
| Money.ScaledIsNearestIff | packages/shared/src/money.ts:100-102 | without rounding, the computation is the nearest integer, ties away from zero, iff the denominator is positive or does not divide the shifted magnitude |
| Money.RoundsToUnique | packages/shared/src/money.ts:91-94 | there is only one nearest integer with ties away from zero |
| Money.ComputedIsNearestIff | packages/shared/src/money.ts:100-102 | with rounding: for a positive denominator iff no odd shifted magnitude above 2^53 is carried over a multiple of it; for a negative one as without rounding |
| Money.DivideIsNearestIff | packages/shared/src/money.ts:100-103 | for every product of safe integers: whether the result is an amount, and whether it is the nearest integer, as comparisons of integers |
| Money.MultiplyRounds | packages/shared/src/money.ts:95-104 | for every safe amount and all other arguments: each error with its condition, and exactly when the result is the nearest integer to the product; for a safe product it never fails and the condition is a remainder |
| Money.PositiveDenominatorCanMiss | packages/shared/src/money.ts:100-102 | 9007199254740989 times 1/12 gives the wrong neighbour |
| Money.NegativeDenominatorMisses | packages/shared/src/money.ts:100-102 | with the denominator -1 no product of any size gives the nearest integer, with examples |
| Money.BasisPointsRound | packages/shared/src/money.ts:106-110 | for every safe amount: when basis points fail, and exactly when they round to the nearest minor unit; for a safe product always |
| Money.BasisPointsCanMiss | packages/shared/src/money.ts:106-110 | 10000 basis points of 9007199254740992 are 9007199254740993 |
| Decimals.Print | packages/shared/src/money.ts:157-158 | a numeral without leading zeros whose value is the number |
| Decimals.PrintOfValue | packages/shared/src/money.ts:154-159 | printing a numeral's value strips its leading zeros and changes nothing else |

## Left out

- The network, HTTP routes, the web console, worker and scheduler loops, the prober's transport: a probe is an arbitrary PROBE sample.
- Credential encryption, password hashing, JWT signing and the inside of SHA-256: tokens are fresh values, hashes are functions.
- Pool.ProxyPool.Create: label, host, port and credential validation and the uniqueness of protocol, host and port; fractional settings, which `Math.round` would round first.
- Pool.ProxyPool.Update: the same, and the columns for label, host, port, region and credentials.
- Pruning of old samples: the evidence theorem is about runs without it.
- A crash between a pool update and its event or sample: each pool call is one step, except in ConcurrentHealth, where the sample insert is its own step and events are left out.
- PoolRuns.PoolAlwaysCoherent: a claim is one step there; ConcurrentClaims states when its two statements have that effect and when the unique index refuses them.
- ConcurrentClaims: the first statement's row locks are an assumption on what commits in between; deadlocks are left out.
- PoolRuns.ScheduledRotationsAreSlow: assumes that each worker waits for its acquire before starting another.
- PoolRest.RestIsHonoured: assumes that probes of rows out of service wait for `probeDue` (for the SQL due set see SqlDueSetHonoursRestsIff), and leaves aside runs that set an earlier deadline (RestNeverShrinksIff) or remove the row.
- PoolRest.SqlDueSetHonoursRestsIff: the prober's query and its sample happen at one instant.
- Transition guards, unknown state strings, actors, correlation ids and message parameters other than side effects; request fields beyond route, priority, key and status.
- BookingService.Service.CreateRequest: looks up, inserts and appends to the timeline in one step, where the source runs three statements outside a transaction; CrashedCreateStaysUnlogged states what a crash before the last leaves. Of two calls with one fresh key that both look it up first, the later fails on the unique index instead of replaying.
- Sessions.FamiliesAreChains: `rotate` is one atomic step there; what happens otherwise is stated by LateWriteKeepsOneLiveIff, LateWriteRevivesDeadFamily and DoubleExchangeForks.
- Migrations.LockExcludes: a runner owns one database session there; the client takes any pooled connection for each query (packages/database/src/client.ts:183-196), which LockExcludesIff and LockIsReturnedIff cover for the lock alone.
- Migrations of two different program versions at work at once, a migration's SQL, its duration and who applied it.
- Mobile, email, password and passenger validation in validation.ts and formatting in money.ts: flat patterns or `Intl` calls.
- Validation.IsValidSheba: upper-casing covers ASCII and the dotless i, the only other character whose upper case is I or R; strings with lone surrogates are not represented.
- Minus zero is zero in Money. Subnormal numbers and overflow do not occur in it and are left open by the rounding property.
- AuditChain.AuditLog.Insert: an event without a creation time gets the clock's before it is hashed; the entry carries the time it ends up with.
- Monitoring cadence, match scoring, time zones, configuration, RBAC, capabilities: final clamps, weights or case lists.
