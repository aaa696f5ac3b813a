/**
  * The egress pool (packages/proxy/src/pool.ts, admin.ts): a catalogue of proxies that workers lease,
  * that health samples rest and recover, and that an administrator edits. Database time and process
  * time are one clock in milliseconds; fresh UUIDs are parameters.
  */
module Pool {
  import opened Prelude
  import opened Quarantine
  import opened Rotation

  datatype Proxy = Proxy(
    providerCode: Option<string>,
    enabled: bool,
    status: Status,
    healthScore: int,
    latencyMs: Option<int>,
    successCount: int,
    failureCount: int,
    consecutiveFailures: int,
    lastSuccessAt: Option<int>,
    lastFailureAt: Option<int>,
    lastErrorClass: Option<FailureClass>,
    quarantinedUntil: Option<int>,
    quarantineCount: int,
    rotationSeconds: int,
    assignedWorkerId: Option<string>,
    assignedAt: Option<int>,
    lastRotatedAt: Option<int>,
    requestsPerMinute: int,
    multiplierPct: int,
    probeAfter: Option<int>)

  datatype EventType =
    | CreatedEvent | UpdatedEvent | EnabledEvent | DisabledEvent | RemovedEvent
    | QuarantinedEvent | MarkedDeadEvent | QuarantineReleasedEvent | RecoveredEvent
    | LeaseAcquiredEvent | LeaseReleasedEvent

  /** Evidence rows keep existing when their proxy is removed; the foreign key becomes NULL. */
  datatype EventRow = EventRow(proxyId: Option<nat>, kind: EventType)
  datatype SampleRow = SampleRow(proxyId: Option<nat>, sample: Sample)

  datatype Db = Db(rows: map<nat, Proxy>, samples: seq<SampleRow>, events: seq<EventRow>)

  const MAX_LEASE_MS := 30 * 60_000
  const MAX_PROXIES := 200
  const MIN_ROTATION_SECONDS := 300
  const MAX_ROTATION_SECONDS := 86_400
  const DEFAULT_ROTATION_SECONDS := 3_600
  const MAX_REQUESTS_PER_MINUTE := 60
  const DEFAULT_REQUESTS_PER_MINUTE := 10

  // ------------------------------------------------------------------ leasing

  function Selectable(id: nat, row: Proxy): SelectableProxy {
    SelectableProxy(id, row.providerCode, row.enabled, row.status, row.healthScore, row.quarantinedUntil,
                    row.rotationSeconds, row.assignedWorkerId, row.lastRotatedAt)
  }

  ghost predicate Enumerates(order: seq<nat>, rows: map<nat, Proxy>) {
    NoDuplicates(order) && forall id :: id in order <==> id in rows
  }

  function Listing(order: seq<nat>, rows: map<nat, Proxy>): seq<SelectableProxy>
    requires forall id :: id in order ==> id in rows
  {
    seq(|order|, i requires 0 <= i < |order| => Selectable(order[i], rows[order[i]]))
  }

  /** What the first half of `acquire` carries into the claiming transaction. */
  datatype Claim = Claim(workerId: string, now: int, choice: SelectableProxy, sticky: bool, rotated: bool,
      minHealthScore: int)

  /** The WHERE clause that re-validates the chosen row. */
  predicate Claimable(row: Proxy, c: Claim) {
    && row.enabled
    && row.status == Active
    && (row.quarantinedUntil.None? || row.quarantinedUntil.value <= c.now)
    && row.healthScore >= c.minHealthScore
    && (row.assignedWorkerId.None? || row.assignedWorkerId == Some(c.workerId)
        || row.assignedAt.None? || row.assignedAt.value < c.now - MAX_LEASE_MS)
  }

  predicate Granted(rows: map<nat, Proxy>, c: Claim) {
    c.choice.id in rows && Claimable(rows[c.choice.id], c)
  }

  function RotationStamp(c: Claim): int {
    if c.rotated || !c.sticky || c.choice.lastRotatedAt.None? then c.now else c.choice.lastRotatedAt.value
  }

  function Taken(row: Proxy, c: Claim): Proxy {
    row.(assignedWorkerId := Some(c.workerId), assignedAt := Some(c.now), lastRotatedAt := Some(RotationStamp(c)))
  }

  function Freed(row: Proxy): Proxy {
    row.(assignedWorkerId := None, assignedAt := None)
  }

  /** One row after the claiming transaction: the chosen row is taken if it still qualifies; every other
      row of the worker is freed, even when the claim is lost. */
  function AfterClaim(id: nat, row: Proxy, c: Claim): Proxy {
    if id == c.choice.id then (if Claimable(row, c) then Taken(row, c) else row)
    else if row.assignedWorkerId == Some(c.workerId) then Freed(row)
    else row
  }

  function ClaimDb(db: Db, c: Claim): Db {
    Db(map id | id in db.rows :: AfterClaim(id, db.rows[id], c),
       db.samples,
       if Granted(db.rows, c) then db.events + [EventRow(Some(c.choice.id), LeaseAcquiredEvent)] else db.events)
  }

  /** Releasing a lease on a removed proxy fails on the event's foreign key and changes nothing. */
  function ReleaseDb(db: Db, workerId: string, id: nat): Db {
    if id !in db.rows then db
    else
      Db(if db.rows[id].assignedWorkerId == Some(workerId) then db.rows[id := Freed(db.rows[id])] else db.rows,
         db.samples,
         db.events + [EventRow(Some(id), LeaseReleasedEvent)])
  }

  function EffectiveRpm(row: Proxy): int {
    Max(1, (2 * row.requestsPerMinute * row.multiplierPct + 100) / 200)
  }

  /** The budget handed out never exceeds the configured one, is never zero, and is otherwise the configured
      one scaled to the nearest whole request, halves upwards. */
  lemma EffectiveRpmIsNearest(row: Proxy)
    requires 1 <= row.requestsPerMinute && 0 <= row.multiplierPct <= 100
    ensures 1 <= EffectiveRpm(row) <= row.requestsPerMinute
    ensures
      var exact := row.requestsPerMinute * row.multiplierPct;
      if exact < 50 then EffectiveRpm(row) == 1
      else 100 * EffectiveRpm(row) - 50 <= exact < 100 * EffectiveRpm(row) + 50
    ensures row.multiplierPct == 100 ==> EffectiveRpm(row) == row.requestsPerMinute
  {
    ScaledRequests(row.requestsPerMinute, row.multiplierPct);
    RoundedHundredths(2 * row.requestsPerMinute * row.multiplierPct);
  }

  lemma ScaledRequests(rpm: int, pct: int)
    requires 1 <= rpm && 0 <= pct <= 100
    ensures 2 * rpm * pct == 2 * (rpm * pct) && rpm * pct <= 100 * rpm
    ensures pct == 100 ==> rpm * pct == 100 * rpm
  {
    assert rpm * (100 - pct) >= 0;
    assert rpm * (100 - pct) == rpm * 100 - rpm * pct;
  }

  lemma RoundedHundredths(twice: int)
    ensures 200 * ((twice + 100) / 200) <= twice + 100 < 200 * ((twice + 100) / 200) + 200
  {
  }

  // ------------------------------------------------------------------ health

  /** Still inside its rest window. */
  predicate Resting(row: Proxy, now: int) {
    row.quarantinedUntil.Some? && row.quarantinedUntil.value > now
  }

  predicate GoodProbe(sample: Sample) { sample.ok && sample.source == Probe }

  function NextFailures(row: Proxy, sample: Sample): int {
    if sample.ok then 0 else row.consecutiveFailures + 1
  }

  function StateOf(row: Proxy, failures: int): QuarantineState {
    QuarantineState(failures, row.multiplierPct, row.quarantineCount, None)
  }

  /** The decision the pool acts on; the counter it passes already includes this sample. */
  function PoolDecision(row: Proxy, sample: Sample, now: int): Decision {
    if Resting(row, now) && GoodProbe(sample) then
      Decision(false, None, ProbeOkDuringRest, row.multiplierPct)
    else
      DecideQuarantine(sample, StateOf(row, NextFailures(row, sample)), now)
  }

  function MarksDead(row: Proxy, sample: Sample, now: int): bool {
    !Resting(row, now) && ShouldMarkDead(NextFailures(row, sample), sample)
  }

  function NextProbeAfter(row: Proxy, d: Decision, now: int, probeIntervalSeconds: int): int {
    (if d.quarantine && Resting(row, now) then row.quarantinedUntil.value else now) + probeIntervalSeconds * 1000
  }

  /** The UPDATE of `recordHealth`: values computed from the row as `read`, applied to the row as it is `now`. */
  function WriteHealth(read: Proxy, current: Proxy, sample: Sample, now: int, probeIntervalSeconds: int): Proxy {
    var d := PoolDecision(read, sample, now);
    current.(
      healthScore := NextHealthScore(read.healthScore, sample),
      latencyMs := if sample.latencyMs.Some? then sample.latencyMs else read.latencyMs,
      successCount := current.successCount + (if sample.ok then 1 else 0),
      failureCount := current.failureCount + (if sample.ok then 0 else 1),
      consecutiveFailures := NextFailures(read, sample),
      lastSuccessAt := if sample.ok then Some(now) else current.lastSuccessAt,
      lastFailureAt := if sample.ok then current.lastFailureAt else Some(now),
      lastErrorClass := sample.errorClass,
      status :=
        if MarksDead(read, sample, now) then Dead
        else if d.quarantine then Quarantined
        else if read.status == Quarantined && GoodProbe(sample) then Active
        else read.status,
      quarantinedUntil :=
        if d.quarantine then d.until else if GoodProbe(sample) then None else read.quarantinedUntil,
      quarantineCount := if d.quarantine then read.quarantineCount + 1 else read.quarantineCount,
      multiplierPct :=
        if d.quarantine then d.multiplierPct
        else if sample.ok then Min(100, read.multiplierPct * 2) else read.multiplierPct,
      probeAfter := Some(NextProbeAfter(read, d, now, probeIntervalSeconds)),
      assignedWorkerId := if d.quarantine then None else current.assignedWorkerId,
      assignedAt := if d.quarantine then None else current.assignedAt)
  }

  function HealthEvents(id: nat, row: Proxy, sample: Sample, now: int): seq<EventRow> {
    if PoolDecision(row, sample, now).quarantine then [EventRow(Some(id), QuarantinedEvent)]
    else if MarksDead(row, sample, now) then [EventRow(Some(id), MarkedDeadEvent)]
    else if GoodProbe(sample) && row.status == Quarantined then [EventRow(Some(id), QuarantineReleasedEvent)]
    else if GoodProbe(sample) && row.status == Dead then [EventRow(Some(id), RecoveredEvent)]
    else []
  }

  /** One whole `recordHealth` call with nothing in between. */
  function RecordDb(db: Db, id: nat, sample: Sample, now: int, probeIntervalSeconds: int): Db {
    if id !in db.rows then db
    else
      var row := db.rows[id];
      Db(db.rows[id := WriteHealth(row, row, sample, now, probeIntervalSeconds)],
         db.samples + [SampleRow(Some(id), sample)],
         db.events + HealthEvents(id, row, sample, now))
  }

  // --- the same, read off the columns

  /** The provider restricts this egress, or the sample failed on a challenge, or access was denied on it for the
      second time in a row. */
  ghost predicate Offends(row: Proxy, sample: Sample) {
    || sample.httpStatus == Some(429) || sample.errorClass == Some(RateLimit) || sample.blockPage
    || (!sample.ok && (sample.captchaSeen || (Denied(sample) && 1 <= row.consecutiveFailures)))
  }

  ghost predicate Denied(sample: Sample) {
    !sample.ok && (sample.httpStatus == Some(403) || sample.httpStatus == Some(407) || sample.errorClass == Some(Auth))
  }

  /** Nothing but a denial: it rests for a quarter of an hour, every other offence for half an hour. */
  ghost predicate OnlyDenied(sample: Sample) {
    !(sample.httpStatus == Some(429) || sample.errorClass == Some(RateLimit) || sample.blockPage || sample.captchaSeen)
  }

  /** A good probe inside the rest window. */
  ghost predicate Forgiven(row: Proxy, sample: Sample, now: int) {
    sample.ok && sample.source == Probe && row.quarantinedUntil.Some? && now < row.quarantinedUntil.value
  }

  /** The fifth failure in a row outside a rest window, and a hard one. */
  ghost predicate Kills(row: Proxy, sample: Sample, now: int) {
    && (Denied(sample) || (!sample.ok && sample.blockPage)) && 4 <= row.consecutiveFailures
    && (row.quarantinedUntil.Some? ==> row.quarantinedUntil.value <= now)
  }

  /** The decision in closed form: the order of the branches does not matter for whether to rest. */
  lemma RestsIffOffence(row: Proxy, sample: Sample, now: int)
    requires 0 <= row.consecutiveFailures
    ensures PoolDecision(row, sample, now).quarantine <==> Offends(row, sample) && !Forgiven(row, sample, now)
    ensures MarksDead(row, sample, now) <==> Kills(row, sample, now)
    ensures Kills(row, sample, now) ==> Offends(row, sample)
  {
    hide RestWindowSeconds, TightenedBudgetPercent;
  }

  /** A row that is rested: out of service and without a lease, one offence more, until a quarter or half an hour
      times two to the number of earlier offences, at most four, has passed, with half its budget. */
  ghost predicate Rested(row: Proxy, sample: Sample, now: int, after: Proxy)
    requires 0 <= row.quarantineCount
  {
    && after.status == (if Kills(row, sample, now) then Dead else Quarantined)
    && after.assignedWorkerId.None? && after.assignedAt.None?
    && after.quarantineCount == row.quarantineCount + 1
    && after.quarantinedUntil
       == Some(now + (if OnlyDenied(sample) then 900_000 else 1_800_000) * Pow2(Min(row.quarantineCount, 4)))
    && after.multiplierPct == Max(12, (row.multiplierPct + 1) / 2)
  }

  /** A row that is not: it keeps its lease and offences; a good probe ends its rest, and a good sample doubles its
      budget. */
  ghost predicate NotRested(row: Proxy, sample: Sample, after: Proxy) {
    var recovers := sample.ok && sample.source == Probe;
    && after.status == (if recovers && row.status == Quarantined then Active else row.status)
    && after.quarantinedUntil == (if recovers then None else row.quarantinedUntil)
    && after.assignedWorkerId == row.assignedWorkerId && after.assignedAt == row.assignedAt
    && after.quarantineCount == row.quarantineCount
    && after.multiplierPct == (if sample.ok then Min(100, 2 * row.multiplierPct) else row.multiplierPct)
  }

  /** The columns every observation writes: evidence, score and the time of the next probe, one interval from now
      or, for an offence inside the rest window, from its end. */
  ghost predicate Counted(row: Proxy, sample: Sample, now: int, interval: int, rests: bool, after: Proxy) {
    && after.successCount + after.failureCount == row.successCount + row.failureCount + 1
    && after.successCount == (if sample.ok then row.successCount + 1 else row.successCount)
    && after.consecutiveFailures == (if sample.ok then 0 else row.consecutiveFailures + 1)
    && (sample.ok ==> after.lastSuccessAt == Some(now) && after.lastFailureAt == row.lastFailureAt)
    && (!sample.ok ==> after.lastFailureAt == Some(now) && after.lastSuccessAt == row.lastSuccessAt)
    && after.lastErrorClass == sample.errorClass
    && after.latencyMs == (if sample.latencyMs.None? then row.latencyMs else sample.latencyMs)
    && after.probeAfter.Some?
    && after.probeAfter.value - 1000 * interval
       == (if rests && row.quarantinedUntil.Some? then Max(now, row.quarantinedUntil.value) else now)
    && after.healthScore - row.healthScore
       == (if sample.ok then Min(if sample.source == Probe then 5 else 3, 100 - row.healthScore)
           else -Min(if sample.source == Probe then 12 else 18, row.healthScore))
  }

  /** What no observation touches. */
  ghost predicate SettingsKept(row: Proxy, after: Proxy) {
    && after.providerCode == row.providerCode && after.enabled == row.enabled
    && after.rotationSeconds == row.rotationSeconds && after.requestsPerMinute == row.requestsPerMinute
    && after.lastRotatedAt == row.lastRotatedAt
  }

  /** One observation, column by column. */
  ghost predicate ObservedByColumns(row: Proxy, sample: Sample, now: int, interval: int, after: Proxy)
    requires 0 <= row.quarantineCount
  {
    var rests := Offends(row, sample) && !Forgiven(row, sample, now);
    && SettingsKept(row, after) && Counted(row, sample, now, interval, rests, after)
    && if rests then Rested(row, sample, now, after) else NotRested(row, sample, after)
  }

  lemma RestedDeadline(row: Proxy, sample: Sample, now: int)
    requires 0 <= row.consecutiveFailures && 0 <= row.quarantineCount && PoolDecision(row, sample, now).quarantine
    ensures
      PoolDecision(row, sample, now).until
      == Some(now + (if OnlyDenied(sample) then 900_000 else 1_800_000) * Pow2(Min(row.quarantineCount, 4)))
    ensures PoolDecision(row, sample, now).multiplierPct == Max(12, (row.multiplierPct + 1) / 2)
  {
    WindowClosedForm(row.quarantineCount);
    hide RestWindowSeconds, Pow2;
  }

  /** The table's CHECK constraints on the columns the decision reads. */
  ghost predicate RowInBounds(row: Proxy) {
    0 <= row.consecutiveFailures && 0 <= row.quarantineCount && 0 <= row.healthScore <= 100
  }

  lemma ObservationReadsColumns(row: Proxy, sample: Sample, now: int, interval: int)
    requires RowInBounds(row)
    ensures ObservedByColumns(row, sample, now, interval, WriteHealth(row, row, sample, now, interval))
  {
    RestsIffOffence(row, sample, now);
    ScoreMovesBy(row.healthScore, sample);
    if PoolDecision(row, sample, now).quarantine { RestedDeadline(row, sample, now); }
    hide PoolDecision, MarksDead, Kills, Offends, OnlyDenied, NextHealthScore, Pow2;
  }

  /** At most one event: an offence is logged as QUARANTINED, a good probe that ends a rest as released, and one of
      a dead row as RECOVERED. */
  ghost function ObservedEvents(id: nat, row: Proxy, sample: Sample, now: int): seq<EventRow> {
    if Offends(row, sample) && !Forgiven(row, sample, now) then [EventRow(Some(id), QuarantinedEvent)]
    else if sample.ok && sample.source == Probe && row.status == Quarantined then
      [EventRow(Some(id), QuarantineReleasedEvent)]
    else if sample.ok && sample.source == Probe && row.status == Dead then [EventRow(Some(id), RecoveredEvent)]
    else []
  }

  /** One observation of proxy `id`: nothing at all if it is gone; otherwise its row, one sample and the event. */
  ghost predicate RecordedByColumns(before: Db, id: nat, sample: Sample, now: int, interval: int, after: Db) {
    if id !in before.rows then after == before
    else
      && after.rows.Keys == before.rows.Keys
      && (forall k :: k in before.rows && k != id ==> after.rows[k] == before.rows[k])
      && after.samples == before.samples + [SampleRow(Some(id), sample)]
      && (RowInBounds(before.rows[id]) ==>
            && ObservedByColumns(before.rows[id], sample, now, interval, after.rows[id])
            && after.events == before.events + ObservedEvents(id, before.rows[id], sample, now))
  }

  lemma RecordReadsColumns(db: Db, id: nat, sample: Sample, now: int, interval: int)
    ensures RecordedByColumns(db, id, sample, now, interval, RecordDb(db, id, sample, now, interval))
  {
    hide WriteHealth, HealthEvents, ObservedByColumns, ObservedEvents;
    if id in db.rows && RowInBounds(db.rows[id]) {
      ObservationReadsColumns(db.rows[id], sample, now, interval);
      EventsReadColumns(id, db.rows[id], sample, now);
    }
  }

  lemma EventsReadColumns(id: nat, row: Proxy, sample: Sample, now: int)
    requires 0 <= row.consecutiveFailures
    ensures HealthEvents(id, row, sample, now) == ObservedEvents(id, row, sample, now)
  {
    RestsIffOffence(row, sample, now);
    hide PoolDecision, MarksDead, Offends;
  }

  predicate ProbeDue(row: Proxy, now: int) {
    && !(row.status == Active && !Resting(row, now))
    && (row.probeAfter.None? || row.probeAfter.value <= now)
    && !Resting(row, now)
  }

  /** The due set the prober actually queries (packages/proxy/src/selector.sql.ts). */
  predicate SqlProbeDue(row: Proxy, now: int) {
    && row.enabled
    && row.status != Dead
    && ((row.quarantinedUntil.Some? && row.quarantinedUntil.value <= now)
        || (row.probeAfter.Some? && row.probeAfter.value <= now)
        || (row.lastSuccessAt.None? && row.lastFailureAt.None?))
  }

  /** `probeDue` in closed form: a row out of service whose deadline and probe time have both passed. */
  lemma ProbeDueMeans(row: Proxy, now: int)
    ensures ProbeDue(row, now) <==>
      && row.status != Active
      && (row.quarantinedUntil.Some? ==> row.quarantinedUntil.value <= now)
      && (row.probeAfter.Some? ==> row.probeAfter.value <= now)
  {
  }

  /** How the SQL due set differs for a resting row: it also lists one whose probe time has come before its
      deadline, or that was never sampled, and one past its deadline whose probe time has not come. */
  lemma SqlDueMeans(row: Proxy, now: int)
    ensures !row.enabled || row.status == Dead ==> !SqlProbeDue(row, now)
    ensures row.enabled && row.status == Active && row.quarantinedUntil.None? ==>
      (SqlProbeDue(row, now) <==>
       (row.probeAfter.Some? && row.probeAfter.value <= now) || (row.lastSuccessAt.None? && row.lastFailureAt.None?))
    ensures row.enabled && row.status == Quarantined && row.quarantinedUntil.Some? ==>
      && (ProbeDue(row, now) ==> SqlProbeDue(row, now))
      && (SqlProbeDue(row, now) && !ProbeDue(row, now) <==>
          if row.quarantinedUntil.value <= now then row.probeAfter.Some? && now < row.probeAfter.value
          else (row.probeAfter.Some? && row.probeAfter.value <= now)
               || (row.lastSuccessAt.None? && row.lastFailureAt.None?))
  {
  }

  // ------------------------------------------------------------------ administration

  function Clamp(value: int, low: int, high: int): int { Min(Max(value, low), high) }

  function ClampRotation(seconds: Option<int>): int {
    Clamp(if seconds.Some? then seconds.value else DEFAULT_ROTATION_SECONDS, MIN_ROTATION_SECONDS, MAX_ROTATION_SECONDS)
  }

  function ClampRpm(rpm: Option<int>): int {
    Clamp(if rpm.Some? then rpm.value else DEFAULT_REQUESTS_PER_MINUTE, 1, MAX_REQUESTS_PER_MINUTE)
  }

  datatype AdminError = CatalogueFull | DuplicateId | NotFound

  /** A setting as it is kept: the default for none, the nearer bound for one out of bounds. */
  ghost predicate Held(wish: Option<int>, default: int, low: int, high: int, kept: int) {
    && (wish.None? ==> kept == default)
    && (wish.Some? && low <= wish.value <= high ==> kept == wish.value)
    && (wish.Some? && wish.value < low ==> kept == low)
    && (wish.Some? && high < wish.value ==> kept == high)
  }

  /** A new row is in service, healthy, free, with its full budget, and has no history. */
  ghost predicate FreshByColumns(row: Proxy) {
    && row.enabled && row.status == Active && row.healthScore == 100 && row.multiplierPct == 100
    && row.successCount == row.failureCount == row.consecutiveFailures == row.quarantineCount == 0
    && row.assignedWorkerId.None? && row.assignedAt.None? && row.lastRotatedAt.None? && row.quarantinedUntil.None?
    && row.lastSuccessAt.None? && row.lastFailureAt.None? && row.lastErrorClass.None? && row.latencyMs.None?
    && row.probeAfter.None?
  }

  function NewProxy(providerCode: Option<string>, rotationSeconds: Option<int>, rpm: Option<int>): Proxy {
    Proxy(providerCode, true, Active, 100, None, 0, 0, 0, None, None, None, None, 0,
          ClampRotation(rotationSeconds), None, None, None, ClampRpm(rpm), 100, None)
  }

  function CreateDb(db: Db, id: nat, providerCode: Option<string>, rotationSeconds: Option<int>,
      rpm: Option<int>): Result<Db, AdminError> {
    if |db.rows| >= MAX_PROXIES then Err(CatalogueFull)
    else if id in db.rows then Err(DuplicateId)
    else Ok(Db(db.rows[id := NewProxy(providerCode, rotationSeconds, rpm)], db.samples,
               db.events + [EventRow(Some(id), CreatedEvent)]))
  }

  /** `None` leaves a field as it is; the inner option is the value itself being null. */
  datatype Patch = Patch(providerCode: Option<string>, rotationSeconds: Option<Option<int>>, rpm: Option<Option<int>>)

  function Patched(row: Proxy, p: Patch): Proxy {
    row.(providerCode := if p.providerCode.Some? then p.providerCode else row.providerCode,
         rotationSeconds := if p.rotationSeconds.Some? then ClampRotation(p.rotationSeconds.value)
             else row.rotationSeconds,
         requestsPerMinute := if p.rpm.Some? then ClampRpm(p.rpm.value) else row.requestsPerMinute)
  }

  function UpdateDb(db: Db, id: nat, p: Patch): Result<Db, AdminError> {
    if id !in db.rows then Err(NotFound)
    else Ok(Db(db.rows[id := Patched(db.rows[id], p)], db.samples, db.events + [EventRow(Some(id), UpdatedEvent)]))
  }

  function SetEnabledDb(db: Db, id: nat, enabled: bool): Result<Db, AdminError> {
    if id !in db.rows then Err(NotFound)
    else Ok(Db(db.rows[id := db.rows[id].(enabled := enabled)], db.samples,
               db.events + [EventRow(Some(id), if enabled then EnabledEvent else DisabledEvent)]))
  }

  function ForgetSamples(s: seq<SampleRow>, id: nat): seq<SampleRow> {
    seq(|s|, i requires 0 <= i < |s| => if s[i].proxyId == Some(id) then s[i].(proxyId := None) else s[i])
  }

  function ForgetEvents(s: seq<EventRow>, id: nat): seq<EventRow> {
    seq(|s|, i requires 0 <= i < |s| => if s[i].proxyId == Some(id) then s[i].(proxyId := None) else s[i])
  }

  function RemoveDb(db: Db, id: nat): Result<Db, AdminError> {
    if id !in db.rows then Err(NotFound)
    else Ok(Db(db.rows - {id}, ForgetSamples(db.samples, id),
               ForgetEvents(db.events + [EventRow(Some(id), RemovedEvent)], id)))
  }

  // ------------------------------------------------------------------ the service object

  datatype Lease = Lease(proxyId: nat, workerId: string, requestsPerMinute: int, acquiredAt: int, reason: Why)

  ghost predicate OneProxyPerWorker(rows: map<nat, Proxy>) {
    forall i, j | i in rows && j in rows && rows[i].assignedWorkerId.Some? ::
      rows[i].assignedWorkerId == rows[j].assignedWorkerId ==> i == j
  }

  ghost function Catalogue(rows: map<nat, Proxy>): iset<SelectableProxy> {
    iset p: SelectableProxy | p.id in rows && p == Selectable(p.id, rows[p.id])
  }

  lemma ListingIsCatalogue(order: seq<nat>, rows: map<nat, Proxy>)
    requires Enumerates(order, rows)
    ensures AsSet(Listing(order, rows)) == Catalogue(rows)
    ensures UniqueIds(Listing(order, rows))
    ensures OneProxyPerWorker(rows) ==> OneRowPerWorker(Listing(order, rows))
  {
    var s := Listing(order, rows);
    forall p | p in Catalogue(rows) ensures p in s {
      var i :| 0 <= i < |order| && order[i] == p.id;
      assert s[i] == p;
    }
  }

  /** What an undisturbed `acquire` returns and leaves behind, given the selected outcome. */
  ghost predicate AcquireDecides(before: Db, req: Request, o: Outcome, r: Result<Lease, Unavailable>, after: Db) {
    && Selects(Catalogue(before.rows), req, o)
    && if o.selected.None? then
         r == Err(if o.reason.Refused? then o.reason.unavailable else AllUnhealthy) && after == before
       else
         var c := Claim(req.workerId, req.now, o.selected.value, o.sticky, o.rotated, req.minHealthScore);
         && after == ClaimDb(before, c)
         && c.choice.id in before.rows
         && r == if Granted(before.rows, c)
                 then Ok(Lease(c.choice.id, req.workerId, EffectiveRpm(before.rows[c.choice.id]), req.now, o.reason))
                 else Err(AllUnhealthy)
  }

  // --- the same, read off the columns of the table

  /** Fit for this request. */
  ghost predicate Usable(row: Proxy, req: Request) {
    && row.enabled && row.status == Active
    && (row.quarantinedUntil.Some? ==> row.quarantinedUntil.value <= req.now)
    && req.minHealthScore <= row.healthScore
    && (row.providerCode.Some? && req.providerCode.Some? ==> row.providerCode.value == req.providerCode.value)
  }

  ghost predicate OwnedBy(row: Proxy, workerId: string) { workerId != "" && row.assignedWorkerId == Some(workerId) }

  /** Its rotation window is still open. */
  ghost predicate WindowOpen(row: Proxy, now: int) {
    row.lastRotatedAt.Some? && now < row.lastRotatedAt.value + 1000 * row.rotationSeconds
  }

  /** Row `i` is healthier; or as healthy and rotated earlier, where never means at time 0; or equal in both and of
      smaller id. */
  ghost predicate RowBefore(rows: map<nat, Proxy>, i: nat, j: nat)
    requires i in rows && j in rows
  {
    var p, q := rows[i], rows[j];
    var pTime := if p.lastRotatedAt.None? then 0 else p.lastRotatedAt.value;
    var qTime := if q.lastRotatedAt.None? then 0 else q.lastRotatedAt.value;
    || q.healthScore < p.healthScore
    || (q.healthScore == p.healthScore && (pTime < qTime || (pTime == qTime && i < j)))
  }

  /** Another worker took it no more than thirty minutes ago. */
  ghost predicate HeldByOther(row: Proxy, req: Request) {
    && row.assignedWorkerId.Some? && row.assignedWorkerId.value != req.workerId
    && row.assignedAt.Some? && req.now - row.assignedAt.value <= 1_800_000
  }

  /** Which row a lease is on, and for what reason. */
  ghost predicate LeaseByColumns(rows: map<nat, Proxy>, req: Request, lease: Lease) {
    var id := lease.proxyId;
    && id in rows && Usable(rows[id], req) && !HeldByOther(rows[id], req)
    && (lease.reason == Why.Sticky <==> OwnedBy(rows[id], req.workerId) && WindowOpen(rows[id], req.now))
    && (lease.reason != Why.Sticky ==>
          forall k :: k in rows && Usable(rows[k], req) && OwnedBy(rows[k], req.workerId) ==>
            !WindowOpen(rows[k], req.now))
    && (lease.reason == RotatedSchedule <==>
        lease.reason != Why.Sticky && exists k :: k in rows && Usable(rows[k], req) && OwnedBy(rows[k], req.workerId))
    && (lease.reason != Why.Sticky && OwnedBy(rows[id], req.workerId) ==>
          forall k :: k in rows && Usable(rows[k], req) ==> OwnedBy(rows[k], req.workerId))
    && (!OwnedBy(rows[id], req.workerId) ==>
          forall k :: k in rows && k != id && Usable(rows[k], req) && !OwnedBy(rows[k], req.workerId) ==>
            RowBefore(rows, id, k))
  }

  lemma RowServes(rows: map<nat, Proxy>, req: Request, id: nat)
    requires id in rows
    ensures Selectable(id, rows[id]) in Catalogue(rows)
    ensures Serves(Selectable(id, rows[id]), req) <==> Usable(rows[id], req)
    ensures Holds(Selectable(id, rows[id]), req) <==> OwnedBy(rows[id], req.workerId)
    ensures Settled(Selectable(id, rows[id]), req.now) <==> WindowOpen(rows[id], req.now)
  {
  }

  lemma RowComesBefore(rows: map<nat, Proxy>, i: nat, j: nat)
    requires i in rows && j in rows
    ensures ComesBefore(Selectable(i, rows[i]), Selectable(j, rows[j])) <==> RowBefore(rows, i, j)
  {
  }

  /** Rows of the catalogue are rows of the table. */
  lemma CatalogueRows(rows: map<nat, Proxy>, req: Request)
    ensures forall p :: p in Catalogue(rows) ==> p.id in rows && p == Selectable(p.id, rows[p.id])
    ensures forall k :: k in rows ==>
      var p := Selectable(k, rows[k]);
      && p in Catalogue(rows) && (Serves(p, req) <==> Usable(rows[k], req))
      && (Holds(p, req) <==> OwnedBy(rows[k], req.workerId))
      && (Settled(p, req.now) <==> WindowOpen(rows[k], req.now))
  {
    hide Serves, Usable, Holds, OwnedBy, Settled, WindowOpen;
    forall k | k in rows
      ensures
        var p := Selectable(k, rows[k]);
        && p in Catalogue(rows) && (Serves(p, req) <==> Usable(rows[k], req))
        && (Holds(p, req) <==> OwnedBy(rows[k], req.workerId))
        && (Settled(p, req.now) <==> WindowOpen(rows[k], req.now))
    {
      RowServes(rows, req, k);
    }
  }

  lemma OwnRowIsOne(rows: map<nat, Proxy>, workerId: string, i: nat, j: nat)
    requires OneProxyPerWorker(rows) && i in rows && j in rows
    requires OwnedBy(rows[i], workerId) && OwnedBy(rows[j], workerId)
    ensures i == j
  {
  }

  /** The chosen row, in the table's columns. */
  lemma ChosenRow(rows: map<nat, Proxy>, req: Request, o: Outcome, lease: Lease)
    requires OneProxyPerWorker(rows) && Selects(Catalogue(rows), req, o) && o.selected.Some?
    requires lease.proxyId == o.selected.value.id && lease.reason == o.reason
    ensures lease.proxyId in rows && o.selected.value == Selectable(lease.proxyId, rows[lease.proxyId])
    ensures o.sticky ==> WindowOpen(rows[lease.proxyId], req.now)
    ensures !HeldByOther(rows[lease.proxyId], req) ==> LeaseByColumns(rows, req, lease)
  {
    var pool, chosen, id := Catalogue(rows), o.selected.value, lease.proxyId;
    RuleReadsColumns(pool, req, o);
    CatalogueRows(rows, req);
    hide Selects, Serves, Usable, Settled, WindowOpen, Holds, HeldByOther, OneProxyPerWorker, Selectable, RotationDue;
    if o.sticky {
      var p :| p in pool && Serves(p, req) && Holds(p, req) && Settled(p, req.now);
      OwnRowIsOne(rows, req.workerId, p.id, id);
    }
    hide Catalogue;
    forall k | k in rows && k != id && !o.sticky && !Holds(chosen, req) && Usable(rows[k], req)
               && !OwnedBy(rows[k], req.workerId)
      ensures RowBefore(rows, id, k)
    {
      assert Selectable(k, rows[k]) != chosen by { SelectableIds(rows, id, k); }
      RowComesBefore(rows, id, k);
    }
    hide RowBefore, ComesBefore, OwnedBy;
    forall k | k in rows && Usable(rows[k], req) && OwnedBy(rows[k], req.workerId)
      ensures o.sticky || o.rotated
      ensures WindowOpen(rows[k], req.now) ==> o.sticky
    {
      assert Selectable(k, rows[k]) in pool;
    }
    if o.rotated {
      var p :| p in pool && Serves(p, req) && Holds(p, req);
      assert p.id in rows && Usable(rows[p.id], req) && OwnedBy(rows[p.id], req.workerId);
    }
  }

  lemma SelectableIds(rows: map<nat, Proxy>, i: nat, j: nat)
    requires i in rows && j in rows && i != j
    ensures Selectable(i, rows[i]) != Selectable(j, rows[j])
  {
  }

  /** The worker's other rows are freed, the rest stay. */
  ghost predicate OthersFreed(before: map<nat, Proxy>, after: map<nat, Proxy>, workerId: string, id: nat) {
    after.Keys == before.Keys && forall k :: k in before && k != id ==>
      after[k] == if before[k].assignedWorkerId == Some(workerId)
                  then before[k].(assignedWorkerId := None, assignedAt := None) else before[k]
  }

  /** The whole of an undisturbed `acquire`: a lease with its stamp and event; or a refusal when no row is fit; or a
      claim lost to the holder of the chosen row, which still frees the worker's other rows. */
  ghost predicate AcquiredByColumns(before: Db, req: Request, r: Result<Lease, Unavailable>, after: Db) {
    && after.samples == before.samples
    && match r
       case Ok(lease) =>
         var id := lease.proxyId;
         && LeaseByColumns(before.rows, req, lease) && lease.workerId == req.workerId && lease.acquiredAt == req.now
         && OthersFreed(before.rows, after.rows, req.workerId, id)
         && after.rows[id] == before.rows[id].(
              assignedWorkerId := Some(req.workerId), assignedAt := Some(req.now),
              lastRotatedAt := if lease.reason == Why.Sticky then before.rows[id].lastRotatedAt else Some(req.now))
         && after.events == before.events + [EventRow(Some(id), LeaseAcquiredEvent)]
       case Err(why) =>
         && after.events == before.events
         && if req.mode == Off || forall k :: k in before.rows ==> !Usable(before.rows[k], req) then
              why == RefusalByColumns(Catalogue(before.rows), req) && after.rows == before.rows
            else
              why == AllUnhealthy && exists id :: LostTo(before.rows, after.rows, req, id)
  }

  ghost predicate LostTo(before: map<nat, Proxy>, after: map<nat, Proxy>, req: Request, id: nat) {
    && id in before && Usable(before[id], req) && HeldByOther(before[id], req)
    && OthersFreed(before, after, req.workerId, id) && after[id] == before[id]
  }

  /** A selected row is granted unless another worker holds it: everything else the claim re-validates was just
      read. */
  lemma SelectedIsGrantedIff(rows: map<nat, Proxy>, req: Request, o: Outcome, c: Claim)
    requires Selects(Catalogue(rows), req, o) && o.selected.Some?
    requires c == Claim(req.workerId, req.now, o.selected.value, o.sticky, o.rotated, req.minHealthScore)
    ensures Granted(rows, c) <==> !HeldByOther(rows[c.choice.id], req)
    ensures Usable(rows[c.choice.id], req)
  {
    SelectedIsEligible(Catalogue(rows), req, o);
    hide Selects;
  }

  lemma ClaimReadsColumns(rows: map<nat, Proxy>, req: Request, o: Outcome, c: Claim, lease: Lease)
    requires OneProxyPerWorker(rows) && Selects(Catalogue(rows), req, o) && o.selected.Some?
    requires c == Claim(req.workerId, req.now, o.selected.value, o.sticky, o.rotated, req.minHealthScore)
    requires lease.proxyId == c.choice.id && lease.reason == o.reason
    ensures
      var id, after := c.choice.id, ClaimDb(Db(rows, [], []), c).rows;
      && id in rows && OthersFreed(rows, after, req.workerId, id)
      && if HeldByOther(rows[id], req) then after[id] == rows[id] && LostTo(rows, after, req, id)
         else
           && LeaseByColumns(rows, req, lease)
           && after[id] == rows[id].(
                assignedWorkerId := Some(req.workerId), assignedAt := Some(req.now),
                lastRotatedAt := if lease.reason == Why.Sticky then rows[id].lastRotatedAt else Some(req.now))
  {
    SelectedIsGrantedIff(rows, req, o, c);
    ChosenRow(rows, req, o, lease);
    ReasonReadsColumns(Catalogue(rows), req, o);
    hide Selects, Usable, HeldByOther, Claimable, LeaseByColumns, OwnedBy;
  }

  lemma AcquireReadsColumns(before: Db, req: Request, o: Outcome, r: Result<Lease, Unavailable>, after: Db)
    requires OneProxyPerWorker(before.rows) && AcquireDecides(before, req, o, r, after)
    ensures AcquiredByColumns(before, req, r, after)
  {
    var rows := before.rows;
    CatalogueRows(rows, req);
    NothingServes(Catalogue(rows), req, o);
    if o.selected.None? {
      RefusalReadsColumns(Catalogue(rows), req);
      hide Catalogue, Serves, Usable, RefusalReason, RefusalByColumns;
      assert req.mode == Off || forall k :: k in rows ==> !Usable(rows[k], req);
    } else {
      var c := Claim(req.workerId, req.now, o.selected.value, o.sticky, o.rotated, req.minHealthScore);
      var lease := Lease(c.choice.id, req.workerId, 0, req.now, o.reason);
      SelectedIsGrantedIff(rows, req, o, c);
      ClaimReadsColumns(rows, req, o, c, lease);
      hide Selects, Usable, HeldByOther, LeaseByColumns, OthersFreed, Serves, Catalogue, Claimable;
    }
  }

  /** Every row but `id` is the same before and after. */
  ghost predicate OthersKept(before: map<nat, Proxy>, after: map<nat, Proxy>, id: nat) {
    forall k :: k != id ==> (k in after <==> k in before) && (k in before ==> after[k] == before[k])
  }

  class ProxyPool {
    var mode: EgressMode
    var minHealthScore: int
    var probeIntervalSeconds: int
    var rows: map<nat, Proxy>
    var samples: seq<SampleRow>
    var events: seq<EventRow>

    ghost function Store(): Db reads this { Db(rows, samples, events) }

    constructor (mode: EgressMode, minHealthScore: int, probeIntervalSeconds: int)
      ensures Store() == Db(map[], [], [])
      ensures this.mode == mode && this.minHealthScore == minHealthScore
      ensures this.probeIntervalSeconds == probeIntervalSeconds
    {
      this.mode, this.minHealthScore, this.probeIntervalSeconds := mode, minHealthScore, probeIntervalSeconds;
      rows, samples, events := map[], [], [];
    }

    /** The reading half of `acquire`: whatever order the rows arrive in, the rule decides. */
    method Choose(workerId: string, providerCode: Option<string>, now: int) returns (o: Outcome)
      requires OneProxyPerWorker(rows)
      ensures exists order ::
                && Enumerates(order, rows)
                && o == SelectProxy(Listing(order, rows),
                                    Request(now, mode, providerCode, workerId, minHealthScore))
      ensures Selects(Catalogue(rows), Request(now, mode, providerCode, workerId, minHealthScore), o)
    {
      var order: seq<nat> := [];
      var left := rows.Keys;
      while left != {}
        invariant left <= rows.Keys && NoDuplicates(order)
        invariant forall id :: id in order <==> id in rows && id !in left
        decreases left
      {
        var id :| id in left;
        order, left := order + [id], left - {id};
      }
      var req := Request(now, mode, providerCode, workerId, minHealthScore);
      o := SelectProxy(Listing(order, rows), req);
      ListingIsCatalogue(order, rows);
      SelectProxyFollowsTheRule(Listing(order, rows), req);
    }

    /** The claiming half of `acquire`: free the worker's other rows, then take the chosen one. */
    method Commit(c: Claim) returns (granted: bool)
      modifies this`rows, this`events
      ensures granted == Granted(old(rows), c)
      ensures Store() == ClaimDb(old(Store()), c)
    {
      rows := map id | id in rows ::
        if rows[id].assignedWorkerId == Some(c.workerId) && id != c.choice.id then Freed(rows[id]) else rows[id];
      granted := c.choice.id in rows && Claimable(rows[c.choice.id], c);
      if granted {
        rows := rows[c.choice.id := Taken(rows[c.choice.id], c)];
        events := events + [EventRow(Some(c.choice.id), LeaseAcquiredEvent)];
      }
    }

    /** Both halves with nothing in between: the outcome is the one the rule allows, and the rest follows from it. */
    method Acquire(workerId: string, providerCode: Option<string>, now: int) returns (r: Result<Lease, Unavailable>)
      requires OneProxyPerWorker(rows)
      modifies this`rows, this`events
      ensures mode == Off ==> r == Err(PoolDisabled) && Store() == old(Store())
      ensures mode != Off ==>
                var req := Request(now, mode, providerCode, workerId, minHealthScore);
                exists o :: AcquireDecides(old(Store()), req, o, r, Store())
      ensures AcquiredByColumns(old(Store()), Request(now, mode, providerCode, workerId, minHealthScore), r, Store())
      ensures r.Ok? ==>
                var id := r.value.proxyId;
                && id in old(rows) && id in rows
                && r.value.workerId == workerId && r.value.acquiredAt == now
                && r.value.requestsPerMinute == EffectiveRpm(old(rows)[id])
                && rows[id].assignedWorkerId == Some(workerId) && rows[id].assignedAt == Some(now)
                && Eligible(Selectable(id, old(rows)[id]), Request(now, mode, providerCode, workerId, minHealthScore))
                && (old(rows)[id].assignedWorkerId.Some? && old(rows)[id].assignedWorkerId.value != workerId
                    && old(rows)[id].assignedAt.Some?
                    ==> now - old(rows)[id].assignedAt.value > MAX_LEASE_MS)
                && forall other :: other in rows && other != id ==> rows[other].assignedWorkerId != Some(workerId)
      ensures rows.Keys == old(rows).Keys
      ensures forall id :: id in rows && (r.Err? || id != r.value.proxyId) ==>
                || rows[id] == old(rows)[id]
                || (old(rows)[id].assignedWorkerId == Some(workerId) && rows[id] == Freed(old(rows)[id]))
    {
      hide EffectiveRpm, RotationStamp, SelectProxy, Selects, Eligible;
      if mode == Off { return Err(PoolDisabled); }
      hide AcquiredByColumns;
      var req := Request(now, mode, providerCode, workerId, minHealthScore);
      var o := Choose(workerId, providerCode, now);
      if o.selected.None? {
        r := Err(if o.reason.Refused? then o.reason.unavailable else AllUnhealthy);
        assert AcquireDecides(old(Store()), Request(now, mode, providerCode, workerId, minHealthScore), o, r, Store());
        AcquireReadsColumns(old(Store()), req, o, r, Store());
        return;
      }
      var c := Claim(workerId, now, o.selected.value, o.sticky, o.rotated, minHealthScore);
      SelectedIsEligible(Catalogue(rows), req, o);
      var rpm := EffectiveRpm(rows[c.choice.id]);
      var granted := Commit(c);
      r := if granted then Ok(Lease(c.choice.id, workerId, rpm, now, o.reason)) else Err(AllUnhealthy);
      assert AcquireDecides(old(Store()), Request(now, mode, providerCode, workerId, minHealthScore), o, r, Store());
      AcquireReadsColumns(old(Store()), req, o, r, Store());
    }

    method Release(workerId: string, id: nat) returns (ok: bool)
      modifies this`rows, this`events
      ensures ok == (id in old(rows))
      ensures Store() == ReleaseDb(old(Store()), workerId, id)
      ensures rows.Keys == old(rows).Keys && OthersKept(old(rows), rows, id)
      ensures ok ==> rows[id].assignedWorkerId != Some(workerId)
      ensures ok ==> rows[id].lastRotatedAt == old(rows)[id].lastRotatedAt
      ensures ok && old(rows)[id].assignedWorkerId != Some(workerId) ==> rows == old(rows)
      ensures ok && old(rows)[id].assignedWorkerId == Some(workerId) ==>
                rows[id] == old(rows)[id].(assignedWorkerId := None, assignedAt := None)
      ensures samples == old(samples)
      ensures events == old(events) + (if ok then [EventRow(Some(id), LeaseReleasedEvent)] else [])
    {
      if id in rows && rows[id].assignedWorkerId == Some(workerId) {
        rows := rows[id := Freed(rows[id])];
      }
      ok := id in rows;
      if ok { events := events + [EventRow(Some(id), LeaseReleasedEvent)]; }
    }

    method RecordHealth(id: nat, sample: Sample, now: int)
      modifies this`rows, this`samples, this`events
      ensures Store() == RecordDb(old(Store()), id, sample, now, probeIntervalSeconds)
      ensures RecordedByColumns(old(Store()), id, sample, now, probeIntervalSeconds, Store())
    {
      RecordReadsColumns(Store(), id, sample, now, probeIntervalSeconds);
      hide RecordedByColumns;
      hide DecideQuarantine, ShouldMarkDead, NextHealthScore, NextProbeAfter;
      if id !in rows { return; }
      var row := rows[id];
      var failures := if sample.ok then 0 else row.consecutiveFailures + 1;
      var quarantined := row.quarantinedUntil.Some? && row.quarantinedUntil.value > now;
      var decision := DecideQuarantine(sample, StateOf(row, failures), now);
      if quarantined && sample.source == Probe && sample.ok {
        decision := Decision(false, None, ProbeOkDuringRest, row.multiplierPct);
      }
      var markDead := !quarantined && ShouldMarkDead(failures, sample);
      assert decision == PoolDecision(row, sample, now) && markDead == MarksDead(row, sample, now);
      hide PoolDecision, MarksDead, Resting;
      var status := row.status;
      if markDead {
        status := Dead;
      } else if decision.quarantine {
        status := Quarantined;
      } else if row.status == Quarantined && sample.ok && sample.source == Probe {
        status := Active;
      }
      var until := row.quarantinedUntil;
      if decision.quarantine {
        until := decision.until;
      } else if sample.ok && sample.source == Probe {
        until := None;
      }
      var multiplierPct := row.multiplierPct;
      if decision.quarantine {
        multiplierPct := decision.multiplierPct;
      } else if sample.ok {
        multiplierPct := Min(100, row.multiplierPct * 2);
      }
      var updated := row.(
        healthScore := NextHealthScore(row.healthScore, sample),
        latencyMs := if sample.latencyMs.Some? then sample.latencyMs else row.latencyMs,
        consecutiveFailures := failures,
        lastErrorClass := sample.errorClass,
        status := status,
        quarantinedUntil := until,
        multiplierPct := multiplierPct,
        probeAfter := Some(NextProbeAfter(row, decision, now, probeIntervalSeconds)));
      if sample.ok {
        updated := updated.(successCount := updated.successCount + 1, lastSuccessAt := Some(now));
      } else {
        updated := updated.(failureCount := updated.failureCount + 1, lastFailureAt := Some(now));
      }
      if decision.quarantine {
        updated := Freed(updated.(quarantineCount := row.quarantineCount + 1));
      }
      rows := rows[id := updated];
      samples := samples + [SampleRow(Some(id), sample)];
      if decision.quarantine {
        events := events + [EventRow(Some(id), QuarantinedEvent)];
      } else if markDead {
        events := events + [EventRow(Some(id), MarkedDeadEvent)];
      } else if sample.ok && sample.source == Probe && row.status == Quarantined {
        events := events + [EventRow(Some(id), QuarantineReleasedEvent)];
      } else if sample.ok && sample.source == Probe && row.status == Dead {
        events := events + [EventRow(Some(id), RecoveredEvent)];
      }
    }

    method Create(id: nat, providerCode: Option<string>, rotationSeconds: Option<int>, rpm: Option<int>)
      returns (r: Result<nat, AdminError>)
      modifies this`rows, this`events
      ensures
        var spec := CreateDb(old(Store()), id, providerCode, rotationSeconds, rpm);
        if spec.Ok? then r == Ok(id) && Store() == spec.value else r == Err(spec.error) && Store() == old(Store())
      ensures OthersKept(old(rows), rows, id)
      ensures r.Ok? ==>
                && |rows| == |old(rows)| + 1 <= MAX_PROXIES
                && id in rows && FreshByColumns(rows[id]) && rows[id].providerCode == providerCode
                && Held(rotationSeconds, 3600, 300, 86_400, rows[id].rotationSeconds)
                && Held(rpm, 10, 1, 60, rows[id].requestsPerMinute)
                && samples == old(samples) && events == old(events) + [EventRow(Some(id), CreatedEvent)]
      ensures r.Ok? <==> |old(rows)| < 200 && id !in old(rows)
    {
      if |rows| >= MAX_PROXIES { return Err(CatalogueFull); }
      if id in rows { return Err(DuplicateId); }
      rows := rows[id := NewProxy(providerCode, rotationSeconds, rpm)];
      events := events + [EventRow(Some(id), CreatedEvent)];
      return Ok(id);
    }

    method Update(id: nat, p: Patch) returns (r: Result<nat, AdminError>)
      modifies this`rows, this`events
      ensures
        var spec := UpdateDb(old(Store()), id, p);
        if spec.Ok? then r == Ok(id) && Store() == spec.value else r == Err(spec.error) && Store() == old(Store())
      ensures rows.Keys == old(rows).Keys && OthersKept(old(rows), rows, id)
      ensures r.Ok? ==>
                && id in rows && rows[id].status == old(rows)[id].status
                && rows[id].quarantinedUntil == old(rows)[id].quarantinedUntil
                && rows[id].assignedWorkerId == old(rows)[id].assignedWorkerId
      ensures r.Ok? && p.rotationSeconds.Some? ==>
                Held(p.rotationSeconds.value, 3600, 300, 86_400, rows[id].rotationSeconds)
      ensures r.Ok? && p.rpm.Some? ==> Held(p.rpm.value, 10, 1, 60, rows[id].requestsPerMinute)
      ensures r.Ok? && p.providerCode.Some? ==> rows[id].providerCode == p.providerCode
      ensures r.Ok? ==>
                && (p.providerCode.None? ==> rows[id].providerCode == old(rows)[id].providerCode)
                && (p.rotationSeconds.None? ==> rows[id].rotationSeconds == old(rows)[id].rotationSeconds)
                && (p.rpm.None? ==> rows[id].requestsPerMinute == old(rows)[id].requestsPerMinute)
                && rows[id].(providerCode := None, rotationSeconds := 0, requestsPerMinute := 0)
                   == old(rows)[id].(providerCode := None, rotationSeconds := 0, requestsPerMinute := 0)
                && samples == old(samples) && events == old(events) + [EventRow(Some(id), UpdatedEvent)]
      ensures r.Ok? <==> id in old(rows)
    {
      if id !in rows { return Err(NotFound); }
      rows := rows[id := Patched(rows[id], p)];
      events := events + [EventRow(Some(id), UpdatedEvent)];
      return Ok(id);
    }

    method SetEnabled(id: nat, enabled: bool) returns (r: Result<nat, AdminError>)
      modifies this`rows, this`events
      ensures
        var spec := SetEnabledDb(old(Store()), id, enabled);
        if spec.Ok? then r == Ok(id) && Store() == spec.value else r == Err(spec.error) && Store() == old(Store())
      ensures rows.Keys == old(rows).Keys && OthersKept(old(rows), rows, id)
      ensures r.Ok? ==>
                && id in rows && rows[id].enabled == enabled
                && rows[id].(enabled := old(rows)[id].enabled) == old(rows)[id]
                && samples == old(samples) && |events| == |old(events)| + 1 && events[..|old(events)|] == old(events)
                && events[|old(events)|].proxyId == Some(id)
                && (events[|old(events)|].kind == EnabledEvent <==> enabled)
                && (events[|old(events)|].kind == DisabledEvent <==> !enabled)
      ensures r.Ok? <==> id in old(rows)
    {
      if id !in rows { return Err(NotFound); }
      rows := rows[id := rows[id].(enabled := enabled)];
      events := events + [EventRow(Some(id), if enabled then EnabledEvent else DisabledEvent)];
      return Ok(id);
    }

    method Remove(id: nat) returns (r: Result<nat, AdminError>)
      modifies this`rows, this`samples, this`events
      ensures
        var spec := RemoveDb(old(Store()), id);
        if spec.Ok? then r == Ok(id) && Store() == spec.value else r == Err(spec.error) && Store() == old(Store())
      ensures id !in rows && OthersKept(old(rows), rows, id)
      ensures |samples| == |old(samples)|
      ensures r.Ok? ==> forall i :: 0 <= i < |samples| ==>
                samples[i].sample == old(samples)[i].sample
                && (old(samples)[i].proxyId != Some(id) ==> samples[i] == old(samples)[i])
      ensures r.Ok? ==> forall i :: 0 <= i < |old(events)| < |events| ==>
                events[i].kind == old(events)[i].kind
                && (old(events)[i].proxyId != Some(id) ==> events[i] == old(events)[i])
      ensures r.Ok? <==> id in old(rows)
      ensures r.Ok? ==> forall x :: x in samples ==> x.proxyId != Some(id)
      ensures r.Ok? ==> forall e :: e in events ==> e.proxyId != Some(id)
      ensures r.Ok? ==> |events| == |old(events)| + 1 && events[|old(events)|] == EventRow(None, RemovedEvent)
    {
      if id !in rows { return Err(NotFound); }
      events := events + [EventRow(Some(id), RemovedEvent)];
      rows := rows - {id};
      samples := ForgetSamples(samples, id);
      events := ForgetEvents(events, id);
      return Ok(id);
    }
  }
}
