/**
  * Runs of the pool: any number of workers and processes, with the two halves of `acquire` separated by
  * arbitrary other activity. Every theorem is about all finite runs.
  */
module PoolRuns {
  import opened Prelude
  import opened Quarantine
  import opened Rotation
  import opened Pool

  datatype InFlight = InFlight(claim: Claim, reason: Why, requestsPerMinute: int)

  /** `leases` is the history of the leases handed out. */
  datatype Sys = Sys(db: Db, clock: int, inFlight: map<nat, InFlight>, leases: seq<Lease>)

  /** Settings belong to a process, so each step carries the ones it runs with. */
  datatype Step =
    | Tick(ms: nat)
    | Snapshot(call: nat, workerId: string, providerCode: Option<string>, mode: EgressMode, minHealthScore: int,
        order: seq<nat>)
    | Commit(call: nat, minHealthScore: int)
    | Abandon(call: nat)
    | Release(workerId: string, id: nat)
    | Health(id: nat, sample: Sample, probeIntervalSeconds: int)
    | AddProxy(id: nat, providerCode: Option<string>, rotationSeconds: Option<int>, rpm: Option<int>)
    | EditProxy(id: nat, patch: Patch)
    | SwitchProxy(id: nat, enabled: bool)
    | DropProxy(id: nat)

  ghost function Admin(s: Sys, r: Result<Db, AdminError>): Sys {
    if r.Ok? then s.(db := r.value) else s
  }

  /** The reading half of `acquire` over the rows as they are now, listed in some order. */
  ghost function Begin(s: Sys, order: seq<nat>, req: Request): Option<InFlight>
    requires Enumerates(order, s.db.rows)
  {
    var o := SelectProxy(Listing(order, s.db.rows), req);
    if o.selected.None? then None
    else
      var choice := o.selected.value;
      var rpm := if choice.id in s.db.rows then EffectiveRpm(s.db.rows[choice.id]) else DEFAULT_REQUESTS_PER_MINUTE;
      Some(InFlight(Claim(req.workerId, req.now, choice, o.sticky, o.rotated, req.minHealthScore), o.reason, rpm))
  }

  ghost function Apply(s: Sys, step: Step): Sys {
    match step
    case Tick(ms) => s.(clock := s.clock + ms)
    case Snapshot(call, w, provider, mode, minHealth, order) =>
      if call in s.inFlight || !Enumerates(order, s.db.rows) then s
      else
        var f := Begin(s, order, Request(s.clock, mode, provider, w, minHealth));
        if f.None? then s else s.(inFlight := s.inFlight[call := f.value])
    case Commit(call, minHealth) =>
      if call !in s.inFlight then s
      else
        var f := s.inFlight[call];
        var c := f.claim.(minHealthScore := minHealth);
        Sys(ClaimDb(s.db, c), s.clock, s.inFlight - {call},
            if Granted(s.db.rows, c)
            then s.leases + [Lease(c.choice.id, c.workerId, f.requestsPerMinute, c.now, f.reason)] else s.leases)
    case Abandon(call) => s.(inFlight := s.inFlight - {call})
    case Release(w, id) => s.(db := ReleaseDb(s.db, w, id))
    case Health(id, sample, interval) => s.(db := RecordDb(s.db, id, sample, s.clock, interval))
    case AddProxy(id, provider, rotation, rpm) => Admin(s, CreateDb(s.db, id, provider, rotation, rpm))
    case EditProxy(id, patch) => Admin(s, UpdateDb(s.db, id, patch))
    case SwitchProxy(id, enabled) => Admin(s, SetEnabledDb(s.db, id, enabled))
    case DropProxy(id) => Admin(s, RemoveDb(s.db, id))
  }

  ghost function Run(s: Sys, steps: seq<Step>): Sys {
    if steps == [] then s else Apply(Run(s, steps[..|steps| - 1]), steps[|steps| - 1])
  }

  ghost function Start(clock: int): Sys { Sys(Db(map[], [], []), clock, map[], []) }

  /** What a step does to one row that was there before it. */
  ghost function RowAfter(s: Sys, step: Step, id: nat): Proxy
    requires id in s.db.rows
  {
    var row := s.db.rows[id];
    match step
    case Commit(call, minHealth) =>
      if call in s.inFlight then AfterClaim(id, row, s.inFlight[call].claim.(minHealthScore := minHealth)) else row
    case Release(w, id') => if id' == id && row.assignedWorkerId == Some(w) then Freed(row) else row
    case Health(id', sample, interval) => if id' == id then WriteHealth(row, row, sample, s.clock, interval) else row
    case EditProxy(id', patch) => if id' == id then Patched(row, patch) else row
    case SwitchProxy(id', enabled) => if id' == id then row.(enabled := enabled) else row
    case _ => row
  }

  /** Every step acts row by row: rows change as `RowAfter` says, one row may appear, one may go. */
  lemma RowByRow(s: Sys, step: Step)
    ensures
      var rows := Apply(s, step).db.rows;
      && (forall id :: id in rows && id in s.db.rows ==> rows[id] == RowAfter(s, step, id))
      && (forall id :: id in rows && id !in s.db.rows ==>
            step.AddProxy? && step.id == id && rows[id] == NewProxy(step.providerCode, step.rotationSeconds, step.rpm))
      && (forall id :: id in s.db.rows && id !in rows ==> step == DropProxy(id))
    ensures s.clock <= Apply(s, step).clock
  {
    hide WriteHealth, Begin, HealthEvents;
    match step
    case Commit(_, _) =>
    case Health(_, _, _) =>
    case AddProxy(_, _, _, _) =>
    case DropProxy(_) =>
    case _ =>
  }

  // ------------------------------------------------------------------ the pool invariant

  ghost predicate DeadlineBounded(row: Proxy, clock: int) {
    row.quarantinedUntil.Some? ==>
      && row.quarantineCount >= 1
      && row.quarantinedUntil.value <= clock + 1_800_000 * Pow2(Min(row.quarantineCount - 1, 4))
  }

  /** Status, deadline and lease of a row fit together. */
  ghost predicate LifecycleOk(row: Proxy, clock: int) {
    && (row.status == Active ==> row.quarantinedUntil.None?)
    && (row.status == Quarantined ==> row.quarantinedUntil.Some?)
    && (row.assignedWorkerId.Some? ==> row.status == Active && row.assignedAt.Some?)
    && (row.assignedAt.Some? ==> row.assignedAt.value <= clock)
  }

  ghost predicate BoundsOk(row: Proxy) {
    && 0 <= row.healthScore <= 100
    && 12 <= row.multiplierPct <= 100
    && MIN_ROTATION_SECONDS <= row.rotationSeconds <= MAX_ROTATION_SECONDS
    && 1 <= row.requestsPerMinute <= MAX_REQUESTS_PER_MINUTE
    && 0 <= row.successCount && 0 <= row.failureCount && 0 <= row.consecutiveFailures && 0 <= row.quarantineCount
  }

  ghost predicate RowOk(row: Proxy, clock: int) {
    LifecycleOk(row, clock) && BoundsOk(row) && DeadlineBounded(row, clock)
  }

  ghost predicate Inv(s: Sys) {
    && OneProxyPerWorker(s.db.rows)
    && (forall id :: id in s.db.rows ==> RowOk(s.db.rows[id], s.clock))
    && (forall call :: call in s.inFlight ==> s.inFlight[call].claim.now <= s.clock)
  }

  lemma RecordKeepsLifecycle(row: Proxy, sample: Sample, now: int, interval: int)
    requires LifecycleOk(row, now)
    ensures LifecycleOk(WriteHealth(row, row, sample, now, interval), now)
  {
    hide NextHealthScore, NextProbeAfter;
    if MarksDead(row, sample, now) {
      DeadMeansRested(sample, StateOf(row, NextFailures(row, sample)), now);
    }
  }

  lemma RecordKeepsBounds(row: Proxy, sample: Sample, now: int, interval: int)
    requires BoundsOk(row)
    ensures BoundsOk(WriteHealth(row, row, sample, now, interval))
  {
    hide NextProbeAfter, RestWindowSeconds, MarksDead;
  }

  lemma DecisionDeadline(row: Proxy, sample: Sample, now: int)
    requires 0 <= row.quarantineCount
    ensures
      var d := PoolDecision(row, sample, now);
      var base := if d.reason == RepeatedAuthFailures then 900_000 else 1_800_000;
      d.quarantine ==> d.until == Some(now + base * Pow2(Min(row.quarantineCount, 4)))
  {
    WindowClosedForm(row.quarantineCount);
    hide RestWindowSeconds;
  }

  lemma RecordKeepsDeadline(row: Proxy, sample: Sample, now: int, interval: int)
    requires BoundsOk(row) && DeadlineBounded(row, now)
    ensures DeadlineBounded(WriteHealth(row, row, sample, now, interval), now)
  {
    DecisionDeadline(row, sample, now);
    hide PoolDecision, NextHealthScore, NextProbeAfter, MarksDead;
  }

  lemma RecordKeepsRowOk(row: Proxy, sample: Sample, now: int, interval: int)
    requires RowOk(row, now)
    ensures RowOk(WriteHealth(row, row, sample, now, interval), now)
  {
    hide WriteHealth;
    RecordKeepsLifecycle(row, sample, now, interval);
    RecordKeepsBounds(row, sample, now, interval);
    RecordKeepsDeadline(row, sample, now, interval);
  }

  lemma RowAfterOk(s: Sys, step: Step, id: nat)
    requires id in s.db.rows && RowOk(s.db.rows[id], s.clock)
    requires step.Commit? && step.call in s.inFlight ==> s.inFlight[step.call].claim.now <= s.clock
    ensures RowOk(RowAfter(s, step, id), s.clock)
  {
    if step.Health? && step.id == id {
      RecordKeepsRowOk(s.db.rows[id], step.sample, s.clock, step.probeIntervalSeconds);
    }
  }

  /** A step assigns at most the chosen row, and only by freeing the worker's other rows. */
  lemma AssignmentAfter(s: Sys, step: Step, id: nat)
    requires id in s.db.rows
    ensures
      var after := RowAfter(s, step, id).assignedWorkerId;
      if step.Commit? && step.call in s.inFlight then
        var c := s.inFlight[step.call].claim;
        if id == c.choice.id then after == s.db.rows[id].assignedWorkerId || after == Some(c.workerId)
        else after != Some(c.workerId) && (after == s.db.rows[id].assignedWorkerId || after == None)
      else after == s.db.rows[id].assignedWorkerId || after == None
    ensures
      var c := if step.Commit? && step.call in s.inFlight then Some(s.inFlight[step.call].claim) else None;
      var (row, after) := (s.db.rows[id], RowAfter(s, step, id));
      after.lastRotatedAt == row.lastRotatedAt
      || (c.Some? && id == c.value.choice.id && after.assignedWorkerId == Some(c.value.workerId)
          && after.lastRotatedAt == Some(RotationStamp(c.value)))
  {
    hide PoolDecision, NextHealthScore, NextProbeAfter, MarksDead;
  }

  lemma ClaimsAfter(s: Sys, step: Step)
    requires forall call :: call in s.inFlight ==> s.inFlight[call].claim.now <= s.clock
    ensures
      var s' := Apply(s, step);
      forall call :: call in s'.inFlight ==> s'.inFlight[call].claim.now <= s'.clock
  {
  }

  lemma NewProxyOk(providerCode: Option<string>, rotationSeconds: Option<int>, rpm: Option<int>, clock: int)
    ensures RowOk(NewProxy(providerCode, rotationSeconds, rpm), clock)
  {
  }

  lemma RowOkLater(row: Proxy, clock: int, later: int)
    requires RowOk(row, clock) && clock <= later
    ensures RowOk(row, later)
  {
  }

  lemma StepKeepsInv(s: Sys, step: Step)
    requires Inv(s)
    ensures Inv(Apply(s, step))
  {
    hide WriteHealth, RowOk;
    var s' := Apply(s, step);
    RowByRow(s, step);
    ClaimsAfter(s, step);
    forall id | id in s'.db.rows ensures RowOk(s'.db.rows[id], s'.clock) {
      if id in s.db.rows {
        RowAfterOk(s, step, id);
        RowOkLater(RowAfter(s, step, id), s.clock, s'.clock);
      } else {
        NewProxyOk(step.providerCode, step.rotationSeconds, step.rpm, s'.clock);
      }
    }
    forall i, j | i in s'.db.rows && j in s'.db.rows && s'.db.rows[i].assignedWorkerId.Some?
                  && s'.db.rows[i].assignedWorkerId == s'.db.rows[j].assignedWorkerId
      ensures i == j
    {
      if i in s.db.rows { AssignmentAfter(s, step, i); }
      if j in s.db.rows { AssignmentAfter(s, step, j); }
    }
  }

  lemma {:induction false} RunKeepsInv(s: Sys, steps: seq<Step>)
    requires Inv(s)
    ensures Inv(Run(s, steps))
  {
    if steps == [] {
    } else {
      RunKeepsInv(s, steps[..|steps| - 1]);
      StepKeepsInv(Run(s, steps[..|steps| - 1]), steps[|steps| - 1]);
    }
  }

  /** The nightly integrity check of the pool (packages/database/src/verify.ts): four row counts, all zero. */
  ghost predicate ConsistencyCheckPasses(rows: map<nat, Proxy>, now: int) {
    && |set id | id in rows && rows[id].assignedWorkerId.Some?
              && (rows[id].status == Dead || rows[id].status == Quarantined || Resting(rows[id], now))| == 0
    && |set id | id in rows && (rows[id].multiplierPct < 12 || rows[id].multiplierPct > 100)| == 0
    && |set id | id in rows && (rows[id].rotationSeconds < 300 || rows[id].rotationSeconds > 86_400)| == 0
    && |set id | id in rows
              && (rows[id].successCount < 0 || rows[id].failureCount < 0 || rows[id].consecutiveFailures < 0)| == 0
  }

  /** In every run each worker holds at most one proxy and the nightly check passes. */
  lemma PoolAlwaysCoherent(clock: int, steps: seq<Step>)
    ensures
      var s := Run(Start(clock), steps);
      OneProxyPerWorker(s.db.rows) && ConsistencyCheckPasses(s.db.rows, s.clock)
  {
    RunKeepsInv(Start(clock), steps);
    var s := Run(Start(clock), steps);
    var rows := s.db.rows;
    assert (set id | id in rows && rows[id].assignedWorkerId.Some?
                && (rows[id].status == Dead || rows[id].status == Quarantined || Resting(rows[id], s.clock))) == {};
    assert (set id | id in rows && (rows[id].multiplierPct < 12 || rows[id].multiplierPct > 100)) == {};
    assert (set id | id in rows && (rows[id].rotationSeconds < 300 || rows[id].rotationSeconds > 86_400)) == {};
    assert (set id | id in rows
                && (rows[id].successCount < 0 || rows[id].failureCount < 0 || rows[id].consecutiveFailures < 0)) == {};
  }

  // ------------------------------------------------------------------ leases last

  /** A step that gives `w` no reason to lose `id`: not one of its own claims or releases, no resting
      of the proxy, no removal. Other workers may do anything. */
  ghost predicate LeavesLease(s: Sys, step: Step, w: string, id: nat) {
    match step
    case Commit(call, _) => call in s.inFlight ==> s.inFlight[call].claim.workerId != w
    case Release(w', id') => w' != w || id' != id
    case Health(id', sample, _) =>
      id' == id && id in s.db.rows ==> !PoolDecision(s.db.rows[id], sample, s.clock).quarantine
    case DropProxy(id') => id' != id
    case _ => true
  }

  ghost predicate LeavesLeaseAlong(s: Sys, steps: seq<Step>, w: string, id: nat) {
    steps == [] ||
    var n := |steps| - 1;
    LeavesLeaseAlong(s, steps[..n], w, id) && LeavesLease(Run(s, steps[..n]), steps[n], w, id)
  }

  ghost predicate HeldSince(s: Sys, w: string, id: nat, t: int) {
    id in s.db.rows && s.db.rows[id].assignedWorkerId == Some(w) && s.db.rows[id].assignedAt == Some(t)
  }

  lemma {:induction false} ClockNeverGoesBack(s: Sys, steps: seq<Step>)
    ensures s.clock <= Run(s, steps).clock
  {
    if steps == [] {
    } else {
      ClockNeverGoesBack(s, steps[..|steps| - 1]);
    }
  }

  lemma LeaseLastsOneStep(s: Sys, step: Step, w: string, id: nat, t: int)
    requires Inv(s) && HeldSince(s, w, id, t) && LeavesLease(s, step, w, id)
    requires s.clock <= t + MAX_LEASE_MS
    ensures HeldSince(Apply(s, step), w, id, t)
  {
    hide PoolDecision, NextHealthScore, MarksDead, NextProbeAfter;
    RowByRow(s, step);
    var row := RowAfter(s, step, id);
    assert row.assignedWorkerId == Some(w) && row.assignedAt == Some(t);
  }

  /** Nobody else's claim displaces a lease before it is 30 minutes old, whatever snapshots were taken. */
  lemma {:induction false} LeaseLasts(s: Sys, steps: seq<Step>, w: string, id: nat, t: int)
    requires Inv(s) && HeldSince(s, w, id, t)
    requires LeavesLeaseAlong(s, steps, w, id)
    requires Run(s, steps).clock <= t + MAX_LEASE_MS
    ensures HeldSince(Run(s, steps), w, id, t)
  {
    if steps == [] {
    } else {
      var before := Run(s, steps[..|steps| - 1]);
      var step := steps[|steps| - 1];
      LeaseLasts(s, steps[..|steps| - 1], w, id, t);
      RunKeepsInv(s, steps[..|steps| - 1]);
      LeaseLastsOneStep(before, step, w, id, t);
    }
  }

  /** A claim takes a proxy from another worker only if that lease is more than 30 minutes old. */
  lemma OnlyExpiredLeasesAreTaken(s: Sys, call: nat, minHealthScore: int, id: nat)
    requires Inv(s)
    requires id in s.db.rows && s.db.rows[id].assignedWorkerId.Some?
    ensures
      var after := Apply(s, Commit(call, minHealthScore)).db.rows;
      id in after &&
      var (row, row') := (s.db.rows[id], after[id]);
      row'.assignedWorkerId.Some? && row'.assignedWorkerId != row.assignedWorkerId ==>
        row.assignedAt.value < s.clock - MAX_LEASE_MS
  {
  }

  // ------------------------------------------------------------------ scheduled rotation is slow

  ghost predicate OneCallPerWorker(s: Sys) {
    forall a, b | a in s.inFlight && b in s.inFlight ::
        s.inFlight[a].claim.workerId == s.inFlight[b].claim.workerId ==> a == b
  }

  /** Every worker waits for its acquire before starting another. */
  ghost predicate SingleFlight(s: Sys, steps: seq<Step>) {
    OneCallPerWorker(Run(s, steps)) && (steps == [] || SingleFlight(s, steps[..|steps| - 1]))
  }

  ghost predicate ScheduledBy(l: Lease, w: string) { l.workerId == w && l.reason == RotatedSchedule }

  /** No scheduled rotation of `w` happened after `t`. */
  ghost predicate NoRotationAfter(leases: seq<Lease>, w: string, t: int) {
    forall i :: 0 <= i < |leases| && ScheduledBy(leases[i], w) ==> leases[i].acquiredAt <= t
  }

  ghost predicate Spaced(leases: seq<Lease>) {
    forall i, j | 0 <= i < j < |leases| && ScheduledBy(leases[j], leases[i].workerId)
                  && leases[i].reason == RotatedSchedule ::
      leases[j].acquiredAt - leases[i].acquiredAt >= MIN_ROTATION_SECONDS * 1000
  }

  ghost predicate RowStamped(row: Proxy, leases: seq<Lease>) {
    row.assignedWorkerId.Some? ==>
      row.lastRotatedAt.Some? && NoRotationAfter(leases, row.assignedWorkerId.value, row.lastRotatedAt.value)
  }

  /** A call in flight has seen a stamp no older than its worker's last scheduled rotation, and if it
      is itself a scheduled rotation it is already five minutes late. */
  ghost predicate CallStamped(f: InFlight, leases: seq<Lease>) {
    && NoRotationAfter(leases, f.claim.workerId, RotationStamp(f.claim))
    && (f.reason == RotatedSchedule ==>
          f.claim.rotated && NoRotationAfter(leases, f.claim.workerId, f.claim.now - MIN_ROTATION_SECONDS * 1000))
  }

  ghost predicate RotationInv(s: Sys) {
    && (forall i :: 0 <= i < |s.leases| ==> s.leases[i].acquiredAt <= s.clock)
    && (forall id :: id in s.db.rows ==> RowStamped(s.db.rows[id], s.leases))
    && (forall call :: call in s.inFlight ==> CallStamped(s.inFlight[call], s.leases))
    && Spaced(s.leases)
  }

  lemma BeginIsStamped(s: Sys, order: seq<nat>, req: Request)
    requires Inv(s) && RotationInv(s) && Enumerates(order, s.db.rows) && req.now == s.clock
    ensures
      var f := Begin(s, order, req);
      f.Some? ==> CallStamped(f.value, s.leases)
  {
    var listing := Listing(order, s.db.rows);
    SelectionSucceedsIffEligible(listing, req);
    var o := SelectProxy(listing, req);
    if o.selected.Some? && (o.sticky || o.rotated) {
      var own :| own in listing && Holds(own, req) && RotationDue(own, req.now) == o.rotated
                 && (o.sticky ==> own == o.selected.value);
      var row := s.db.rows[own.id];
      assert own == Selectable(own.id, row);
      assert RowStamped(row, s.leases) && RowOk(row, s.clock);
    }
  }

  /** A lease of another worker changes nothing for this one. */
  lemma OtherLease(leases: seq<Lease>, l: Lease, w: string, t: int)
    requires NoRotationAfter(leases, w, t)
    requires ScheduledBy(l, w) ==> l.acquiredAt <= t
    ensures NoRotationAfter(leases + [l], w, t)
  {
  }

  lemma RowsStayStamped(s: Sys, step: Step, id: nat)
    requires RotationInv(s) && id in s.db.rows
    requires !step.Commit? || step.call !in s.inFlight
    ensures RowStamped(RowAfter(s, step, id), s.leases)
  {
    hide RowAfter, Spaced, CallStamped;
    AssignmentAfter(s, step, id);
    assert RowStamped(s.db.rows[id], s.leases);
  }

  /** A claim stamps the row it takes no earlier than anything its worker did before. */
  lemma ClaimStampsRow(s: Sys, step: Step, id: nat, l: Lease)
    requires step.Commit? && step.call in s.inFlight
    requires Inv(s) && RotationInv(s) && id in s.db.rows
    requires l.workerId == s.inFlight[step.call].claim.workerId && l.reason == s.inFlight[step.call].reason
    requires l.acquiredAt == s.inFlight[step.call].claim.now
    ensures RowStamped(RowAfter(s, step, id), s.leases)
    ensures
      Granted(s.db.rows, s.inFlight[step.call].claim.(minHealthScore := step.minHealthScore)) ==>
        RowStamped(RowAfter(s, step, id), s.leases + [l])
  {
    hide Spaced, Claimable;
    var f := s.inFlight[step.call];
    assert CallStamped(f, s.leases) && RowStamped(s.db.rows[id], s.leases);
    assert f.reason == RotatedSchedule ==> RotationStamp(f.claim) == f.claim.now;
    var row := RowAfter(s, step, id);
    if row.assignedWorkerId.Some? && Granted(s.db.rows, f.claim.(minHealthScore := step.minHealthScore)) {
      OtherLease(s.leases, l, row.assignedWorkerId.value, row.lastRotatedAt.value);
    }
  }

  lemma LeaseKeepsSpacing(s: Sys, f: InFlight, l: Lease)
    requires Spaced(s.leases) && CallStamped(f, s.leases)
    requires l.workerId == f.claim.workerId && l.acquiredAt == f.claim.now && l.reason == f.reason
    ensures Spaced(s.leases + [l])
  {
  }

  lemma CommitKeepsRotationInv(s: Sys, step: Step)
    requires step.Commit? && step.call in s.inFlight
    requires Inv(s) && RotationInv(s) && OneCallPerWorker(s)
    ensures RotationInv(Apply(s, step))
  {
    hide RowOk, RowAfter, ClaimDb;
    var s' := Apply(s, step);
    var f := s.inFlight[step.call];
    var l := Lease(f.claim.choice.id, f.claim.workerId, f.requestsPerMinute, f.claim.now, f.reason);
    RowByRow(s, step);
    LeaseKeepsSpacing(s, f, l);
    assert s'.leases == s.leases || s'.leases == s.leases + [l];
    forall id | id in s'.db.rows ensures RowStamped(s'.db.rows[id], s'.leases) {
      ClaimStampsRow(s, step, id, l);
    }
    forall call | call in s'.inFlight ensures CallStamped(s'.inFlight[call], s'.leases) {
      var g := s.inFlight[call];
      assert CallStamped(g, s.leases) && g.claim.workerId != l.workerId;
      OtherLease(s.leases, l, g.claim.workerId, RotationStamp(g.claim));
      if g.reason == RotatedSchedule {
        OtherLease(s.leases, l, g.claim.workerId, g.claim.now - MIN_ROTATION_SECONDS * 1000);
      }
    }
  }

  lemma StepKeepsRotationInv(s: Sys, step: Step)
    requires Inv(s) && RotationInv(s) && OneCallPerWorker(s)
    ensures RotationInv(Apply(s, step))
  {
    hide RowAfter, Begin, RowOk, Spaced, CallStamped, RecordDb, ReleaseDb, CreateDb, UpdateDb, SetEnabledDb, RemoveDb;
    var s' := Apply(s, step);
    if step.Commit? && step.call in s.inFlight {
      CommitKeepsRotationInv(s, step);
    } else {
      RowByRow(s, step);
      if step.Snapshot? && s' != s {
        BeginIsStamped(s, step.order, Request(s.clock, step.mode, step.providerCode, step.workerId,
            step.minHealthScore));
      }
      forall id | id in s'.db.rows ensures RowStamped(s'.db.rows[id], s'.leases) {
        if id in s.db.rows { RowsStayStamped(s, step, id); }
      }
    }
  }

  lemma {:induction false} RunKeepsRotationInv(s: Sys, steps: seq<Step>)
    requires Inv(s) && RotationInv(s) && SingleFlight(s, steps)
    ensures RotationInv(Run(s, steps))
  {
    if steps == [] {
    } else {
      RunKeepsRotationInv(s, steps[..|steps| - 1]);
      RunKeepsInv(s, steps[..|steps| - 1]);
      StepKeepsRotationInv(Run(s, steps[..|steps| - 1]), steps[|steps| - 1]);
    }
  }

  /** Two scheduled rotations of one worker are at least five minutes apart, even from stale snapshots. */
  lemma ScheduledRotationsAreSlow(clock: int, steps: seq<Step>, i: nat, j: nat)
    requires SingleFlight(Start(clock), steps)
    requires
      var leases := Run(Start(clock), steps).leases;
      i < j < |leases| && leases[i].workerId == leases[j].workerId
      && leases[i].reason == RotatedSchedule && leases[j].reason == RotatedSchedule
    ensures
      var leases := Run(Start(clock), steps).leases;
      leases[j].acquiredAt - leases[i].acquiredAt >= 300_000
  {
    RunKeepsRotationInv(Start(clock), steps);
  }
}
