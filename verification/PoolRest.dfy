/** Rest windows over whole runs: when they end, when they can shrink, and what the evidence log says. */
module PoolRest {
  import opened Prelude
  import opened Quarantine
  import opened Rotation
  import opened Pool
  import opened PoolRuns

  lemma RunSnoc(s: Sys, steps: seq<Step>, step: Step)
    ensures Run(s, steps + [step]) == Apply(Run(s, steps), step)
  {
    assert (steps + [step])[..|steps|] == steps;
  }

  // ------------------------------------------------------------------ thresholds as the pool applies them

  /** A CAPTCHA on a failed sample rests the proxy at once, and on a successful one never: the counter the
      pool passes already includes the sample, so "two in a row" is not what happens. */
  lemma CaptchaRestsIffSampleFailed(row: Proxy, sample: Sample, now: int)
    requires 0 <= row.consecutiveFailures
    requires sample.captchaSeen && !RateLimited(sample) && !sample.blockPage
    ensures PoolDecision(row, sample, now).quarantine <==> !sample.ok
  {
  }

  /** For the same reason the second 403/407 failure in a row rests the proxy, not the third. */
  lemma SecondAuthFailureRests(row: Proxy, sample: Sample, now: int)
    requires !sample.ok && AuthIsh(sample)
    requires !sample.captchaSeen && !RateLimited(sample) && !sample.blockPage
    ensures PoolDecision(row, sample, now).quarantine <==> row.consecutiveFailures >= 1
  {
  }

  // ------------------------------------------------------------------ rest ends on time

  /** PROBE samples reach a quarantined row only when `probeDue` says so. */
  ghost predicate ProbeWaits(s: Sys, step: Step) {
    step.Health? && step.id in s.db.rows && step.sample.source == Probe && s.db.rows[step.id].status != Active ==>
      ProbeDue(s.db.rows[step.id], s.clock)
  }

  /** The step does not remove `id`, and if it rests it again, not for less than until `deadline`. */
  ghost predicate KeepsRest(s: Sys, step: Step, id: nat, deadline: int) {
    && step != DropProxy(id)
    && (step.Health? && step.id == id && id in s.db.rows ==>
          var d := PoolDecision(s.db.rows[id], step.sample, s.clock);
          d.quarantine && d.until.Some? ==> d.until.value >= deadline)
  }

  ghost predicate ProperRest(s: Sys, steps: seq<Step>, id: nat, deadline: int) {
    steps == [] ||
    var n := |steps| - 1;
    && ProperRest(s, steps[..n], id, deadline)
    && ProbeWaits(Run(s, steps[..n]), steps[n])
    && KeepsRest(Run(s, steps[..n]), steps[n], id, deadline)
  }

  ghost predicate OutOfService(row: Proxy, deadline: int) {
    row.status != Active && row.quarantinedUntil.Some? && row.quarantinedUntil.value >= deadline
  }

  lemma RestOutlastsStep(s: Sys, step: Step, id: nat, deadline: int)
    requires id in s.db.rows && OutOfService(s.db.rows[id], deadline) && s.clock < deadline
    requires ProbeWaits(s, step) && KeepsRest(s, step, id, deadline)
    ensures OutOfService(RowAfter(s, step, id), deadline)
  {
    hide NextHealthScore, NextProbeAfter, RestWindowSeconds, TightenedBudgetPercent;
  }

  /** From the moment a deadline is set, the row stays out of service until that deadline has passed, also when
      further offences rest it again; only an offence that sets an earlier deadline is left aside here. */
  lemma {:induction false} RestIsHonoured(s: Sys, steps: seq<Step>, id: nat, deadline: int)
    requires Inv(s) && id in s.db.rows && s.db.rows[id].quarantinedUntil == Some(deadline)
    requires ProperRest(s, steps, id, deadline)
    ensures
      var s' := Run(s, steps);
      id in s'.db.rows && (s'.clock < deadline ==> OutOfService(s'.db.rows[id], deadline))
  {
    if steps == [] {
    } else {
      var n := |steps| - 1;
      var before := Run(s, steps[..n]);
      hide Apply, RowAfter;
      RestIsHonoured(s, steps[..n], id, deadline);
      RowByRow(before, steps[n]);
      if before.clock < deadline { RestOutlastsStep(before, steps[n], id, deadline); }
    }
  }

  /** So no lease is handed out on it before then. */
  lemma NoLeaseBeforeDeadline(s: Sys, steps: seq<Step>, step: Step, id: nat, deadline: int)
    requires Inv(s) && id in s.db.rows && s.db.rows[id].quarantinedUntil == Some(deadline)
    requires ProperRest(s, steps, id, deadline)
    requires
      var s' := Run(s, steps);
      var leases := Apply(s', step).leases;
      |leases| > |s'.leases| && leases[|leases| - 1].proxyId == id
    ensures Run(s, steps).clock >= deadline
  {
    RestIsHonoured(s, steps, id, deadline);
  }

  // --- every return to service, in every run

  /** Whatever becomes ACTIVE in this step had no deadline left to wait for. */
  ghost predicate HonoursRests(s: Sys, step: Step) {
    forall id :: id in s.db.rows && id in Apply(s, step).db.rows && Apply(s, step).db.rows[id].status == Active
                 && s.db.rows[id].quarantinedUntil.Some?
                 ==> s.db.rows[id].quarantinedUntil.value <= s.clock
  }

  ghost predicate RestsHonoured(s: Sys, steps: seq<Step>) {
    steps == [] || (RestsHonoured(s, steps[..|steps| - 1])
        && HonoursRests(Run(s, steps[..|steps| - 1]), steps[|steps| - 1]))
  }

  ghost predicate ProbesWait(s: Sys, steps: seq<Step>) {
    steps == [] || (ProbesWait(s, steps[..|steps| - 1]) && ProbeWaits(Run(s, steps[..|steps| - 1]), steps[|steps| - 1]))
  }

  /** Only a good probe brings a row with a deadline back into service. */
  lemma OnlyGoodProbesReturn(s: Sys, step: Step, id: nat)
    requires Inv(s) && id in s.db.rows && id in Apply(s, step).db.rows
    requires s.db.rows[id].quarantinedUntil.Some? && Apply(s, step).db.rows[id].status == Active
    ensures step.Health? && step.id == id && GoodProbe(step.sample) && s.db.rows[id].status == Quarantined
  {
    hide NextHealthScore, NextProbeAfter, DecideQuarantine, Apply;
    RowByRow(s, step);
    assert RowOk(s.db.rows[id], s.clock);
  }

  /** With probes that wait for `probeDue` a row becomes ACTIVE only at or after the deadline it then carries,
      in every run and however often it is rested again. */
  lemma {:induction false} WaitingProbesHonourRests(clock: int, steps: seq<Step>)
    requires ProbesWait(Start(clock), steps)
    ensures RestsHonoured(Start(clock), steps)
  {
    if steps == [] {
    } else {
      var n := |steps| - 1;
      var s, step := Run(Start(clock), steps[..n]), steps[n];
      WaitingProbesHonourRests(clock, steps[..n]);
      RunKeepsInv(Start(clock), steps[..n]);
      hide Apply, Run;
      forall id | id in s.db.rows && id in Apply(s, step).db.rows && Apply(s, step).db.rows[id].status == Active
                  && s.db.rows[id].quarantinedUntil.Some?
        ensures s.db.rows[id].quarantinedUntil.value <= s.clock
      {
        OnlyGoodProbesReturn(s, step, id);
      }
    }
  }

  /** A quarantined row is released exactly by a good probe that is not itself a restriction; inside the
      rest window every good probe releases it, so only the caller's `probeDue` protects the window. */
  lemma ReleaseIffGoodProbe(row: Proxy, sample: Sample, now: int, interval: int)
    requires row.status == Quarantined
    ensures
      WriteHealth(row, row, sample, now, interval).status == Active
      <==> GoodProbe(sample) && (Resting(row, now) || !PoolDecision(row, sample, now).quarantine)
  {
    if MarksDead(row, sample, now) {
      DeadMeansRested(sample, StateOf(row, NextFailures(row, sample)), now);
    }
  }

  function TooManyRequests(): Sample { Sample(false, Traffic, None, Some(429), None, false, false) }

  function Forbidden(): Sample { Sample(false, Traffic, None, Some(403), None, false, false) }

  function ProbeOk(): Sample { Sample(true, Probe, None, Some(204), None, false, false) }

  ghost function RateLimitedProxy(): Proxy {
    var row := NewProxy(None, None, None);
    WriteHealth(row, row, TooManyRequests(), 0, 300)
  }

  lemma RateLimitedProxyRests()
    ensures
      var row := RateLimitedProxy();
      && row.status == Quarantined && row.quarantinedUntil == Some(1_800_000) && row.quarantineCount == 1
      && SqlProbeDue(row, 300_000) && !ProbeDue(row, 300_000)
      && WriteHealth(row, row, ProbeOk(), 300_000, 300).status == Active
  {
    WindowClosedForm(0);
    hide NextHealthScore, TightenedBudgetPercent, RestWindowSeconds;
  }

  /** The prober's SQL due set does not wait: five minutes into a thirty-minute rest it lists the row, and
      the good probe that follows puts it back in service. */
  lemma SqlDueSetReleasesEarly()
    ensures
      var steps := [AddProxy(0, None, None, None), Health(0, TooManyRequests(), 300), Tick(300_000)];
      var s := Run(Start(0), steps);
      var s' := Run(Start(0), steps + [Health(0, ProbeOk(), 300)]);
      && 0 in s.db.rows && SqlProbeDue(s.db.rows[0], s.clock) && !ProbeDue(s.db.rows[0], s.clock)
      && s.db.rows[0].quarantinedUntil == Some(1_800_000)
      && 0 in s'.db.rows && s'.db.rows[0].status == Active && s'.clock == 300_000
  {
    RateLimitedProxyRests();
    hide WriteHealth, SqlProbeDue, ProbeDue, HealthEvents, Run;
    var a, b, c := AddProxy(0, None, None, None), Health(0, TooManyRequests(), 300), Tick(300_000);
    assert [] + [a] == [a] && [a] + [b] == [a, b] && [a, b] + [c] == [a, b, c];
    assert Run(Start(0), []) == Start(0) by { RunNothing(Start(0)); }
    RunSnoc(Start(0), [], a);
    RunSnoc(Start(0), [a], b);
    RunSnoc(Start(0), [a, b], c);
    RunSnoc(Start(0), [a, b, c], Health(0, ProbeOk(), 300));
  }

  lemma RunNothing(s: Sys)
    ensures Run(s, []) == s
  {
  }

  // --- the SQL due set, for every probe interval

  /** Every process probes with the interval `interval`, and rows out of service only when SQL lists them. */
  ghost predicate SqlProbes(s: Sys, step: Step, interval: int) {
    step.Health? ==>
      && step.probeIntervalSeconds == interval
      && (step.id in s.db.rows && step.sample.source == Probe && s.db.rows[step.id].status != Active ==>
            SqlProbeDue(s.db.rows[step.id], s.clock))
  }

  ghost predicate SqlProbed(s: Sys, steps: seq<Step>, interval: int) {
    steps == []
    || (SqlProbed(s, steps[..|steps| - 1], interval)
        && SqlProbes(Run(s, steps[..|steps| - 1]), steps[|steps| - 1], interval))
  }

  /** A row with a deadline has been sampled, and its next probe is not due before the deadline. */
  ghost predicate ProbeCovered(row: Proxy) {
    row.quarantinedUntil.Some? ==>
      && (row.lastSuccessAt.Some? || row.lastFailureAt.Some?)
      && row.probeAfter.Some? && row.probeAfter.value >= row.quarantinedUntil.value
  }

  ghost predicate ProbesCovered(s: Sys) { forall id :: id in s.db.rows ==> ProbeCovered(s.db.rows[id]) }

  const LONGEST_REST_SECONDS := 28_800

  lemma DeadlineWithinLongestRest(row: Proxy, clock: int)
    requires DeadlineBounded(row, clock) && row.quarantinedUntil.Some?
    ensures row.quarantinedUntil.value <= clock + LONGEST_REST_SECONDS * 1000
  {
    Pow2Monotone(Min(row.quarantineCount - 1, 4), 4);
    assert Pow2(4) == 16 by { assert Pow2(2) == 4; }
  }

  lemma DecisionWithinLongestRest(row: Proxy, sample: Sample, now: int)
    requires 0 <= row.quarantineCount && PoolDecision(row, sample, now).quarantine
    ensures PoolDecision(row, sample, now).until.Some?
    ensures PoolDecision(row, sample, now).until.value <= now + LONGEST_REST_SECONDS * 1000
  {
    DecisionDeadline(row, sample, now);
    hide PoolDecision;
    Pow2Monotone(Min(row.quarantineCount, 4), 4);
    assert Pow2(4) == 16 by { assert Pow2(2) == 4; }
  }

  lemma RecordCovers(row: Proxy, sample: Sample, now: int, interval: int)
    requires RowOk(row, now) && interval >= LONGEST_REST_SECONDS
    ensures ProbeCovered(WriteHealth(row, row, sample, now, interval))
  {
    if PoolDecision(row, sample, now).quarantine {
      DecisionWithinLongestRest(row, sample, now);
    } else if row.quarantinedUntil.Some? {
      DeadlineWithinLongestRest(row, now);
    }
    hide PoolDecision, NextHealthScore, MarksDead, DeadlineBounded;
  }

  lemma StepKeepsCover(s: Sys, step: Step, interval: int)
    requires Inv(s) && ProbesCovered(s) && SqlProbes(s, step, interval) && interval >= LONGEST_REST_SECONDS
    ensures ProbesCovered(Apply(s, step))
  {
    RowByRow(s, step);
    hide Apply, WriteHealth, SqlProbeDue;
    var s' := Apply(s, step);
    forall id | id in s'.db.rows ensures ProbeCovered(s'.db.rows[id]) {
      if id in s.db.rows {
        assert RowOk(s.db.rows[id], s.clock) && ProbeCovered(s.db.rows[id]);
        if step.Health? && step.id == id { RecordCovers(s.db.rows[id], step.sample, s.clock, interval); }
      }
    }
  }

  lemma CoveredMeansNotDue(row: Proxy, now: int)
    requires ProbeCovered(row) && row.quarantinedUntil.Some? && row.quarantinedUntil.value > now
    ensures !SqlProbeDue(row, now)
  {
  }

  lemma CoveredStepHonours(s: Sys, step: Step, interval: int)
    requires Inv(s) && ProbesCovered(s) && SqlProbes(s, step, interval)
    ensures HonoursRests(s, step)
  {
    hide Apply, SqlProbeDue, ProbeCovered;
    forall id | id in s.db.rows && id in Apply(s, step).db.rows && Apply(s, step).db.rows[id].status == Active
                && s.db.rows[id].quarantinedUntil.Some?
      ensures s.db.rows[id].quarantinedUntil.value <= s.clock
    {
      OnlyGoodProbesReturn(s, step, id);
      if s.db.rows[id].quarantinedUntil.value > s.clock { CoveredMeansNotDue(s.db.rows[id], s.clock); }
    }
  }

  lemma {:induction false} LongIntervalHonoursRests(clock: int, steps: seq<Step>, interval: int)
    requires interval >= LONGEST_REST_SECONDS && SqlProbed(Start(clock), steps, interval)
    ensures ProbesCovered(Run(Start(clock), steps)) && RestsHonoured(Start(clock), steps)
  {
    if steps == [] {
    } else {
      var n := |steps| - 1;
      var s := Run(Start(clock), steps[..n]);
      LongIntervalHonoursRests(clock, steps[..n], interval);
      RunKeepsInv(Start(clock), steps[..n]);
      StepKeepsCover(s, steps[n], interval);
      CoveredStepHonours(s, steps[n], interval);
      hide Apply, SqlProbes, HonoursRests, ProbesCovered, Inv;
    }
  }

  function TrafficOk(): Sample { Sample(true, Traffic, None, Some(200), None, false, false) }

  /** Five rate limits at time 0 give the longest rest; a good traffic sample then sets the probe time without
      touching the deadline. */
  ghost function RestedThenUsed(interval: int): seq<Step> {
    Offences(5, interval) + [Health(0, TrafficOk(), interval)]
  }

  lemma TrafficMovesProbeTime(row: Proxy, interval: int)
    requires row.enabled && row.status == Quarantined && row.quarantinedUntil == Some(LONGEST_REST_SECONDS * 1000)
    requires interval < LONGEST_REST_SECONDS
    ensures
      var after := WriteHealth(row, row, TrafficOk(), 0, interval);
      var due := Max(0, interval * 1000);
      && after.status == Quarantined && after.quarantinedUntil == row.quarantinedUntil
      && SqlProbeDue(after, due)
      && WriteHealth(after, after, ProbeOk(), due, interval).status == Active
  {
    hide NextHealthScore, RestWindowSeconds, TightenedBudgetPercent;
  }

  lemma {:induction false} OffencesAreProbed(n: nat, interval: int)
    ensures SqlProbed(Start(0), Offences(n, interval), interval)
  {
    if n == 0 {
      var add := AddProxy(0, None, None, None);
      assert [] + [add] == [add];
      ProbedSnoc([], add, interval);
    } else {
      OffencesAreProbed(n - 1, interval);
      ProbedSnoc(Offences(n - 1, interval), Health(0, TooManyRequests(), interval), interval);
    }
  }

  lemma ProbedSnoc(steps: seq<Step>, step: Step, interval: int)
    requires SqlProbed(Start(0), steps, interval) && SqlProbes(Run(Start(0), steps), step, interval)
    ensures SqlProbed(Start(0), steps + [step], interval)
  {
    assert (steps + [step])[..|steps|] == steps;
  }

  lemma NotHonouredSnoc(steps: seq<Step>, step: Step)
    requires !HonoursRests(Run(Start(0), steps), step)
    ensures !RestsHonoured(Start(0), steps + [step])
  {
    assert (steps + [step])[..|steps|] == steps;
  }

  lemma RestedThenUsedState(interval: int)
    requires interval < LONGEST_REST_SECONDS
    ensures
      var s := Run(Start(0), RestedThenUsed(interval));
      var due := Max(0, interval * 1000);
      && SqlProbed(Start(0), RestedThenUsed(interval), interval)
      && s.clock == 0 && 0 in s.db.rows
      && var row := s.db.rows[0];
      && row.status == Quarantined && row.quarantinedUntil == Some(LONGEST_REST_SECONDS * 1000)
      && SqlProbeDue(row, due) && WriteHealth(row, row, ProbeOk(), due, interval).status == Active
  {
    AfterOffences(0, 5, interval);
    OffencesAreProbed(5, interval);
    assert Pow2(4) == 16 by { assert Pow2(2) == 4; }
    var s := Run(Start(0), Offences(5, interval));
    TrafficMovesProbeTime(s.db.rows[0], interval);
    hide Run, Offences, WriteHealth, SqlProbeDue, HealthEvents;
    RunSnoc(Start(0), Offences(5, interval), Health(0, TrafficOk(), interval));
    ProbedSnoc(Offences(5, interval), Health(0, TrafficOk(), interval), interval);
  }

  lemma ShortIntervalBreaksRest(interval: int) returns (steps: seq<Step>)
    requires interval < LONGEST_REST_SECONDS
    ensures SqlProbed(Start(0), steps, interval) && !RestsHonoured(Start(0), steps)
  {
    var used, due := RestedThenUsed(interval), Max(0, interval * 1000);
    var wait, probe := Tick(due), Health(0, ProbeOk(), interval);
    RestedThenUsedState(interval);
    hide WriteHealth, SqlProbeDue, HealthEvents, Run, RestedThenUsed, SqlProbed, RestsHonoured;
    var s := Run(Start(0), used);
    RunSnoc(Start(0), used, wait);
    ProbedSnoc(used, wait, interval);
    var waited := used + [wait];
    ProbedSnoc(waited, probe, interval);
    assert 0 in Apply(Run(Start(0), waited), probe).db.rows;
    NotHonouredSnoc(waited, probe);
    steps := waited + [probe];
  }

  /** The probe interval decides: with probes taken from the SQL due set every rest is honoured in every run
      exactly when the interval is at least the longest rest window, eight hours. The settings allow one hour
      at most, so for every admissible interval some run breaks a rest. */
  lemma SqlDueSetHonoursRestsIff(interval: int)
    ensures (forall clock, steps :: SqlProbed(Start(clock), steps, interval) ==> RestsHonoured(Start(clock), steps))
            <==> interval >= LONGEST_REST_SECONDS
  {
    if interval >= LONGEST_REST_SECONDS {
      forall clock, steps | SqlProbed(Start(clock), steps, interval) ensures RestsHonoured(Start(clock), steps) {
        LongIntervalHonoursRests(clock, steps, interval);
      }
    } else {
      var steps := ShortIntervalBreaksRest(interval);
      assert SqlProbed(Start(0), steps, interval) && !RestsHonoured(Start(0), steps);
    }
  }

  // ------------------------------------------------------------------ deadlines and repeat offences

  /** In the state reached by `steps`, the sample rests an already resting row until an earlier time. */
  ghost predicate Shortens(clock: int, steps: seq<Step>, id: nat, sample: Sample, count: nat, reason: Reason) {
    var s := Run(Start(clock), steps);
    && id in s.db.rows
    && var row := s.db.rows[id];
    var d := PoolDecision(row, sample, s.clock);
    && row.quarantineCount == count && row.quarantinedUntil.Some?
    && d.quarantine && d.reason == reason
    && d.until.value < row.quarantinedUntil.value
  }

  lemma LaterOffenceRestsLonger(row: Proxy, sample: Sample, now: int)
    requires RowOk(row, now) && row.quarantinedUntil.Some?
    requires PoolDecision(row, sample, now).quarantine
    requires row.quarantineCount <= 4 || PoolDecision(row, sample, now).reason != RepeatedAuthFailures
    ensures PoolDecision(row, sample, now).until.value >= row.quarantinedUntil.value
  {
    var n := row.quarantineCount;
    DecisionDeadline(row, sample, now);
    hide PoolDecision;
    Pow2Monotone(Min(n - 1, 4), Min(n, 4));
  }

  ghost function Offences(n: nat, interval: int): seq<Step> {
    if n == 0 then [AddProxy(0, None, None, None)]
    else Offences(n - 1, interval) + [Health(0, TooManyRequests(), interval)]
  }

  lemma OneOffence(row: Proxy, now: int, interval: int)
    requires 0 <= row.quarantineCount
    ensures
      var next := WriteHealth(row, row, TooManyRequests(), now, interval);
      && next.quarantineCount == row.quarantineCount + 1
      && next.consecutiveFailures == row.consecutiveFailures + 1
      && next.quarantinedUntil == Some(now + 1_800_000 * Pow2(Min(row.quarantineCount, 4)))
      && next.enabled == row.enabled && next.status == Quarantined
  {
    WindowClosedForm(row.quarantineCount);
  }

  ghost predicate Offended(s: Sys, clock: int, n: nat) {
    && s.clock == clock && 0 in s.db.rows
    && var row := s.db.rows[0];
    && row.quarantineCount == n && row.consecutiveFailures == n && row.enabled
    && (n > 0 ==> row.status == Quarantined && row.quarantinedUntil == Some(clock + 1_800_000 * Pow2(Min(n - 1, 4))))
  }

  lemma NextOffence(s: Sys, clock: int, n: nat, interval: int)
    requires Offended(s, clock, n)
    ensures Offended(Apply(s, Health(0, TooManyRequests(), interval)), clock, n + 1)
  {
    OneOffence(s.db.rows[0], clock, interval);
    hide WriteHealth, HealthEvents;
  }

  lemma FirstRow(clock: int)
    ensures Offended(Apply(Start(clock), AddProxy(0, None, None, None)), clock, 0)
  {
  }

  /** After n rate limits in a row at one moment. */
  lemma {:induction false} AfterOffences(clock: int, n: nat, interval: int)
    ensures Offended(Run(Start(clock), Offences(n, interval)), clock, n)
  {
    hide Run, Apply, Offended;
    if n == 0 {
      var add := AddProxy(0, None, None, None);
      RunSnoc(Start(clock), [], add);
      RunNothing(Start(clock));
      FirstRow(clock);
      assert [] + [add] == [add];
    } else {
      AfterOffences(clock, n - 1, interval);
      RunSnoc(Start(clock), Offences(n - 1, interval), Health(0, TooManyRequests(), interval));
      NextOffence(Run(Start(clock), Offences(n - 1, interval)), clock, n - 1, interval);
    }
  }

  lemma FifthAuthOffenceShortens(count: nat)
    requires count >= 5
    ensures Shortens(0, Offences(count, 300), 0, Forbidden(), count, RepeatedAuthFailures)
  {
    AfterOffences(0, count, 300);
    var s := Run(Start(0), Offences(count, 300));
    DecisionDeadline(s.db.rows[0], Forbidden(), 0);
    hide Run, RestWindowSeconds;
    assert Pow2(4) == 16 by { assert Pow2(2) == 4; }
  }

  /** In all runs, a further offence never moves the deadline earlier exactly when fewer than five offences
      came before or the offence is not an authentication failure. */
  lemma RestNeverShrinksIff(count: nat, reason: Reason)
    ensures
      (forall clock, steps, id, sample :: !Shortens(clock, steps, id, sample, count, reason))
      <==> count <= 4 || reason != RepeatedAuthFailures
  {
    if count <= 4 || reason != RepeatedAuthFailures {
      forall clock, steps, id, sample ensures !Shortens(clock, steps, id, sample, count, reason) {
        if Shortens(clock, steps, id, sample, count, reason) {
          RunKeepsInv(Start(clock), steps);
          var s := Run(Start(clock), steps);
          LaterOffenceRestsLonger(s.db.rows[id], sample, s.clock);
        }
      }
    } else {
      FifthAuthOffenceShortens(count);
    }
  }

  // ------------------------------------------------------------------ the request budget

  /** Every rest halves the budget, rounding up, and never goes below an eighth. */
  lemma RestHalvesBudget(row: Proxy, sample: Sample, now: int, interval: int)
    requires 12 <= row.multiplierPct <= 100 && PoolDecision(row, sample, now).quarantine
    ensures
      var after := WriteHealth(row, row, sample, now, interval).multiplierPct;
      12 <= after && (after == 12 || after * 2 - row.multiplierPct in {0, 1}) && row.multiplierPct <= 2 * after
  {
    hide RestWindowSeconds, NextHealthScore, NextProbeAfter, MarksDead;
  }

  /** The rows one proxy passes through under these samples, with nothing else happening to it. */
  function Observed(row: Proxy, samples: seq<Sample>, now: int, interval: int): Proxy {
    if samples == [] then row
    else
      var before := Observed(row, samples[..|samples| - 1], now, interval);
      WriteHealth(before, before, samples[|samples| - 1], now, interval)
  }

  predicate Clean(sample: Sample) {
    sample.ok && !RateLimited(sample) && !sample.blockPage
  }

  lemma CleanSampleDoublesBudget(row: Proxy, sample: Sample, now: int, interval: int)
    requires Clean(sample)
    ensures WriteHealth(row, row, sample, now, interval).multiplierPct == Min(100, row.multiplierPct * 2)
  {
    hide NextHealthScore, NextProbeAfter, MarksDead, RestWindowSeconds;
  }

  /** Four clean samples in a row restore the full budget from any admissible one, and from the smallest
      no fewer do. */
  lemma {:induction false} BudgetRecovers(row: Proxy, samples: seq<Sample>, now: int, interval: int)
    requires 12 <= row.multiplierPct <= 100 && forall i :: 0 <= i < |samples| ==> Clean(samples[i])
    ensures Observed(row, samples, now, interval).multiplierPct == Min(100, row.multiplierPct * Pow2(Min(|samples|, 4)))
    ensures |samples| >= 4 ==> Observed(row, samples, now, interval).multiplierPct == 100
    ensures |samples| < 4 && row.multiplierPct == 12 ==> Observed(row, samples, now, interval).multiplierPct < 100
  {
    assert Pow2(4) == 16 && Pow2(3) == 8 && Pow2(2) == 4 && Pow2(1) == 2 by { assert Pow2(2) == 2 * Pow2(1); }
    if samples == [] {
    } else {
      var n := |samples| - 1;
      BudgetRecovers(row, samples[..n], now, interval);
      CleanSampleDoublesBudget(Observed(row, samples[..n], now, interval), samples[n], now, interval);
      hide WriteHealth;
      BudgetStep(row.multiplierPct, n);
    }
  }

  lemma BudgetStep(m: int, n: nat)
    requires 12 <= m <= 100
    ensures Min(100, Min(100, m * Pow2(Min(n, 4))) * 2) == Min(100, m * Pow2(Min(n + 1, 4)))
  {
    assert Pow2(4) == 16 by { assert Pow2(2) == 4; }
    if n < 4 {
      var p := Pow2(n);
      assert m * (2 * p) == 2 * (m * p);
    }
  }

  // ------------------------------------------------------------------ the score

  /** Equal samples in a row move the score by equal steps until it reaches its bound. */
  lemma {:induction false} AlikeSamplesMoveScore(row: Proxy, samples: seq<Sample>, ok: bool, source: Source, now: int,
        interval: int)
    requires 0 <= row.healthScore <= 100
    requires forall x :: x in samples ==> x.ok == ok && x.source == source
    ensures
      var n, h := |samples|, row.healthScore;
      Observed(row, samples, now, interval).healthScore
      == if ok then Min(100, h + (if source == Probe then 5 * n else 3 * n))
         else Max(0, h - (if source == Probe then 12 * n else 18 * n))
  {
    if samples == [] {
    } else {
      var n := |samples| - 1;
      var before := Observed(row, samples[..n], now, interval);
      AlikeSamplesMoveScore(row, samples[..n], ok, source, now, interval);
      ScoreMovesBy(before.healthScore, samples[n]);
      WriteMovesScore(before, samples[n], now, interval);
      hide WriteHealth, NextHealthScore;
    }
  }

  lemma WriteMovesScore(row: Proxy, sample: Sample, now: int, interval: int)
    ensures WriteHealth(row, row, sample, now, interval).healthScore == NextHealthScore(row.healthScore, sample)
  {
    hide NextHealthScore, PoolDecision, MarksDead, NextProbeAfter;
  }

  /** In a run in which a proxy only fails its probes, n of them leave max(0, h - 12 n) of its score. */
  lemma {:induction false} FailedProbesWearDown(s: Sys, steps: seq<Step>, id: nat)
    requires id in s.db.rows && 0 <= s.db.rows[id].healthScore <= 100
    requires forall step :: step in steps ==>
      step.Health? && step.id == id && !step.sample.ok && step.sample.source == Probe
    ensures
      var s' := Run(s, steps);
      id in s'.db.rows && s'.db.rows[id].healthScore == Max(0, s.db.rows[id].healthScore - 12 * |steps|)
  {
    if steps == [] {
    } else {
      var n := |steps| - 1;
      var before, step := Run(s, steps[..n]), steps[n];
      FailedProbesWearDown(s, steps[..n], id);
      ScoreMovesBy(before.db.rows[id].healthScore, step.sample);
      WriteMovesScore(before.db.rows[id], step.sample, before.clock, step.probeIntervalSeconds);
      hide WriteHealth, NextHealthScore, HealthEvents, Begin;
    }
  }

  // ------------------------------------------------------------------ dead proxies

  /** A dead proxy leaves DEAD only by being rested again, never straight into service. */
  lemma DeadOnlyLeavesThroughRest(s: Sys, step: Step, id: nat)
    requires id in s.db.rows && s.db.rows[id].status == Dead
    ensures
      var rows := Apply(s, step).db.rows;
      id in rows && rows[id].status != Dead ==>
        rows[id].status == Quarantined && step.Health? && PoolDecision(s.db.rows[id], step.sample, s.clock).quarantine
  {
    RowByRow(s, step);
  }

  /** The RECOVERED event is written exactly for a good probe of a DEAD row that does not rest it, and the row is
      then still DEAD. */
  lemma RecoveredMeansStillDead(id: nat, row: Proxy, sample: Sample, now: int, interval: int)
    ensures EventRow(Some(id), RecoveredEvent) in HealthEvents(id, row, sample, now) <==>
            row.status == Dead && GoodProbe(sample) && !PoolDecision(row, sample, now).quarantine
    ensures EventRow(Some(id), RecoveredEvent) in HealthEvents(id, row, sample, now) ==>
            WriteHealth(row, row, sample, now, interval).status == Dead
  {
    hide NextHealthScore, NextProbeAfter, DecideQuarantine;
  }

  ghost predicate NobodyMarkedDead(events: seq<EventRow>) {
    forall e :: e in events ==> e.kind != MarkedDeadEvent
  }

  lemma HealthNeverLogsMarkedDead(id: nat, row: Proxy, sample: Sample, now: int)
    ensures NobodyMarkedDead(HealthEvents(id, row, sample, now))
  {
    if MarksDead(row, sample, now) {
      DeadMeansRested(sample, StateOf(row, NextFailures(row, sample)), now);
    }
  }

  lemma EventsAfter(s: Sys, step: Step)
    requires NobodyMarkedDead(s.db.events)
    ensures NobodyMarkedDead(Apply(s, step).db.events)
  {
    if step.Health? && step.id in s.db.rows {
      HealthNeverLogsMarkedDead(step.id, s.db.rows[step.id], step.sample, s.clock);
    }
  }

  /** Marking dead always goes with resting, so the MARKED_DEAD audit event is never written. */
  lemma {:induction false} MarkedDeadIsNeverLogged(clock: int, steps: seq<Step>)
    ensures NobodyMarkedDead(Run(Start(clock), steps).db.events)
  {
    if steps == [] {
    } else {
      MarkedDeadIsNeverLogged(clock, steps[..|steps| - 1]);
      EventsAfter(Run(Start(clock), steps[..|steps| - 1]), steps[|steps| - 1]);
    }
  }

  // ------------------------------------------------------------------ counters are a fold of the evidence

  /** The samples recorded for `id`, oldest first. */
  function SamplesOf(log: seq<SampleRow>, id: nat): seq<Sample> {
    if log == [] then []
    else
      var n := |log| - 1;
      SamplesOf(log[..n], id) + (if log[n].proxyId == Some(id) then [log[n].sample] else [])
  }

  function HealthFold(samples: seq<Sample>): int {
    if samples == [] then 100 else NextHealthScore(HealthFold(samples[..|samples| - 1]), samples[|samples| - 1])
  }

  /** Length of the failing run at the end. */
  function TrailingFailures(samples: seq<Sample>): nat {
    if samples == [] || samples[|samples| - 1].ok then 0 else 1 + TrailingFailures(samples[..|samples| - 1])
  }

  /** How many samples ended this way. */
  function Tally(ok: bool, samples: seq<Sample>): nat {
    if samples == [] then 0
    else Tally(ok, samples[..|samples| - 1]) + (if samples[|samples| - 1].ok == ok then 1 else 0)
  }

  ghost predicate Explained(row: Proxy, samples: seq<Sample>, offences: nat) {
    && row.successCount == Tally(true, samples)
    && row.failureCount == Tally(false, samples)
    && row.consecutiveFailures == TrailingFailures(samples)
    && row.healthScore == HealthFold(samples)
    && row.quarantineCount == offences
  }

  /** How often `id` was put to rest. */
  function OffencesOf(events: seq<EventRow>, id: nat): nat {
    if events == [] then 0
    else
      var n := |events| - 1;
      OffencesOf(events[..n], id) + (if events[n] == EventRow(Some(id), QuarantinedEvent) then 1 else 0)
  }

  ghost predicate RowExplained(db: Db, id: nat)
    requires id in db.rows
  {
    Explained(db.rows[id], SamplesOf(db.samples, id), OffencesOf(db.events, id))
  }

  ghost predicate RowsExplained(db: Db) {
    forall id :: id in db.rows ==> RowExplained(db, id)
  }

  /** Evidence never points at a missing row. */
  ghost predicate References(db: Db) {
    && (forall x :: x in db.samples && x.proxyId.Some? ==> x.proxyId.value in db.rows)
    && (forall e :: e in db.events && e.proxyId.Some? ==> e.proxyId.value in db.rows)
  }

  ghost predicate Evidence(db: Db) { RowsExplained(db) && References(db) }

  lemma OffencesOfAppend(events: seq<EventRow>, e: EventRow, id: nat)
    ensures OffencesOf(events + [e], id) == OffencesOf(events, id)
        + (if e == EventRow(Some(id), QuarantinedEvent) then 1 else 0)
  {
    assert (events + [e])[..|events|] == events;
  }

  lemma SamplesOfAppend(log: seq<SampleRow>, x: SampleRow, id: nat)
    ensures SamplesOf(log + [x], id) == SamplesOf(log, id) + (if x.proxyId == Some(id) then [x.sample] else [])
  {
    assert (log + [x])[..|log|] == log;
  }

  lemma NothingAboutStrangers(db: Db, id: nat)
    requires Evidence(db) && id !in db.rows
    ensures SamplesOf(db.samples, id) == [] && OffencesOf(db.events, id) == 0
  {
    NoSamples(db.samples, id);
    NoEvents(db.events, id);
  }

  lemma {:induction false} NoSamples(log: seq<SampleRow>, id: nat)
    requires forall x :: x in log ==> x.proxyId != Some(id)
    ensures SamplesOf(log, id) == []
  {
    if log == [] {
    } else {
      NoSamples(log[..|log| - 1], id);
    }
  }

  lemma {:induction false} NoEvents(log: seq<EventRow>, id: nat)
    requires forall e :: e in log ==> e.proxyId != Some(id)
    ensures OffencesOf(log, id) == 0
  {
    if log == [] {
    } else {
      NoEvents(log[..|log| - 1], id);
    }
  }

  lemma {:induction false} ForgetOtherSamples(log: seq<SampleRow>, gone: nat, id: nat)
    requires id != gone
    ensures SamplesOf(ForgetSamples(log, gone), id) == SamplesOf(log, id)
  {
    if log == [] {
    } else {
      var n := |log| - 1;
      ForgetOtherSamples(log[..n], gone, id);
      assert ForgetSamples(log, gone)[..n] == ForgetSamples(log[..n], gone);
    }
  }

  lemma {:induction false} ForgetOtherEvents(log: seq<EventRow>, gone: nat, id: nat)
    requires id != gone
    ensures OffencesOf(ForgetEvents(log, gone), id) == OffencesOf(log, id)
  {
    if log == [] {
    } else {
      var n := |log| - 1;
      ForgetOtherEvents(log[..n], gone, id);
      assert ForgetEvents(log, gone)[..n] == ForgetEvents(log[..n], gone);
    }
  }

  lemma OneMoreSample(row: Proxy, samples: seq<Sample>, offences: nat, sample: Sample, now: int, interval: int)
    requires Explained(row, samples, offences)
    ensures Explained(WriteHealth(row, row, sample, now, interval), samples + [sample],
                      if PoolDecision(row, sample, now).quarantine then offences + 1 else offences)
  {
    assert (samples + [sample])[..|samples|] == samples;
  }

  lemma SamplesAfterRecord(db: Db, id: nat, sample: Sample, other: nat)
    ensures
      SamplesOf(db.samples + [SampleRow(Some(id), sample)], other)
      == if other == id then SamplesOf(db.samples, id) + [sample] else SamplesOf(db.samples, other)
  {
    SamplesOfAppend(db.samples, SampleRow(Some(id), sample), other);
    assert SamplesOf(db.samples, other) + [] == SamplesOf(db.samples, other);
  }

  lemma OffencesAfterRecord(events: seq<EventRow>, id: nat, row: Proxy, sample: Sample, now: int, other: nat)
    ensures
      OffencesOf(events + HealthEvents(id, row, sample, now), other)
      == OffencesOf(events, other) + (if other == id && PoolDecision(row, sample, now).quarantine then 1 else 0)
  {
    var news := HealthEvents(id, row, sample, now);
    if news == [] {
      assert events + news == events;
    } else {
      var e := news[0];
      assert news == [e] && (e == EventRow(Some(id), QuarantinedEvent) <==> PoolDecision(row, sample, now).quarantine);
      hide PoolDecision, HealthEvents;
      OffencesOfAppend(events, e, other);
    }
  }

  lemma RecordExplains(db: Db, id: nat, sample: Sample, now: int, interval: int, other: nat)
    requires id in db.rows && other in db.rows && RowExplained(db, other)
    ensures RowExplained(RecordDb(db, id, sample, now, interval), other)
  {
    SamplesAfterRecord(db, id, sample, other);
    OffencesAfterRecord(db.events, id, db.rows[id], sample, now, other);
    hide WriteHealth, HealthEvents, Explained, SamplesOf, OffencesOf, PoolDecision;
    var after := RecordDb(db, id, sample, now, interval);
    assert after.samples == db.samples + [SampleRow(Some(id), sample)];
    assert after.events == db.events + HealthEvents(id, db.rows[id], sample, now);
    assert other != id ==> after.rows[other] == db.rows[other];
    assert after.rows[id] == WriteHealth(db.rows[id], db.rows[id], sample, now, interval);
    hide RecordDb;
    if other == id {
      OneMoreSample(db.rows[id], SamplesOf(db.samples, id), OffencesOf(db.events, id), sample, now, interval);
    }
  }

  lemma RecordKeepsReferences(db: Db, id: nat, sample: Sample, now: int, interval: int)
    requires References(db)
    ensures References(RecordDb(db, id, sample, now, interval))
  {
    if id in db.rows {
      var news := HealthEvents(id, db.rows[id], sample, now);
      assert forall e :: e in db.events + news ==> e in db.events || e in news;
    }
  }

  lemma RecordKeepsEvidence(db: Db, id: nat, sample: Sample, now: int, interval: int)
    requires Evidence(db)
    ensures Evidence(RecordDb(db, id, sample, now, interval))
  {
    RecordKeepsReferences(db, id, sample, now, interval);
    if id in db.rows {
      forall other | other in db.rows ensures RowExplained(RecordDb(db, id, sample, now, interval), other) {
        RecordExplains(db, id, sample, now, interval, other);
      }
    }
  }

  /** Any change that leaves the counters alone and logs one other event. */
  lemma AppendEventKeepsEvidence(db: Db, rows: map<nat, Proxy>, e: EventRow)
    requires Evidence(db) && e.kind != QuarantinedEvent
    requires e.proxyId.Some? && e.proxyId.value in rows && db.rows.Keys <= rows.Keys
    requires forall id :: id in rows ==>
               if id in db.rows then SameCounters(rows[id], db.rows[id]) else FreshCounters(rows[id])
    ensures Evidence(Db(rows, db.samples, db.events + [e]))
  {
    var db' := Db(rows, db.samples, db.events + [e]);
    forall id | id in rows ensures RowExplained(db', id) {
      OffencesOfAppend(db.events, e, id);
      if id in db.rows { assert RowExplained(db, id); } else { NothingAboutStrangers(db, id); }
    }
  }

  ghost predicate SameCounters(a: Proxy, b: Proxy) {
    && a.successCount == b.successCount && a.failureCount == b.failureCount
    && a.consecutiveFailures == b.consecutiveFailures && a.healthScore == b.healthScore
    && a.quarantineCount == b.quarantineCount
  }

  ghost predicate FreshCounters(a: Proxy) {
    a.successCount == a.failureCount == a.consecutiveFailures == a.quarantineCount == 0 && a.healthScore == 100
  }

  lemma RemoveKeepsEvidence(db: Db, id: nat)
    requires Evidence(db)
    ensures
      var r := RemoveDb(db, id);
      r.Ok? ==> Evidence(r.value)
  {
    if id in db.rows {
      var db' := RemoveDb(db, id).value;
      var e := EventRow(Some(id), RemovedEvent);
      AppendEventKeepsEvidence(db, db.rows, e);
      forall other | other in db'.rows ensures RowExplained(db', other) {
        assert RowExplained(db, other);
        ForgetOtherSamples(db.samples, id, other);
        ForgetOtherEvents(db.events + [e], id, other);
      }
    }
  }

  lemma ClaimKeepsCounters(id: nat, row: Proxy, c: Claim)
    ensures SameCounters(AfterClaim(id, row, c), row)
  {
  }

  lemma ClaimKeepsEvidence(db: Db, c: Claim)
    requires Evidence(db)
    ensures Evidence(ClaimDb(db, c))
  {
    var rows := ClaimDb(db, c).rows;
    forall id | id in rows ensures SameCounters(rows[id], db.rows[id]) {
      ClaimKeepsCounters(id, db.rows[id], c);
    }
    if Granted(db.rows, c) {
      AppendEventKeepsEvidence(db, rows, EventRow(Some(c.choice.id), LeaseAcquiredEvent));
    } else {
      forall id | id in rows ensures RowExplained(ClaimDb(db, c), id) { assert RowExplained(db, id); }
    }
  }

  lemma ReleaseKeepsEvidence(db: Db, w: string, id: nat)
    requires Evidence(db)
    ensures Evidence(ReleaseDb(db, w, id))
  {
    if id in db.rows {
      AppendEventKeepsEvidence(db, ReleaseDb(db, w, id).rows, EventRow(Some(id), LeaseReleasedEvent));
    }
  }

  lemma AdminKeepsEvidence(db: Db, step: Step)
    requires Evidence(db)
    requires step.AddProxy? || step.EditProxy? || step.SwitchProxy?
    ensures
      var r :=
        if step.AddProxy? then CreateDb(db, step.id, step.providerCode, step.rotationSeconds, step.rpm)
        else if step.EditProxy? then UpdateDb(db, step.id, step.patch)
        else SetEnabledDb(db, step.id, step.enabled);
      r.Ok? ==> Evidence(r.value)
  {
    match step
    case AddProxy(id, provider, rotation, rpm) =>
      var r := CreateDb(db, id, provider, rotation, rpm);
      if r.Ok? { AppendEventKeepsEvidence(db, r.value.rows, EventRow(Some(id), CreatedEvent)); }
    case EditProxy(id, patch) =>
      var r := UpdateDb(db, id, patch);
      if r.Ok? { AppendEventKeepsEvidence(db, r.value.rows, EventRow(Some(id), UpdatedEvent)); }
    case SwitchProxy(id, enabled) =>
      var r := SetEnabledDb(db, id, enabled);
      if r.Ok? {
        AppendEventKeepsEvidence(db, r.value.rows, EventRow(Some(id), if enabled then EnabledEvent else DisabledEvent));
      }
  }

  lemma StepKeepsEvidence(s: Sys, step: Step)
    requires Evidence(s.db)
    ensures Evidence(Apply(s, step).db)
  {
    hide Evidence, Begin, Enumerates, ClaimDb, Granted, ReleaseDb, RecordDb, CreateDb, UpdateDb, SetEnabledDb, RemoveDb;
    match step
    case Commit(call, minHealth) =>
      if call in s.inFlight { ClaimKeepsEvidence(s.db, s.inFlight[call].claim.(minHealthScore := minHealth)); }
    case Release(w, id) => ReleaseKeepsEvidence(s.db, w, id);
    case Health(id, sample, interval) => RecordKeepsEvidence(s.db, id, sample, s.clock, interval);
    case DropProxy(id) => RemoveKeepsEvidence(s.db, id);
    case Tick(_) =>
    case Snapshot(_, _, _, _, _, _) =>
    case Abandon(_) =>
    case _ => AdminKeepsEvidence(s.db, step);
  }

  /** In every run, every counter of every row can be recomputed from the append-only logs. */
  lemma {:induction false} CountersAreExplained(clock: int, steps: seq<Step>)
    ensures Evidence(Run(Start(clock), steps).db)
  {
    if steps == [] {
    } else {
      CountersAreExplained(clock, steps[..|steps| - 1]);
      StepKeepsEvidence(Run(Start(clock), steps[..|steps| - 1]), steps[|steps| - 1]);
    }
  }
}
