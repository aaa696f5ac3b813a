/**
  * What one health sample means for a proxy: rest it, tighten its budget, move its score
  * (packages/proxy/src/quarantine.ts). Times are milliseconds; rest windows are whole seconds.
  */
module Quarantine {
  import opened Prelude

  datatype Source = Probe | Traffic

  datatype FailureClass =
    | Network | Timeout | Auth | Validation | SoldOut | Payment
    | Captcha | RateLimit | Schema | Budget | Capacity | Unknown

  datatype Sample = Sample(
    ok: bool,
    source: Source,
    latencyMs: Option<int>,
    httpStatus: Option<int>,
    errorClass: Option<FailureClass>,
    blockPage: bool,
    captchaSeen: bool)

  datatype Reason =
    | RateLimitedByProvider
    | ProviderBlockPage
    | RepeatedCaptchaChallenges
    | RepeatedAuthFailures
    | CaptchaObservedOnce
    | ProbeOkDuringRest
    | Healthy
    | TransientFailure

  datatype Decision = Decision(quarantine: bool, until: Option<int>, reason: Reason, multiplierPct: int)

  /** `consecutiveFailures` is whatever the caller passes; the pool passes the updated counter. */
  datatype QuarantineState = QuarantineState(
    consecutiveFailures: int,
    currentMultiplierPct: int,
    quarantineCount: int,
    restSeconds: Option<int>)

  const MIN_REST_SECONDS := 60
  const MAX_REST_SECONDS := 86_400
  const DEFAULT_REST_SECONDS := 900
  const BUDGET_FLOOR_PCT := 12
  const DEAD_AFTER_CONSECUTIVE_FAILURES := 5

  function ClampRestSeconds(restSeconds: Option<int>): int {
    var value := if restSeconds.Some? then restSeconds.value else DEFAULT_REST_SECONDS;
    Min(Max(value, MIN_REST_SECONDS), MAX_REST_SECONDS)
  }

  function RestWindowSeconds(baseSeconds: int, previousQuarantines: int): int {
    Min(baseSeconds * Pow2(Min(Max(previousQuarantines, 0), 4)), MAX_REST_SECONDS)
  }

  /** Rounding half of the budget upwards is `Math.round` on integers. */
  function TightenedBudgetPercent(currentPct: int): int {
    Max((currentPct + 1) / 2, BUDGET_FLOOR_PCT)
  }

  function RateLimited(sample: Sample): bool {
    sample.errorClass == Some(RateLimit) || sample.httpStatus == Some(429)
  }

  function AuthIsh(sample: Sample): bool {
    sample.httpStatus == Some(403) || sample.httpStatus == Some(407) || sample.errorClass == Some(Auth)
  }

  function Rest(now: int, seconds: int, reason: Reason, multiplierPct: int): Decision {
    Decision(true, Some(now + seconds * 1000), reason, multiplierPct)
  }

  /**
    * The branches in source order. The source's last branch, for a failed sample whose class is
    * RATE_LIMIT, is already covered by the first one and is therefore not repeated.
    */
  function DecideQuarantine(sample: Sample, state: QuarantineState, now: int): Decision {
    var baseRest := ClampRestSeconds(state.restSeconds);
    var next := TightenedBudgetPercent(state.currentMultiplierPct);
    var long := RestWindowSeconds(baseRest * 2, state.quarantineCount);
    if RateLimited(sample) then
      Rest(now, long, RateLimitedByProvider, next)
    else if sample.blockPage then
      Rest(now, long, ProviderBlockPage, next)
    else if sample.captchaSeen then
      if state.consecutiveFailures >= 1 then
        Rest(now, long, RepeatedCaptchaChallenges, next)
      else
        Decision(false, None, CaptchaObservedOnce, state.currentMultiplierPct)
    else if !sample.ok && AuthIsh(sample) && state.consecutiveFailures + 1 >= 3 then
      Rest(now, RestWindowSeconds(baseRest, state.quarantineCount), RepeatedAuthFailures, next)
    else
      Decision(false, None, if sample.ok then Healthy else TransientFailure, state.currentMultiplierPct)
  }

  function NextHealthScore(current: int, sample: Sample): (score: int)
    ensures 0 <= score <= 100
    ensures 0 <= current <= 100 ==> (sample.ok ==> current <= score) && (!sample.ok ==> score <= current)
  {
    var delta :=
      if sample.ok then (if sample.source == Probe then 5 else 3)
      else (if sample.source == Probe then -12 else -18);
    Min(100, Max(0, current + delta))
  }

  function ShouldMarkDead(consecutiveFailures: int, sample: Sample): bool {
    && !sample.ok
    && (AuthIsh(sample) || sample.blockPage)
    && consecutiveFailures >= DEAD_AFTER_CONSECUTIVE_FAILURES
  }

  // ------------------------------------------------------------------ properties

  /** What one sample moves the score by, as far as 0 and 100 allow. */
  lemma ScoreMovesBy(current: int, sample: Sample)
    requires 0 <= current <= 100
    ensures
      NextHealthScore(current, sample) - current ==
        match (sample.ok, sample.source)
        case (true, Probe) => Min(5, 100 - current)
        case (true, Traffic) => Min(3, 100 - current)
        case (false, Probe) => -Min(12, current)
        case (false, Traffic) => -Min(18, current)
  {
  }

  /** An administrator's rest window is kept within a minute and a day; without one it is a quarter of an hour. */
  lemma RestSecondsHeld(wish: int)
    ensures ClampRestSeconds(None) == 900
    ensures 60 <= ClampRestSeconds(Some(wish)) <= 86_400
    ensures 60 <= wish <= 86_400 ==> ClampRestSeconds(Some(wish)) == wish
    ensures wish < 60 ==> ClampRestSeconds(Some(wish)) == 60
    ensures wish > 86_400 ==> ClampRestSeconds(Some(wish)) == 86_400
  {
  }

  /** Whatever the base, the window doubles with each of the first four offences until it reaches a day. */
  lemma WindowGrowsToADay(base: int, count: nat)
    requires 60 <= base <= 86_400
    ensures RestWindowSeconds(base, 0) == base
    ensures RestWindowSeconds(base, count + 1) == if count < 4 then Min(2 * RestWindowSeconds(base, count), 86_400)
                                                  else RestWindowSeconds(base, count)
  {
    var p := Pow2(Min(count, 4));
    assert base * (2 * p) == 2 * (base * p);
  }

  /** The reason names the first signal a sample carries, in the order of the branches. */
  lemma ReasonNamesTheSignal(sample: Sample, state: QuarantineState, now: int)
    ensures
      DecideQuarantine(sample, state, now).reason ==
        if sample.errorClass == Some(RateLimit) || sample.httpStatus == Some(429) then RateLimitedByProvider
        else if sample.blockPage then ProviderBlockPage
        else if sample.captchaSeen && state.consecutiveFailures > 0 then RepeatedCaptchaChallenges
        else if sample.captchaSeen then CaptchaObservedOnce
        else if sample.ok then Healthy
        else if (sample.httpStatus in {Some(403), Some(407)} || sample.errorClass == Some(Auth))
                && state.consecutiveFailures > 1 then RepeatedAuthFailures
        else TransientFailure
  {
  }

  /** A proxy that is about to be marked dead is also put to rest, so its lease is freed. */
  lemma DeadMeansRested(sample: Sample, state: QuarantineState, now: int)
    requires ShouldMarkDead(state.consecutiveFailures, sample)
    ensures DecideQuarantine(sample, state, now).quarantine
  {
  }

  lemma {:induction false} Pow2Monotone(m: nat, n: nat)
    requires m <= n
    ensures Pow2(m) <= Pow2(n)
    decreases n
  {
    if m == n {
    } else {
      Pow2Monotone(m, n - 1);
    }
  }

  /** With the default base the daily cap never binds: the window doubles four times and then stays. */
  lemma WindowClosedForm(count: nat)
    ensures RestWindowSeconds(900, count) == 900 * Pow2(Min(count, 4)) <= 14_400
    ensures RestWindowSeconds(1800, count) == 1800 * Pow2(Min(count, 4)) <= 28_800
  {
    Pow2Monotone(Min(count, 4), 4);
    assert Pow2(4) == 16 by { assert Pow2(2) == 4; }
  }
}
