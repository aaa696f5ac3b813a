/**
  * `recordHealth` as it really interleaves: it reads the row, later updates it, later appends the sample.
  * The counters the UPDATE increments in place survive any interleaving; what it computes from the row it
  * read does not.
  */
module ConcurrentHealth {
  import opened Prelude
  import opened Quarantine
  import opened Rotation
  import opened Pool
  import opened PoolRest

  datatype Call =
    | Read(id: nat, row: Proxy, sample: Sample, now: int)
    | Written(id: nat, sample: Sample)

  /** `used` are the ids ever given out; a UUID is never given out twice. */
  datatype State = State(rows: map<nat, Proxy>, samples: seq<SampleRow>, calls: map<nat, Call>, used: set<nat>)

  datatype Step =
    | Begin(call: nat, id: nat, sample: Sample, now: int)
    | Update(call: nat, probeIntervalSeconds: int)
    | Append(call: nat)
    | Add(id: nat, row: Proxy)
    | Edit(id: nat, row: Proxy)
    | Remove(id: nat)

  function Counter(row: Proxy, ok: bool): int { if ok then row.successCount else row.failureCount }

  function Apply(s: State, step: Step): State {
    match step
    case Begin(call, id, sample, now) =>
      if call in s.calls || id !in s.rows then s
      else s.(calls := s.calls[call := Read(id, s.rows[id], sample, now)])
    case Update(call, interval) =>
      if call !in s.calls || s.calls[call].Written? then s
      else
        var c := s.calls[call];
        s.(calls := s.calls[call := Written(c.id, c.sample)],
           rows := if c.id in s.rows
                   then s.rows[c.id := WriteHealth(c.row, s.rows[c.id], c.sample, c.now, interval)]
                   else s.rows)
    case Append(call) =>
      // The insert fails on its foreign key when the proxy has been removed.
      if call !in s.calls || s.calls[call].Read? then s
      else
        var c := s.calls[call];
        s.(calls := s.calls - {call},
           samples := if c.id in s.rows then s.samples + [SampleRow(Some(c.id), c.sample)] else s.samples)
    case Add(id, row) =>
      if id in s.used || row.successCount != 0 || row.failureCount != 0 then s
      else s.(rows := s.rows[id := row], used := s.used + {id})
    case Edit(id, row) =>
      // Leases, releases and administration never write the counters.
      if id !in s.rows || row.successCount != s.rows[id].successCount
         || row.failureCount != s.rows[id].failureCount then s
      else s.(rows := s.rows[id := row])
    case Remove(id) =>
      s.(rows := s.rows - {id}, samples := ForgetSamples(s.samples, id))
  }

  function Run(s: State, steps: seq<Step>): State {
    if steps == [] then s else Apply(Run(s, steps[..|steps| - 1]), steps[|steps| - 1])
  }

  function Start(): State { State(map[], [], map[], {}) }

  /** Calls whose UPDATE has run and whose sample is still missing. */
  function Unlogged(calls: map<nat, Call>, id: nat, ok: bool): set<nat> {
    set c | c in calls && calls[c].Written? && calls[c].id == id && calls[c].sample.ok == ok
  }

  ghost predicate Balanced(s: State, id: nat, ok: bool)
    requires id in s.rows
  {
    Counter(s.rows[id], ok) == Tally(ok, SamplesOf(s.samples, id)) + |Unlogged(s.calls, id, ok)|
  }

  ghost predicate Inv(s: State) {
    && (forall id, ok :: id in s.rows ==> Balanced(s, id, ok))
    && (forall id :: id in s.rows ==> id in s.used)
    && (forall c :: c in s.calls ==> s.calls[c].id in s.used)
    && (forall x :: x in s.samples && x.proxyId.Some? ==> x.proxyId.value in s.used)
  }

  lemma UnloggedAfterUpdate(calls: map<nat, Call>, call: nat, id: nat, ok: bool)
    requires call in calls && calls[call].Read?
    ensures
      var c := calls[call];
      |Unlogged(calls[call := Written(c.id, c.sample)], id, ok)|
      == |Unlogged(calls, id, ok)| + (if c.id == id && c.sample.ok == ok then 1 else 0)
  {
    var c := calls[call];
    var open := Unlogged(calls, id, ok);
    var after := Unlogged(calls[call := Written(c.id, c.sample)], id, ok);
    assert call !in open;
    if c.id == id && c.sample.ok == ok { assert after == open + {call}; } else { assert after == open; }
  }

  lemma UnloggedAfterAppend(calls: map<nat, Call>, call: nat, id: nat, ok: bool)
    requires call in calls && calls[call].Written?
    ensures
      var c := calls[call];
      |Unlogged(calls - {call}, id, ok)| + (if c.id == id && c.sample.ok == ok then 1 else 0)
      == |Unlogged(calls, id, ok)|
  {
    var c := calls[call];
    var open := Unlogged(calls, id, ok);
    var rest := calls - {call};
    var after := Unlogged(rest, id, ok);
    assert forall k :: k in rest <==> k in calls && k != call;
    assert call !in after;
    if c.id == id && c.sample.ok == ok {
      assert call in open;
      assert after == open - {call};
    } else {
      assert call !in open;
      assert after == open;
    }
  }

  lemma UpdateCounts(read: Proxy, current: Proxy, sample: Sample, now: int, interval: int, ok: bool)
    ensures Counter(WriteHealth(read, current, sample, now, interval), ok)
         == Counter(current, ok) + (if sample.ok == ok then 1 else 0)
  {
  }

  lemma UpdateKeepsBalance(s: State, call: nat, interval: int, id: nat, ok: bool)
    requires Inv(s) && id in Apply(s, Update(call, interval)).rows
    ensures Balanced(Apply(s, Update(call, interval)), id, ok)
  {
    hide WriteHealth, Unlogged, Counter;
    if id in s.rows { assert Balanced(s, id, ok); }
    if call in s.calls && s.calls[call].Read? {
      var c := s.calls[call];
      UnloggedAfterUpdate(s.calls, call, id, ok);
      if id in s.rows { UpdateCounts(c.row, s.rows[id], c.sample, c.now, interval, ok); }
    }
  }

  lemma TallyAfter(past: seq<Sample>, sample: Sample, ok: bool)
    ensures Tally(ok, past + [sample]) == Tally(ok, past) + (if sample.ok == ok then 1 else 0)
  {
    assert (past + [sample])[..|past|] == past;
  }

  lemma AppendKeepsBalance(s: State, call: nat, id: nat, ok: bool)
    requires Inv(s) && id in s.rows
    ensures Balanced(Apply(s, Append(call)), id, ok)
  {
    hide Unlogged, Tally, Counter, SamplesOf;
    assert Balanced(s, id, ok);
    if call in s.calls && s.calls[call].Written? {
      var c := s.calls[call];
      var x := SampleRow(Some(c.id), c.sample);
      var past := SamplesOf(s.samples, id);
      UnloggedAfterAppend(s.calls, call, id, ok);
      SamplesOfAppend(s.samples, x, id);
      TallyAfter(past, x.sample, ok);
      assert past + [] == past;
    }
  }

  lemma AddKeepsBalance(s: State, added: nat, row: Proxy, id: nat, ok: bool)
    requires Inv(s) && id in Apply(s, Add(added, row)).rows
    ensures Balanced(Apply(s, Add(added, row)), id, ok)
  {
    if id in s.rows {
      assert Balanced(s, id, ok);
    } else {
      NoSamples(s.samples, id);
      assert Unlogged(s.calls, id, ok) == {};
    }
  }

  lemma RemoveKeepsBalance(s: State, gone: nat, id: nat, ok: bool)
    requires Inv(s) && id in s.rows && id != gone
    ensures Balanced(Apply(s, Remove(gone)), id, ok)
  {
    assert Balanced(s, id, ok);
    ForgetOtherSamples(s.samples, gone, id);
    hide Tally, SamplesOf, Unlogged, ForgetSamples;
  }

  lemma BeginKeepsBalance(s: State, call: nat, read: nat, sample: Sample, now: int, id: nat, ok: bool)
    requires Inv(s) && id in s.rows
    ensures Balanced(Apply(s, Begin(call, read, sample, now)), id, ok)
  {
    hide Tally, SamplesOf, Counter;
    assert Balanced(s, id, ok);
    assert Unlogged(Apply(s, Begin(call, read, sample, now)).calls, id, ok) == Unlogged(s.calls, id, ok);
  }

  lemma EditKeepsBalance(s: State, edited: nat, row: Proxy, id: nat, ok: bool)
    requires Inv(s) && id in s.rows
    ensures Balanced(Apply(s, Edit(edited, row)), id, ok)
  {
    hide Tally, SamplesOf, Unlogged;
    assert Balanced(s, id, ok);
  }

  lemma RowsAfter(s: State, step: Step, id: nat)
    requires id in Apply(s, step).rows
    ensures id in s.rows || step.Add?
    ensures step != Remove(id)
  {
    hide WriteHealth, ForgetSamples;
  }

  lemma StepKeepsBalance(s: State, step: Step, id: nat, ok: bool)
    requires Inv(s) && id in Apply(s, step).rows
    ensures Balanced(Apply(s, step), id, ok)
  {
    RowsAfter(s, step, id);
    hide Apply, Balanced, Inv;
    match step
    case Begin(call, read, sample, now) => BeginKeepsBalance(s, call, read, sample, now, id, ok);
    case Update(call, interval) => UpdateKeepsBalance(s, call, interval, id, ok);
    case Append(call) => AppendKeepsBalance(s, call, id, ok);
    case Add(added, row) => AddKeepsBalance(s, added, row, id, ok);
    case Edit(edited, row) => EditKeepsBalance(s, edited, row, id, ok);
    case Remove(gone) => RemoveKeepsBalance(s, gone, id, ok);
  }

  lemma StepKeepsInv(s: State, step: Step)
    requires Inv(s)
    ensures Inv(Apply(s, step))
  {
    var s' := Apply(s, step);
    forall id, ok | id in s'.rows ensures Balanced(s', id, ok) { StepKeepsBalance(s, step, id, ok); }
    if step.Remove? {
      forall x | x in s'.samples && x.proxyId.Some? ensures x.proxyId.value in s'.used {
        var i :| 0 <= i < |s.samples| && s'.samples[i] == x;
        assert s.samples[i] in s.samples;
      }
    }
  }

  /** However the calls interleave, a row's success and failure counts equal its logged samples plus the
      calls that have updated it and not yet logged; with none of those they match exactly. */
  lemma {:induction false} CountsSurviveInterleaving(steps: seq<Step>)
    ensures Inv(Run(Start(), steps))
    ensures
      var s := Run(Start(), steps);
      forall id, ok :: id in s.rows && Unlogged(s.calls, id, ok) == {} ==>
        Counter(s.rows[id], ok) == Tally(ok, SamplesOf(s.samples, id))
  {
    if steps == [] {
    } else {
      CountsSurviveInterleaving(steps[..|steps| - 1]);
      StepKeepsInv(Run(Start(), steps[..|steps| - 1]), steps[|steps| - 1]);
    }
    var s := Run(Start(), steps);
    forall id, ok | id in s.rows && Unlogged(s.calls, id, ok) == {}
      ensures Counter(s.rows[id], ok) == Tally(ok, SamplesOf(s.samples, id))
    {
      assert Balanced(s, id, ok);
    }
  }

  /** Whether the row rests after the write depends only on the row that was read: a rest imposed in
      between is kept exactly when the stale row was resting too, or this sample rests it itself. */
  lemma StaleWriteKeepsRestIff(read: Proxy, current: Proxy, sample: Sample, now: int, interval: int)
    requires 0 <= read.quarantineCount
    ensures
      Resting(WriteHealth(read, current, sample, now, interval), now)
      <==> PoolDecision(read, sample, now).quarantine || (Resting(read, now) && !GoodProbe(sample))
  {
    WindowClosedForm(read.quarantineCount);
    Pow2Monotone(0, Min(read.quarantineCount, 4));
  }

  /** When a write from an earlier read leaves the row explained by its evidence: exactly when the failing run
      it starts from is the current one or the sample ends it, the score it starts from leads to the same next
      score, and no offence was counted in between. */
  lemma StaleWriteExplainsIff(read: Proxy, current: Proxy, samples: seq<Sample>, offences: nat, sample: Sample,
        now: int, interval: int)
    requires Explained(current, samples, offences)
    ensures
      Explained(WriteHealth(read, current, sample, now, interval), samples + [sample],
                if PoolDecision(read, sample, now).quarantine then offences + 1 else offences)
      <==>
      && (sample.ok || read.consecutiveFailures == current.consecutiveFailures)
      && NextHealthScore(read.healthScore, sample) == NextHealthScore(current.healthScore, sample)
      && read.quarantineCount == current.quarantineCount
  {
    assert (samples + [sample])[..|samples|] == samples;
    hide PoolDecision, NextHealthScore;
  }

  /** Two calls read a fresh row; the rate limit is written and logged first, the `late` sample after it. */
  function RacingRun(late: Sample): seq<Step> {
    [Add(0, NewProxy(None, None, None)), Begin(0, 0, late, 0), Begin(1, 0, TooManyRequests(), 0),
     Update(1, 300), Append(1), Update(0, 300), Append(0)]
  }

  /** The state before the late sample is written, and the state at the end of that run. */
  lemma RacingStates(late: Sample)
    ensures
      var row := NewProxy(None, None, None);
      var rested := WriteHealth(row, row, TooManyRequests(), 0, 300);
      var first := SampleRow(Some(0), TooManyRequests());
      && Run(Start(), RacingRun(late)[..5]) == State(map[0 := rested], [first], map[0 := Read(0, row, late, 0)], {0})
      && Run(Start(), RacingRun(late))
         == State(map[0 := WriteHealth(row, rested, late, 0, 300)], [first, SampleRow(Some(0), late)], map[], {0})
  {
    hide WriteHealth;
    var x := RacingRun(late);
    assert x[..7] == x && x[..7][..6] == x[..6] && x[..6][..5] == x[..5] && x[..5][..4] == x[..4];
    assert x[..4][..3] == x[..3] && x[..3][..2] == x[..2] && x[..2][..1] == x[..1] && x[..1][..0] == [];
    var s1 := Apply(Start(), x[0]);
    assert Run(Start(), x[..1]) == s1;
    var s2 := Apply(s1, x[1]);
    assert Run(Start(), x[..2]) == s2;
    var s3 := Apply(s2, x[2]);
    assert Run(Start(), x[..3]) == s3;
    var s4 := Apply(s3, x[3]);
    assert Run(Start(), x[..4]) == s4;
    var s5 := Apply(s4, x[4]);
    assert Run(Start(), x[..5]) == s5;
    var s6 := Apply(s5, x[5]);
    assert Run(Start(), x[..6]) == s6;
    assert Run(Start(), x) == Apply(s6, x[6]);
  }

  lemma LoggedPair(first: Sample, second: Sample)
    ensures SamplesOf([SampleRow(Some(0), first), SampleRow(Some(0), second)], 0) == [first, second]
    ensures [first, second][..1] == [first]
  {
    var a, b := SampleRow(Some(0), first), SampleRow(Some(0), second);
    assert [a, b][..1] == [a] && [a][..0] == [];
    assert SamplesOf([a], 0) == [first];
  }

  lemma FoldsOfPair(first: Sample, second: Sample)
    ensures HealthFold([first, second]) == NextHealthScore(NextHealthScore(100, first), second)
    ensures TrailingFailures([first, second]) == if second.ok then 0 else if first.ok then 1 else 2
  {
    hide NextHealthScore;
    var one, two := [first], [first, second];
    assert one[..0] == [] && two[..1] == one;
    assert HealthFold(one) == NextHealthScore(100, first) && TrailingFailures(one) == if first.ok then 0 else 1;
  }

  /** A good traffic sample that read the row before a rate limit was recorded undoes the quarantine, forgets
      the offence, and leaves a score without trace of the failure. */
  lemma StaleWriteErasesRest()
    ensures
      var late := Sample(true, Traffic, None, Some(200), None, false, false);
      var rested, erased := Run(Start(), RacingRun(late)[..5]), Run(Start(), RacingRun(late));
      && 0 in rested.rows && rested.rows[0].status == Quarantined && Resting(rested.rows[0], 0)
      && rested.rows[0].quarantineCount == 1
      && 0 in erased.rows && erased.rows[0].status == Active && erased.rows[0].quarantinedUntil.None?
      && erased.rows[0].quarantineCount == 0
      && erased.rows[0].healthScore == 100 && HealthFold(SamplesOf(erased.samples, 0)) == 85
      && erased.calls == map[]
  {
    var late := Sample(true, Traffic, None, Some(200), None, false, false);
    RacingStates(late);
    LoggedPair(TooManyRequests(), late);
    FoldsOfPair(TooManyRequests(), late);
    hide HealthFold, TrailingFailures, Run, SamplesOf, RacingRun;
  }

  /** Of two rate limits recorded at once, both rest the proxy and one is lost: one offence, a failing run of
      one and the score of one failure, where the log shows two. */
  lemma StaleWriteLosesOffence()
    ensures
      var late := TooManyRequests();
      var end := Run(Start(), RacingRun(late));
      var past := SamplesOf(end.samples, 0);
      && PoolDecision(NewProxy(None, None, None), late, 0).quarantine && past == [late, late]
      && 0 in end.rows && end.rows[0].quarantineCount == 1
      && end.rows[0].consecutiveFailures == 1 && TrailingFailures(past) == 2
      && end.rows[0].healthScore == 82 && HealthFold(past) == 64
      && end.calls == map[]
  {
    var late := TooManyRequests();
    RacingStates(late);
    LoggedPair(late, late);
    FoldsOfPair(late, late);
    hide HealthFold, TrailingFailures, Run, SamplesOf, RacingRun;
  }
}
