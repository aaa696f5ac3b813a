/**
  * The forward-only migration runner (packages/database/src/migrate.ts). A migration's name is the number
  * it starts with; running its SQL and recording it are one transaction, and the name is a primary key.
  */
module Migrations {
  import opened Prelude

  datatype Migration = Migration(name: nat, checksum: string)

  /** `schema_migrations`: the checksum recorded for each name. */
  type Records = map<nat, string>

  ghost predicate DistinctNames(ms: seq<Migration>) {
    forall i, j :: 0 <= i < j < |ms| ==> ms[i].name != ms[j].name
  }

  function Names(ms: seq<Migration>): seq<nat> { seq(|ms|, i requires 0 <= i < |ms| => ms[i].name) }

  /** The migrations not recorded yet, in order. */
  function Pending(ms: seq<Migration>, records: Records): seq<Migration> {
    if ms == [] then []
    else
      var m := ms[|ms| - 1];
      Pending(ms[..|ms| - 1], records) + (if m.name !in records then [m] else [])
  }

  /** The migrations recorded with another checksum. */
  function Drifted(ms: seq<Migration>, records: Records): seq<Migration> {
    if ms == [] then []
    else
      var m := ms[|ms| - 1];
      Drifted(ms[..|ms| - 1], records) + (if m.name in records && records[m.name] != m.checksum then [m] else [])
  }

  function Recorded(records: Records, ms: seq<Migration>): Records {
    if ms == [] then records
    else Recorded(records, ms[..|ms| - 1])[ms[|ms| - 1].name := ms[|ms| - 1].checksum]
  }

  function Unrecorded(records: Records): Migration -> bool { (m: Migration) => m.name !in records }

  function Changed(records: Records): Migration -> bool {
    (m: Migration) => m.name in records && records[m.name] != m.checksum
  }

  /** The two lists of a plan are those of the catalogue's migrations that are not recorded, and those that are
      recorded with another checksum, both in the catalogue's order. */
  lemma {:induction false} PlanIsFiltered(ms: seq<Migration>, records: Records)
    ensures Pending(ms, records) == Filter(Unrecorded(records), ms)
    ensures Drifted(ms, records)
         == Filter(Changed(records), ms)
  {
    if ms == [] {
    } else {
      var front, last := ms[..|ms| - 1], ms[|ms| - 1];
      PlanIsFiltered(front, records);
      FilterSnoc(Unrecorded(records), front, last);
      FilterSnoc(Changed(records), front, last);
      hide Filter;
      assert ms == front + [last];
    }
  }

  ghost predicate Ascending(s: seq<nat>) { forall i, j :: 0 <= i < j < |s| ==> s[i] < s[j] }

  datatype Outcome = Outcome(applied: seq<nat>, skipped: seq<nat>)

  datatype MigrateError = Drift(names: seq<nat>) | AlreadyRecorded(name: nat)

  class Database {
    var records: Records
    /** The migrations whose SQL has been committed, in order. */
    var executed: seq<nat>

    constructor ()
      ensures records == map[] && executed == []
    {
      records, executed := map[], [];
    }

    method ListApplied() returns (names: seq<nat>)
      ensures Ascending(names) && forall n :: n in names <==> n in records
    {
      names := [];
      var left := records.Keys;
      while left != {}
        invariant left <= records.Keys && Ascending(names)
        invariant forall n :: n in names <==> n in records && n !in left
        invariant forall a, b :: a in names && b in left ==> a < b
        decreases left
      {
        ghost var witnessed := Least(left);
        var least :| least in left && forall n :: n in left ==> least <= n;
        AscendingSnoc(names, least);
        names, left := names + [least], left - {least};
      }
    }

    method Plan(ms: seq<Migration>) returns (pending: seq<Migration>, drifted: seq<Migration>)
      ensures pending == Pending(ms, records) && drifted == Drifted(ms, records)
      ensures pending == Filter(Unrecorded(records), ms) && drifted == Filter(Changed(records), ms)
    {
      PlanIsFiltered(ms, records);
      pending, drifted := [], [];
      for i := 0 to |ms|
        invariant pending == Pending(ms[..i], records) && drifted == Drifted(ms[..i], records)
      {
        assert ms[..i + 1][..i] == ms[..i];
        if ms[i].name !in records {
          pending := pending + [ms[i]];
        } else if records[ms[i].name] != ms[i].checksum {
          drifted := drifted + [ms[i]];
        }
      }
      assert ms[..|ms|] == ms;
    }

    /** Each migration in its own transaction; a name that is already recorded stops the run. */
    method ApplyAll(pending: seq<Migration>) returns (applied: seq<nat>, clash: Option<nat>)
      modifies this
      ensures |applied| <= |pending| && applied == Names(pending[..|applied|])
      ensures records == Recorded(old(records), pending[..|applied|]) && executed == old(executed) + applied
      ensures clash.None? ==> |applied| == |pending|
      ensures clash.Some? ==>
                |applied| < |pending| && clash.value == pending[|applied|].name
                && (clash.value in old(records) || clash.value in applied)
    {
      applied := [];
      for i := 0 to |pending|
        invariant records == Recorded(old(records), pending[..i])
        invariant applied == Names(pending[..i]) && executed == old(executed) + applied
      {
        var m := pending[i];
        if m.name in records {
          RecordedKeys(old(records), pending[..i]);
          return applied, Some(m.name);
        }
        records := records[m.name := m.checksum];
        executed := executed + [m.name];
        assert pending[..i + 1][..i] == pending[..i];
        applied := applied + [m.name];
      }
      return applied, None;
    }

    method Skipped(applied: seq<nat>) returns (skipped: seq<nat>)
      ensures Ascending(skipped) && forall n :: n in skipped <==> n in records && n !in applied
    {
      var listed := ListApplied();
      skipped := [];
      for i := 0 to |listed|
        invariant Ascending(skipped)
        invariant forall n :: n in skipped <==> n in listed[..i] && n !in applied
      {
        if listed[i] !in applied {
          forall a | a in skipped ensures a < listed[i] {
            var k :| 0 <= k < i && listed[k] == a;
          }
          AscendingSnoc(skipped, listed[i]);
          skipped := skipped + [listed[i]];
        }
      }
      assert listed[..|listed|] == listed;
    }

    /** One run with nothing in between: on drift nothing happens; otherwise exactly the missing migrations
        run, in order, and everything recorded before is reported as skipped. */
    method MigrateUp(ms: seq<Migration>) returns (r: Result<Outcome, MigrateError>)
      requires DistinctNames(ms)
      modifies this
      ensures Drifted(ms, old(records)) != [] ==>
                r == Err(Drift(Names(Drifted(ms, old(records))))) && records == old(records)
                    && executed == old(executed)
      ensures Drifted(ms, old(records)) == [] ==>
                r.Ok? && records == Recorded(old(records), Pending(ms, old(records)))
                && executed == old(executed) + Names(Pending(ms, old(records)))
                && r.value.applied == Names(Pending(ms, old(records)))
                && Ascending(r.value.skipped) && forall n :: n in r.value.skipped <==> n in old(records)
      ensures r.Err? <==> exists m :: m in ms && m.name in old(records) && old(records)[m.name] != m.checksum
      ensures MigratedByColumns(ms, old(records), old(executed), r, records, executed)
    {
      DriftMeansChanged(ms, records);
      hide MigratedByColumns;
      hide Pending, Drifted, Recorded, Ascending;
      var pending, drifted := Plan(ms);
      if drifted != [] {
        RefusalReadsColumns(ms, records, executed);
        return Err(Drift(Names(drifted)));
      }
      PendingIsNew(ms, records);
      ghost var before := records;
      var applied, clash := ApplyAll(pending);
      assert clash.None? by { NoClash(pending, before, applied, clash); }
      assert pending[..|pending|] == pending;
      RecordedKeys(before, pending);
      var skipped := Skipped(applied);
      CompletionReadsColumns(ms, old(records), old(executed), skipped);
      return Ok(Outcome(applied, skipped));
    }
  }

  /** One run: a changed checksum stops it before anything happens, and all of them are named in the catalogue's
      order; otherwise exactly the migrations not recorded run in that order, each recorded with its checksum, and
      the earlier records stay. */
  ghost predicate MigratedByColumns(ms: seq<Migration>, before: Records, ran: seq<nat>,
      r: Result<Outcome, MigrateError>, after: Records, executed: seq<nat>) {
    var changed := Filter(Changed(before), ms);
    var missing := Filter(Unrecorded(before), ms);
    if changed != [] then r == Err(Drift(Names(changed))) && after == before && executed == ran
    else
      && r.Ok? && r.value.applied == Names(missing) && executed == ran + Names(missing)
      && (forall n :: n in after <==> n in before || n in Names(missing))
      && (forall n :: n in before ==> after[n] == before[n])
      && (forall m :: m in missing ==> m.name in after && after[m.name] == m.checksum)
  }

  lemma {:induction false} RecordedValues(records: Records, ms: seq<Migration>)
    requires DistinctNames(ms) && forall m :: m in ms ==> m.name !in records
    ensures forall n :: n in records ==> n in Recorded(records, ms) && Recorded(records, ms)[n] == records[n]
    ensures forall m :: m in ms ==> m.name in Recorded(records, ms) && Recorded(records, ms)[m.name] == m.checksum
  {
    if ms == [] {
    } else {
      var k := |ms| - 1;
      RecordedValues(records, ms[..k]);
      assert ms == ms[..k] + [ms[k]];
      assert ms[k] in ms;
      forall m | m in ms[..k] ensures m.name != ms[k].name {
        var i :| 0 <= i < k && ms[i] == m;
      }
    }
  }

  lemma DriftMeansChanged(ms: seq<Migration>, records: Records)
    ensures Drifted(ms, records) != [] <==> exists m :: m in ms && m.name in records && records[m.name] != m.checksum
  {
    PlanIsFiltered(ms, records);
    var changed := Drifted(ms, records);
    hide Drifted;
    if changed != [] { assert changed[0] in changed; }
  }

  lemma RefusalReadsColumns(ms: seq<Migration>, before: Records, ran: seq<nat>)
    requires Drifted(ms, before) != []
    ensures MigratedByColumns(ms, before, ran, Err(Drift(Names(Drifted(ms, before)))), before, ran)
  {
    PlanIsFiltered(ms, before);
    hide Pending, Drifted, Filter;
  }

  lemma RecordedColumns(before: Records, p: seq<Migration>)
    requires DistinctNames(p) && forall i :: 0 <= i < |p| ==> p[i].name !in before
    ensures
      var after := Recorded(before, p);
      && (forall n :: n in after <==> n in before || n in Names(p))
      && (forall n :: n in before ==> after[n] == before[n])
      && (forall m :: m in p ==> m.name in after && after[m.name] == m.checksum)
  {
    RecordedValues(before, p);
    RecordedKeys(before, p);
    hide Recorded, Names;
  }

  lemma CompletionReadsColumns(ms: seq<Migration>, before: Records, ran: seq<nat>, skipped: seq<nat>)
    requires DistinctNames(ms) && Drifted(ms, before) == []
    ensures
      var p := Pending(ms, before);
      MigratedByColumns(ms, before, ran, Ok(Outcome(Names(p), skipped)), Recorded(before, p), ran + Names(p))
  {
    hide Pending, Drifted, Recorded, Filter, Names, DistinctNames, Changed, Unrecorded;
    PendingIsNew(ms, before);
    RecordedColumns(before, Pending(ms, before));
    PlanIsFiltered(ms, before);
  }

  lemma Least(s: set<nat>) returns (m: nat)
    requires s != {}
    ensures m in s && forall n :: n in s ==> m <= n
  {
    m :| m in s;
    var rest := s - {m};
    assert forall n :: n in s ==> n == m || n in rest;
    if rest != {} {
      var y := Least(rest);
      if y < m { m := y; }
    }
  }

  lemma AscendingSnoc(s: seq<nat>, x: nat)
    requires Ascending(s) && forall a :: a in s ==> a < x
    ensures Ascending(s + [x])
  {
    forall i, j | 0 <= i < j < |s| + 1 ensures (s + [x])[i] < (s + [x])[j] {
      assert (s + [x])[i] == s[i] && s[i] in s;
    }
  }

  /** Nothing pending is recorded, and no name is pending twice. */
  lemma {:induction false} PendingIsNew(ms: seq<Migration>, records: Records)
    requires DistinctNames(ms)
    ensures DistinctNames(Pending(ms, records))
    ensures forall i :: 0 <= i < |Pending(ms, records)| ==> Pending(ms, records)[i].name !in records
    ensures forall m :: m in Pending(ms, records) ==> m in ms
  {
    if ms == [] {
    } else {
      var k := |ms| - 1;
      PendingIsNew(ms[..k], records);
      var p := Pending(ms[..k], records);
      forall i | 0 <= i < |p| ensures p[i].name != ms[k].name {
        assert p[i] in p && p[i] in ms[..k];
      }
    }
  }

  lemma NoClash(pending: seq<Migration>, before: Records, applied: seq<nat>, clash: Option<nat>)
    requires DistinctNames(pending) && forall i :: 0 <= i < |pending| ==> pending[i].name !in before
    requires |applied| <= |pending| && applied == Names(pending[..|applied|])
    requires clash.Some? ==>
               |applied| < |pending| && clash.value == pending[|applied|].name
                   && (clash.value in before || clash.value in applied)
    ensures clash.None?
  {
    assert forall i :: 0 <= i < |applied| ==> applied[i] == pending[i].name;
  }

  lemma {:induction false} RecordedKeys(records: Records, ms: seq<Migration>)
    ensures forall n :: n in Recorded(records, ms) <==> n in records || n in Names(ms)
  {
    if ms == [] {
    } else {
      var k := |ms| - 1;
      RecordedKeys(records, ms[..k]);
      assert Names(ms) == Names(ms[..k]) + [ms[k].name];
    }
  }

  // ------------------------------------------------------------------ many runners

  datatype Runner =
    | Planned(pending: seq<Migration>, skipLock: bool)
    | Running(pending: seq<Migration>, next: nat, skipLock: bool)
    | Finished
    | Broken

  datatype State = State(records: Records, executed: seq<nat>, lock: Option<nat>, runners: map<nat, Runner>)

  datatype Step =
    | PlanStep(runner: nat, skipLock: bool)
    | LockStep(runner: nat)
    | ApplyStep(runner: nat)
    | FinishStep(runner: nat)
    | CrashStep(runner: nat)

  function Unlock(lock: Option<nat>, runner: nat): Option<nat> { if lock == Some(runner) then None else lock }

  /** Plans are made before the lock is taken, so they may be stale; a crash releases the session lock. */
  function Apply(ms: seq<Migration>, s: State, step: Step): State {
    var id := step.runner;
    if step.CrashStep? then s.(runners := s.runners - {id}, lock := Unlock(s.lock, id))
    else if step.PlanStep? then
      if id in s.runners && !s.runners[id].Finished? && !s.runners[id].Broken? then s
      else if Drifted(ms, s.records) != [] then s.(runners := s.runners[id := Broken])
      else s.(runners := s.runners[id := Planned(Pending(ms, s.records), step.skipLock)])
    else if id !in s.runners then s
    else
      var r := s.runners[id];
      if step.LockStep? then
        if !r.Planned? then s
        else if r.skipLock then s.(runners := s.runners[id := Running(r.pending, 0, true)])
        else if s.lock.None? then s.(runners := s.runners[id := Running(r.pending, 0, false)], lock := Some(id))
        else s
      else if !r.Running? then s
      else if step.FinishStep? then
        if r.next < |r.pending| then s else s.(runners := s.runners[id := Finished], lock := Unlock(s.lock, id))
      else if r.next >= |r.pending| then s
      else
        var m := r.pending[r.next];
        if m.name in s.records then s.(runners := s.runners[id := Broken], lock := Unlock(s.lock, id))
        else State(s.records[m.name := m.checksum], s.executed + [m.name], s.lock,
                   s.runners[id := Running(r.pending, r.next + 1, r.skipLock)])
  }

  /** A runner that plans over a table with a changed checksum is broken at once and touches nothing else; over any
      other it plans the migrations not recorded. */
  lemma PlannerBreaksIffChanged(ms: seq<Migration>, s: State, runner: nat, skipLock: bool)
    requires runner !in s.runners
    ensures
      var after := Apply(ms, s, PlanStep(runner, skipLock));
      && after.records == s.records && after.executed == s.executed && after.lock == s.lock
      && runner in after.runners
      && (after.runners[runner] == Broken <==>
          exists m :: m in ms && m.name in s.records && s.records[m.name] != m.checksum)
      && (after.runners[runner] != Broken ==>
          after.runners[runner] == Planned(Filter(Unrecorded(s.records), ms), skipLock))
  {
    PlanIsFiltered(ms, s.records);
    var changed := Drifted(ms, s.records);
    hide Pending, Drifted;
    if changed != [] { assert changed[0] in changed; }
  }

  function Run(ms: seq<Migration>, s: State, steps: seq<Step>): State {
    if steps == [] then s else Apply(ms, Run(ms, s, steps[..|steps| - 1]), steps[|steps| - 1])
  }

  function Fresh(): State { State(map[], [], None, map[]) }

  /** Exactly the first `n` migrations have been executed and recorded, each once. */
  ghost predicate Prefix(ms: seq<Migration>, records: Records, executed: seq<nat>, n: nat) {
    n <= |ms| && executed == Names(ms[..n]) && records == Recorded(map[], ms[..n])
  }

  ghost function Todo(r: Runner): seq<Migration> {
    if r.Planned? || r.Running? then r.pending else []
  }

  /** A runner's list is a tail of the migrations that starts no later than the progress made, and what it
      has done is part of that progress. */
  ghost predicate RunnerOk(ms: seq<Migration>, n: nat, r: Runner) {
    && |Todo(r)| <= |ms| && Todo(r) == ms[|ms| - |Todo(r)|..]
    && (r.Planned? || r.Running? ==> |ms| - |Todo(r)| <= n)
    && (r.Running? ==> r.next <= |r.pending| && |ms| - |Todo(r)| + r.next <= n)
  }

  ghost predicate Inv(ms: seq<Migration>, s: State) {
    && Prefix(ms, s.records, s.executed, |s.executed|)
    && (forall id :: id in s.runners ==> RunnerOk(ms, |s.executed|, s.runners[id]))
    && (forall id :: id in s.runners && s.runners[id].Running? && !s.runners[id].skipLock ==> s.lock == Some(id))
  }

  lemma RecordedPrefixKeys(ms: seq<Migration>, n: nat)
    requires DistinctNames(ms) && n <= |ms|
    ensures forall i :: 0 <= i < |ms| ==> (ms[i].name in Recorded(map[], ms[..n]) <==> i < n)
  {
    RecordedKeys(map[], ms[..n]);
    forall i | 0 <= i < |ms| ensures ms[i].name in Names(ms[..n]) <==> i < n {
      if i < n { assert Names(ms[..n])[i] == ms[i].name; }
    }
  }

  lemma {:induction false} RecordedPrefixValues(ms: seq<Migration>, n: nat, i: nat)
    requires DistinctNames(ms) && i < n <= |ms|
    ensures ms[i].name in Recorded(map[], ms[..n]) && Recorded(map[], ms[..n])[ms[i].name] == ms[i].checksum
  {
    assert ms[..n][..n - 1] == ms[..n - 1];
    if i < n - 1 { RecordedPrefixValues(ms, n - 1, i); }
  }

  /** Exactly the first n are recorded, with their own checksums. */
  ghost predicate RecordsPrefix(ms: seq<Migration>, records: Records, n: nat) {
    forall i | 0 <= i < |ms| ::
      (ms[i].name in records <==> i < n) && (i < n ==> records[ms[i].name] == ms[i].checksum)
  }

  lemma {:induction false} PendingTail(ms: seq<Migration>, records: Records, n: nat, k: nat)
    requires RecordsPrefix(ms, records, n) && n <= |ms| && k <= |ms|
    ensures Pending(ms[..k], records) == ms[Min(n, k)..k]
  {
    if k == 0 {
    } else {
      assert ms[k - 1].name in records <==> k - 1 < n;
      hide RecordsPrefix;
      PendingTail(ms, records, n, k - 1);
      PendingSnoc(ms, records, k);
      hide Pending;
      if k - 1 < n { assert ms[Min(n, k)..k] == []; } else { SliceSnoc(ms, n, k); }
    }
  }

  lemma SliceSnoc<T>(s: seq<T>, n: nat, k: nat)
    requires n < k <= |s|
    ensures s[n..k] == s[n..k - 1] + [s[k - 1]]
  {
  }

  lemma PendingSnoc(ms: seq<Migration>, records: Records, k: nat)
    requires 0 < k <= |ms|
    ensures Pending(ms[..k], records)
         == Pending(ms[..k - 1], records) + (if ms[k - 1].name !in records then [ms[k - 1]] else [])
  {
    var head := ms[..k];
    assert head[..|head| - 1] == ms[..k - 1] && head[|head| - 1] == ms[k - 1];
  }

  lemma {:induction false} NothingDrifted(ms: seq<Migration>, records: Records, n: nat, k: nat)
    requires RecordsPrefix(ms, records, n) && n <= |ms| && k <= |ms|
    ensures Drifted(ms[..k], records) == []
  {
    if k == 0 {
    } else {
      assert ms[..k][..k - 1] == ms[..k - 1] && ms[..k][k - 1] == ms[k - 1];
      NothingDrifted(ms, records, n, k - 1);
    }
  }

  lemma PendingAfterPrefix(ms: seq<Migration>, n: nat)
    requires DistinctNames(ms) && n <= |ms|
    ensures Pending(ms, Recorded(map[], ms[..n])) == ms[n..]
    ensures Drifted(ms, Recorded(map[], ms[..n])) == []
  {
    RecordedPrefixKeys(ms, n);
    var records := Recorded(map[], ms[..n]);
    assert RecordsPrefix(ms, records, n) by {
      forall i | 0 <= i < n ensures ms[i].name in records && records[ms[i].name] == ms[i].checksum {
        RecordedPrefixValues(ms, n, i);
      }
    }
    hide Recorded, Pending, Drifted, RecordsPrefix, DistinctNames;
    PendingTail(ms, records, n, |ms|);
    NothingDrifted(ms, records, n, |ms|);
    assert ms[..|ms|] == ms && ms[n..|ms|] == ms[n..];
  }

  /** Where in the list of all migrations the runner's next one is. */
  function Position(ms: seq<Migration>, r: Runner): int
    requires r.Running?
  {
    |ms| - |r.pending| + r.next
  }

  lemma NextIsAtPosition(ms: seq<Migration>, n: nat, r: Runner)
    requires RunnerOk(ms, n, r) && r.Running? && r.next < |r.pending|
    ensures 0 <= Position(ms, r) <= n && Position(ms, r) < |ms| && r.pending[r.next] == ms[Position(ms, r)]
  {
  }

  /** A running migration succeeds exactly when it is the next one due; a stale runner breaks instead of
      running anything twice. */
  lemma ApplySucceedsIffNext(ms: seq<Migration>, s: State, id: nat)
    requires DistinctNames(ms) && Inv(ms, s)
    requires id in s.runners && s.runners[id].Running? && s.runners[id].next < |s.runners[id].pending|
    ensures
      var r := s.runners[id];
      var after := Apply(ms, s, ApplyStep(id));
      var m := r.pending[r.next];
      after ==
        if Position(ms, r) == |s.executed| then
          State(s.records[m.name := m.checksum], s.executed + [m.name], s.lock,
                s.runners[id := Running(r.pending, r.next + 1, r.skipLock)])
        else s.(runners := s.runners[id := Broken], lock := Unlock(s.lock, id))
  {
    hide Recorded, Names, DistinctNames, RunnerOk;
    var r := s.runners[id];
    NextIsAtPosition(ms, |s.executed|, r);
    RecordedPrefixKeys(ms, |s.executed|);
    var position := Position(ms, r);
    hide Position;
    assert ms[position].name in s.records <==> position < |s.executed|;
  }

  lemma RunnersLater(ms: seq<Migration>, s: State, n: nat)
    requires Inv(ms, s) && |s.executed| <= n
    ensures forall id :: id in s.runners ==> RunnerOk(ms, n, s.runners[id])
  {
    forall id | id in s.runners ensures RunnerOk(ms, n, s.runners[id]) {
      assert RunnerOk(ms, |s.executed|, s.runners[id]);
    }
  }

  lemma PrefixGrows(ms: seq<Migration>, records: Records, executed: seq<nat>, n: nat)
    requires Prefix(ms, records, executed, n) && n < |ms|
    ensures Prefix(ms, records[ms[n].name := ms[n].checksum], executed + [ms[n].name], n + 1)
  {
    assert ms[..n + 1][..n] == ms[..n];
    assert Names(ms[..n + 1]) == Names(ms[..n]) + [ms[n].name];
  }

  /** Replacing one runner by one that fits the progress, with its lock released if it no longer runs. */
  lemma RunnerReplaced(ms: seq<Migration>, s: State, s': State, id: nat)
    requires Prefix(ms, s'.records, s'.executed, |s'.executed|)
    requires forall k :: k in s.runners ==> RunnerOk(ms, |s'.executed|, s.runners[k])
    requires forall k :: k in s.runners && s.runners[k].Running? && !s.runners[k].skipLock ==> s.lock == Some(k)
    requires id in s'.runners && RunnerOk(ms, |s'.executed|, s'.runners[id])
        && s'.runners == s.runners[id := s'.runners[id]]
    requires s'.lock == s.lock || (s'.lock == Unlock(s.lock, id) && !s'.runners[id].Running?)
    requires s'.runners[id].Running? && !s'.runners[id].skipLock ==> s'.lock == Some(id)
    ensures Inv(ms, s')
  {
    hide Prefix, RunnerOk;
  }

  lemma RunnerAdvances(ms: seq<Migration>, n: nat, r: Runner)
    requires RunnerOk(ms, n, r) && r.Running? && r.next < |r.pending| && Position(ms, r) == n
    ensures RunnerOk(ms, n + 1, Running(r.pending, r.next + 1, r.skipLock)) && n < |ms| && r.pending[r.next] == ms[n]
  {
  }

  lemma BrokenIsOk(ms: seq<Migration>, n: nat)
    ensures RunnerOk(ms, n, Broken)
  {
  }

  predicate CanApply(s: State, id: nat) {
    id in s.runners && s.runners[id].Running? && s.runners[id].next < |s.runners[id].pending|
  }

  lemma IdleApply(ms: seq<Migration>, s: State, id: nat)
    requires !CanApply(s, id)
    ensures Apply(ms, s, ApplyStep(id)) == s
  {
  }

  lemma LockHolders(ms: seq<Migration>, s: State)
    requires Inv(ms, s)
    ensures Prefix(ms, s.records, s.executed, |s.executed|)
    ensures forall k :: k in s.runners && s.runners[k].Running? && !s.runners[k].skipLock ==> s.lock == Some(k)
  {
    hide Prefix, RunnerOk;
  }

  lemma AdvanceKeepsInv(ms: seq<Migration>, s: State, s': State, id: nat, n: nat)
    requires Inv(ms, s) && CanApply(s, id) && n == |s.executed| && Position(ms, s.runners[id]) == n < |ms|
    requires s' == State(s.records[ms[n].name := ms[n].checksum], s.executed + [ms[n].name], s.lock,
                         s.runners[id := s.runners[id].(next := s.runners[id].next + 1)])
    ensures Inv(ms, s')
  {
    hide Inv, RunnerOk, Prefix, Position, Unlock;
    var r := s.runners[id];
    LockHolders(ms, s);
    assert RunnerOk(ms, n, r) by { RunnersLater(ms, s, n); }
    RunnerAdvances(ms, n, r);
    PrefixGrows(ms, s.records, s.executed, n);
    RunnersLater(ms, s, n + 1);
    assert |s'.executed| == n + 1 && s'.runners[id] == Running(r.pending, r.next + 1, r.skipLock);
    RunnerReplaced(ms, s, s', id);
  }

  lemma BreakKeepsInv(ms: seq<Migration>, s: State, id: nat)
    requires Inv(ms, s) && CanApply(s, id)
    ensures Inv(ms, s.(runners := s.runners[id := Broken], lock := Unlock(s.lock, id)))
  {
    LockHolders(ms, s);
    RunnersLater(ms, s, |s.executed|);
    BrokenIsOk(ms, |s.executed|);
    hide Inv, RunnerOk, Prefix;
    RunnerReplaced(ms, s, s.(runners := s.runners[id := Broken], lock := Unlock(s.lock, id)), id);
  }

  lemma ApplyKeepsInv(ms: seq<Migration>, s: State, id: nat)
    requires DistinctNames(ms) && Inv(ms, s)
    ensures Inv(ms, Apply(ms, s, ApplyStep(id)))
  {
    if !CanApply(s, id) {
      IdleApply(ms, s, id);
    } else {
      ApplySucceedsIffNext(ms, s, id);
      RunnersLater(ms, s, |s.executed|);
      NextIsAtPosition(ms, |s.executed|, s.runners[id]);
      hide Inv, Apply, RunnerOk, Prefix, DistinctNames, Position, Unlock;
      if Position(ms, s.runners[id]) == |s.executed| {
        AdvanceKeepsInv(ms, s, Apply(ms, s, ApplyStep(id)), id, |s.executed|);
      } else {
        BreakKeepsInv(ms, s, id);
      }
    }
  }

  lemma PlanOutcome(ms: seq<Migration>, s: State, id: nat, skipLock: bool)
    requires DistinctNames(ms) && Inv(ms, s)
    ensures
      var n := |s.executed|;
      n <= |ms|
      && (|| Apply(ms, s, PlanStep(id, skipLock)) == s
          || Apply(ms, s, PlanStep(id, skipLock)) == s.(runners := s.runners[id := Planned(ms[n..], skipLock)]))
  {
    PendingAfterPrefix(ms, |s.executed|);
    hide Pending, Drifted, Recorded, RunnerOk, DistinctNames;
  }

  lemma PlanKeepsInv(ms: seq<Migration>, s: State, id: nat, skipLock: bool)
    requires DistinctNames(ms) && Inv(ms, s)
    ensures Inv(ms, Apply(ms, s, PlanStep(id, skipLock)))
  {
    var n := |s.executed|;
    PlanOutcome(ms, s, id, skipLock);
    assert RunnerOk(ms, n, Planned(ms[n..], skipLock));
    hide Inv, Apply, RunnerOk, Prefix, DistinctNames;
    LockHolders(ms, s);
    RunnersLater(ms, s, n);
    var s' := Apply(ms, s, PlanStep(id, skipLock));
    if s' != s { RunnerReplaced(ms, s, s', id); }
  }

  lemma LockKeepsInv(ms: seq<Migration>, s: State, id: nat)
    requires Inv(ms, s)
    ensures Inv(ms, Apply(ms, s, LockStep(id)))
  {
    if id in s.runners && s.runners[id].Planned? {
      var r := s.runners[id];
      assert RunnerOk(ms, |s.executed|, r);
      assert RunnerOk(ms, |s.executed|, Running(r.pending, 0, r.skipLock));
    }
    hide Prefix, RunnerOk;
  }

  lemma LeaveKeepsInv(ms: seq<Migration>, s: State, step: Step)
    requires Inv(ms, s) && (step.FinishStep? || step.CrashStep?)
    ensures Inv(ms, Apply(ms, s, step))
  {
    assert RunnerOk(ms, |s.executed|, Finished);
    hide Prefix, RunnerOk;
  }

  lemma StepKeepsInv(ms: seq<Migration>, s: State, step: Step)
    requires DistinctNames(ms) && Inv(ms, s)
    ensures Inv(ms, Apply(ms, s, step))
  {
    hide Apply, Inv;
    match step
    case ApplyStep(id) => ApplyKeepsInv(ms, s, id);
    case PlanStep(id, skipLock) => PlanKeepsInv(ms, s, id, skipLock);
    case LockStep(id) => LockKeepsInv(ms, s, id);
    case FinishStep(_) => LeaveKeepsInv(ms, s, step);
    case CrashStep(_) => LeaveKeepsInv(ms, s, step);
  }

  /** However many runners, however stale their plans, with or without the lock and with crashes at any
      point: what has run is always the first n migrations, each exactly once and recorded. */
  lemma {:induction false} AppliedIsAPrefix(ms: seq<Migration>, steps: seq<Step>)
    requires DistinctNames(ms)
    ensures Inv(ms, Run(ms, Fresh(), steps))
    ensures
      var s := Run(ms, Fresh(), steps);
      Prefix(ms, s.records, s.executed, |s.executed|) && NoDuplicates(s.executed)
  {
    if steps == [] {
    } else {
      AppliedIsAPrefix(ms, steps[..|steps| - 1]);
      StepKeepsInv(ms, Run(ms, Fresh(), steps[..|steps| - 1]), steps[|steps| - 1]);
    }
    var s := Run(ms, Fresh(), steps);
    var n := |s.executed|;
    assert forall i :: 0 <= i < n ==> s.executed[i] == ms[i].name;
  }

  lemma RunSnoc(ms: seq<Migration>, steps: seq<Step>, step: Step)
    ensures Run(ms, Fresh(), steps + [step]) == Apply(ms, Run(ms, Fresh(), steps), step)
  {
    assert (steps + [step])[..|steps|] == steps;
  }

  /** Two runners plan, the first applies a migration and crashes, the second then takes the free lock with its
      stale plan. */
  function StalePlan(): seq<Step> {
    [PlanStep(0, false)] + [PlanStep(1, false)] + [LockStep(0)] + [ApplyStep(0)] + [CrashStep(0)] + [LockStep(1)]
  }

  lemma {:induction false} NothingRecorded(ms: seq<Migration>)
    ensures Pending(ms, map[]) == ms && Drifted(ms, map[]) == []
  {
    if ms == [] {
    } else {
      var n := |ms| - 1;
      NothingRecorded(ms[..n]);
      TakeAndLast(ms);
      assert Pending(ms, map[]) == Pending(ms[..n], map[]) + [ms[n]];
    }
  }

  lemma TakeAndLast(ms: seq<Migration>)
    requires ms != []
    ensures ms == ms[..|ms| - 1] + [ms[|ms| - 1]]
  {
  }

  lemma StalePlanState(ms: seq<Migration>)
    requires ms != []
    ensures
      var s := Run(ms, Fresh(), StalePlan());
      1 in s.runners && s.runners[1] == Running(ms, 0, false) && ms[0].name in s.records && s.lock == Some(1)
  {
    NothingRecorded(ms);
    hide Run, Pending, Drifted;
    assert Run(ms, Fresh(), []) == Fresh() by { RunNothing(ms); }
    var a, b, c := [PlanStep(0, false)], [PlanStep(1, false)], [LockStep(0)];
    assert [] + a == a;
    RunSnoc(ms, [], a[0]);
    RunSnoc(ms, a, b[0]);
    RunSnoc(ms, a + b, c[0]);
    RunSnoc(ms, a + b + c, ApplyStep(0));
    RunSnoc(ms, a + b + c + [ApplyStep(0)], CrashStep(0));
    RunSnoc(ms, a + b + c + [ApplyStep(0)] + [CrashStep(0)], LockStep(1));
  }

  lemma RunNothing(ms: seq<Migration>)
    ensures Run(ms, Fresh(), []) == Fresh()
  {
  }

  /** For every catalogue there is a run in which a runner that holds the lock fails on a name another runner
      recorded after its plan was made; it stops without running anything. */
  lemma StaleRunnerBreaks(ms: seq<Migration>)
    requires ms != []
    ensures
      var s, s' := Run(ms, Fresh(), StalePlan()), Run(ms, Fresh(), StalePlan() + [ApplyStep(1)]);
      && 1 in s.runners && s.runners[1].Running? && s.lock == Some(1)
      && 1 in s'.runners && s'.runners[1] == Broken && s'.lock == None
      && s'.executed == s.executed && s'.records == s.records
  {
    StalePlanState(ms);
    hide Run, StalePlan;
    RunSnoc(ms, StalePlan(), ApplyStep(1));
  }

  /** The session lock excludes: of the runners that take it at most one is between lock and unlock. */
  lemma LockExcludes(ms: seq<Migration>, steps: seq<Step>, a: nat, b: nat)
    requires DistinctNames(ms)
    requires
      var rs := Run(ms, Fresh(), steps).runners;
      a in rs && b in rs && rs[a].Running? && rs[b].Running? && !rs[a].skipLock && !rs[b].skipLock
    ensures a == b
  {
    AppliedIsAPrefix(ms, steps);
  }

  /** From any such state one undisturbed run applies exactly the rest, and another finds nothing to do. */
  method RecoverAndRepeat(ms: seq<Migration>, db: Database, ghost n: nat) returns (first: Outcome, second: Outcome)
    requires DistinctNames(ms) && Prefix(ms, db.records, db.executed, n)
    modifies db
    ensures db.executed == Names(ms) && Prefix(ms, db.records, db.executed, |ms|)
    ensures first.applied == Names(ms[n..]) && second.applied == []
  {
    hide Pending, Drifted, Recorded, Ascending;
    PendingAfterPrefix(ms, n);
    var r := db.MigrateUp(ms);
    first := r.value;
    RecordedAppend(map[], ms[..n], ms[n..]);
    assert ms[..n] + ms[n..] == ms == ms[..|ms|];
    assert Names(ms) == Names(ms[..n]) + Names(ms[n..]);
    PendingAfterPrefix(ms, |ms|);
    assert ms[|ms|..] == [] && Names([]) == [];
    assert db.executed + [] == db.executed;
    RecordedNothing(db.records);
    r := db.MigrateUp(ms);
    second := r.value;
  }

  lemma RecordedNothing(records: Records)
    ensures Recorded(records, []) == records
  {
  }

  lemma {:induction false} RecordedAppend(records: Records, a: seq<Migration>, b: seq<Migration>)
    ensures Recorded(records, a + b) == Recorded(Recorded(records, a), b)
  {
    if b == [] {
      assert a + b == a;
    } else {
      RecordedAppend(records, a, b[..|b| - 1]);
      assert (a + b)[..|a + b| - 1] == a + b[..|b| - 1];
    }
  }

  // ------------------------------------------------------------------ the lock over pooled sessions

  /** Which session of the pool each runner locks and unlocks on, and whether one may be closed while idle. */
  datatype Pooling = Pooling(locksOn: nat -> nat, unlocksOn: nat -> nat, closesIdle: bool)

  /** The session that holds the advisory lock, how many times it took it, and the runners at work under it. */
  datatype Lock = Lock(holder: Option<nat>, depth: nat, inside: set<nat>)

  datatype LockEvent =
    | Enter(runner: nat)
    | Leave(runner: nat)
    | Close(session: nat)

  /** A session that holds the lock takes it once more; unlocking on a session that does not hold it does
      nothing; a closed session loses it. */
  function AfterEvent(p: Pooling, l: Lock, e: LockEvent): Lock {
    match e
    case Enter(r) =>
      if r in l.inside || (l.holder.Some? && l.holder != Some(p.locksOn(r))) then l
      else Lock(Some(p.locksOn(r)), l.depth + 1, l.inside + {r})
    case Leave(r) =>
      if r !in l.inside then l
      else if l.holder != Some(p.unlocksOn(r)) then l.(inside := l.inside - {r})
      else if l.depth <= 1 then Lock(None, 0, l.inside - {r})
      else Lock(l.holder, l.depth - 1, l.inside - {r})
    case Close(session) => if p.closesIdle && l.holder == Some(session) then l.(holder := None, depth := 0) else l
  }

  function AfterEvents(p: Pooling, events: seq<LockEvent>): Lock {
    if events == [] then Lock(None, 0, {})
    else AfterEvent(p, AfterEvents(p, events[..|events| - 1]), events[|events| - 1])
  }

  ghost predicate OwnSessions(p: Pooling) { forall a, b :: p.locksOn(a) == p.locksOn(b) ==> a == b }

  ghost predicate Excludes(p: Pooling) {
    forall events, a, b :: a in AfterEvents(p, events).inside && b in AfterEvents(p, events).inside ==> a == b
  }

  lemma {:induction false} InsideHolds(p: Pooling, events: seq<LockEvent>, r: nat)
    requires OwnSessions(p) && !p.closesIdle && r in AfterEvents(p, events).inside
    ensures AfterEvents(p, events).holder == Some(p.locksOn(r)) && AfterEvents(p, events).inside == {r}
  {
    if events == [] {
    } else {
      var n := |events| - 1;
      var before := AfterEvents(p, events[..n]);
      if r in before.inside { InsideHolds(p, events[..n], r); }
      if k :| k in before.inside { InsideHolds(p, events[..n], k); }
    }
  }

  /** The lock keeps runners apart in every run if and only if no two of them lock on one session and the pool
      closes no idle one. */
  lemma LockExcludesIff(p: Pooling)
    ensures Excludes(p) <==> OwnSessions(p) && !p.closesIdle
  {
    if OwnSessions(p) && !p.closesIdle {
      forall events, a, b | a in AfterEvents(p, events).inside && b in AfterEvents(p, events).inside ensures a == b {
        InsideHolds(p, events, a);
      }
    } else if a, b :| p.locksOn(a) == p.locksOn(b) && a != b {
      TwoInside(p, [Enter(a)], a, b);
    } else {
      TwoEvents(p, Enter(0), Close(p.locksOn(0)));
      TwoInside(p, [Enter(0), Close(p.locksOn(0))], 0, 1);
    }
  }

  lemma TwoEvents(p: Pooling, first: LockEvent, second: LockEvent)
    ensures AfterEvents(p, [first]) == AfterEvent(p, Lock(None, 0, {}), first)
    ensures AfterEvents(p, [first, second]) == AfterEvent(p, AfterEvents(p, [first]), second)
  {
    assert [first][..0] == [] && [first, second][..1] == [first];
  }

  lemma TwoInside(p: Pooling, first: seq<LockEvent>, a: nat, b: nat)
    requires a in AfterEvents(p, first).inside && b !in AfterEvents(p, first).inside
    requires AfterEvents(p, first).holder in {None, Some(p.locksOn(b))}
    ensures !Excludes(p)
  {
    var events := first + [Enter(b)];
    assert events[..|first|] == first;
    assert a in AfterEvents(p, events).inside && b in AfterEvents(p, events).inside && a != b;
  }

  /** No runner is at work and the lock is free, or one is and its session holds the lock once. */
  ghost predicate Returned(p: Pooling, l: Lock) {
    l == Lock(None, 0, {}) || exists r :: l == Lock(Some(p.locksOn(r)), 1, {r})
  }

  lemma {:induction false} OwnUnlockReturns(p: Pooling, events: seq<LockEvent>)
    requires OwnSessions(p) && !p.closesIdle && forall r :: p.unlocksOn(r) == p.locksOn(r)
    ensures Returned(p, AfterEvents(p, events))
  {
    if events == [] {
    } else {
      var n := |events| - 1;
      OwnUnlockReturns(p, events[..n]);
      var before := AfterEvents(p, events[..n]);
      if r :| before == Lock(Some(p.locksOn(r)), 1, {r}) {
        assert before.inside - {r} == {};
      } else if events[n].Enter? {
        assert {} + {events[n].runner} == {events[n].runner};
      }
    }
  }

  /** And the lock is free whenever no runner is at work if and only if each unlocks the session it locked. */
  lemma LockIsReturnedIff(p: Pooling)
    requires OwnSessions(p) && !p.closesIdle
    ensures
      (forall events :: AfterEvents(p, events).inside == {} ==> AfterEvents(p, events).holder.None?)
      <==> forall r :: p.unlocksOn(r) == p.locksOn(r)
  {
    if forall r :: p.unlocksOn(r) == p.locksOn(r) {
      forall events | AfterEvents(p, events).inside == {} ensures AfterEvents(p, events).holder.None? {
        OwnUnlockReturns(p, events);
      }
    } else {
      var r :| p.unlocksOn(r) != p.locksOn(r);
      TwoEvents(p, Enter(r), Leave(r));
      assert AfterEvents(p, [Enter(r), Leave(r)]).inside == {};
    }
  }
}
