/**
  * The claiming transaction of `acquire` as its two statements, with other transactions committing in between.
  * The first frees the worker's other rows as it sees them and keeps them locked; the second takes the chosen
  * row, and the unique index refuses it when by then the worker has a row that the first did not see.
  */
module ConcurrentClaims {
  import opened Prelude
  import opened Rotation
  import opened Pool
  import opened PoolRuns

  type Rows = map<nat, Proxy>

  predicate Holds(rows: Rows, id: nat, workerId: string) {
    id in rows && rows[id].assignedWorkerId == Some(workerId)
  }

  /** The rows the first statement frees, and locks until the transaction ends. */
  predicate FreedBy(seen: Rows, c: Claim, id: nat) { id != c.choice.id && Holds(seen, id, c.workerId) }

  ghost predicate LocksHeld(seen: Rows, current: Rows, c: Claim) {
    forall id :: FreedBy(seen, c, id) ==> id in current && current[id] == seen[id]
  }

  /** The rows when the second statement runs: `current`, but for what the first one freed. */
  function AfterFreeing(seen: Rows, current: Rows, c: Claim): Rows {
    map id | id in current :: if FreedBy(seen, c, id) then Freed(current[id]) else current[id]
  }

  /** The other rows of the worker that the index finds when the chosen one is taken. */
  function Clashing(rows: Rows, c: Claim): set<nat> {
    set id | id in rows && id != c.choice.id && Holds(rows, id, c.workerId)
  }

  /** The transaction: `None` when the index refuses it, and then none of its changes stays. */
  function SplitClaim(seen: Rows, current: Rows, c: Claim): Option<Rows> {
    var rows := AfterFreeing(seen, current, c);
    if !Granted(rows, c) then Some(rows)
    else if Clashing(rows, c) != {} then None
    else Some(rows[c.choice.id := Taken(rows[c.choice.id], c)])
  }

  /** The index refuses a claim exactly when the chosen row would have been granted and another row came to the
      worker between the two statements. */
  lemma IndexRefusesIff(seen: Rows, current: Rows, c: Claim)
    ensures
      SplitClaim(seen, current, c).None? <==>
        && Granted(current, c)
        && exists id :: id != c.choice.id && Holds(current, id, c.workerId) && !Holds(seen, id, c.workerId)
  {
    var rows := AfterFreeing(seen, current, c);
    hide Claimable;
    forall id | id != c.choice.id
      ensures Holds(rows, id, c.workerId) <==> Holds(current, id, c.workerId) && !Holds(seen, id, c.workerId)
    {
    }
    forall id ensures id in Clashing(rows, c) <==> id != c.choice.id && Holds(rows, id, c.workerId) {}
  }

  /** Whatever happened in between, a claim that commits leaves the worker one proxy, and other workers theirs. */
  lemma SplitClaimKeepsOne(seen: Rows, current: Rows, c: Claim)
    requires OneProxyPerWorker(current) && SplitClaim(seen, current, c).Some?
    ensures OneProxyPerWorker(SplitClaim(seen, current, c).value)
  {
    hide Claimable;
    var rows := AfterFreeing(seen, current, c);
    var after := SplitClaim(seen, current, c).value;
    forall id ensures id in Clashing(rows, c) <==> id != c.choice.id && Holds(rows, id, c.workerId) {}
    forall i, j | i in after && j in after && after[i].assignedWorkerId.Some?
                  && after[i].assignedWorkerId == after[j].assignedWorkerId
      ensures i == j
    {
      if Granted(rows, c) { assert i !in Clashing(rows, c) && j !in Clashing(rows, c); }
    }
  }

  /** If no row came to the worker in between, the two statements are the one step of `ClaimDb`. */
  lemma SplitClaimIsAtomicIf(seen: Rows, db: Db, c: Claim)
    requires LocksHeld(seen, db.rows, c)
    requires forall id :: id != c.choice.id && Holds(db.rows, id, c.workerId) ==> Holds(seen, id, c.workerId)
    ensures SplitClaim(seen, db.rows, c) == Some(ClaimDb(db, c).rows)
  {
    IndexRefusesIff(seen, db.rows, c);
    hide Claimable;
    var after := SplitClaim(seen, db.rows, c).value;
    forall id | id in db.rows ensures after[id] == AfterClaim(id, db.rows[id], c) {
      assert id != c.choice.id ==> (FreedBy(seen, c, id) <==> Holds(db.rows, id, c.workerId));
    }
    assert after == ClaimDb(db, c).rows;
  }

  /** A step that commits no claim of `w`. */
  predicate ClaimsNothingFor(s: Sys, step: Step, w: string) {
    step.Commit? && step.call in s.inFlight ==> s.inFlight[step.call].claim.workerId != w
  }

  ghost predicate QuietFor(s: Sys, steps: seq<Step>, w: string) {
    forall n | 0 <= n < |steps| :: ClaimsNothingFor(Run(s, steps[..n]), steps[n], w)
  }

  lemma {:induction false} NothingComesUnclaimed(s: Sys, steps: seq<Step>, w: string, id: nat)
    requires QuietFor(s, steps, w) && Holds(Run(s, steps).db.rows, id, w)
    ensures Holds(s.db.rows, id, w)
  {
    if steps == [] {
    } else {
      var n := |steps| - 1;
      var before := Run(s, steps[..n]);
      assert ClaimsNothingFor(before, steps[n], w);
      RowByRow(before, steps[n]);
      assert id in before.db.rows;
      AssignmentAfter(before, steps[n], id);
      forall k | 0 <= k < n ensures ClaimsNothingFor(Run(s, steps[..n][..k]), steps[..n][k], w) {
        assert steps[..n][..k] == steps[..k] && ClaimsNothingFor(Run(s, steps[..k]), steps[k], w);
      }
      NothingComesUnclaimed(s, steps[..n], w, id);
    }
  }

  /** With one claim of a worker at a time the index never refuses one, and the claim is the atomic step of the
      runs, whatever else commits between its two statements. */
  lemma LoneClaimsAreAtomic(s: Sys, steps: seq<Step>, c: Claim)
    requires QuietFor(s, steps, c.workerId) && LocksHeld(s.db.rows, Run(s, steps).db.rows, c)
    ensures
      var after := Run(s, steps).db;
      SplitClaim(s.db.rows, after.rows, c) == Some(ClaimDb(after, c).rows)
  {
    var after := Run(s, steps).db;
    hide QuietFor, Run;
    forall id | Holds(after.rows, id, c.workerId) ensures Holds(s.db.rows, id, c.workerId) {
      NothingComesUnclaimed(s, steps, c.workerId, id);
    }
    SplitClaimIsAtomicIf(s.db.rows, after, c);
  }

  /** Two calls of one worker that both run their first statement before either runs its second: the later one
      is refused by the index. */
  lemma TwinClaimsClash(rows: Rows, first: Claim, second: Claim)
    requires first.workerId == second.workerId && first.choice.id != second.choice.id
    requires Granted(rows, first) && Granted(rows, second)
    requires !Holds(rows, first.choice.id, first.workerId)
    requires Clashing(rows, first) == {}
    ensures
      var taken := SplitClaim(rows, rows, first);
      taken.Some? && Holds(taken.value, first.choice.id, first.workerId)
      && SplitClaim(rows, taken.value, second) == None
  {
    IndexRefusesIff(rows, rows, first);
    var taken := SplitClaim(rows, rows, first).value;
    assert second.choice.id !in Clashing(rows, first) && taken[second.choice.id] == rows[second.choice.id];
    IndexRefusesIff(rows, taken, second);
    assert Holds(taken, first.choice.id, second.workerId);
  }
}
