/**
  * Refresh-token families (packages/auth/src/session.ts). A refresh token is represented by its hash;
  * next ids and tokens, the token signature check and the user lookup are parameters.
  */
module Sessions {
  import opened Prelude

  datatype Why = Rotated | ReuseDetected | ByCaller(reason: string)

  datatype Session = Session(
    user: nat,
    tenant: nat,
    tokenHash: nat,
    family: nat,
    expiresAt: int,
    revokedAt: Option<int>,
    revokedReason: Option<Why>,
    replacedBy: Option<nat>)

  type Table = map<nat, Session>

  predicate Live(s: Session) { s.revokedAt.None? }

  function Revoked(s: Session, why: Why, now: int): Session {
    if Live(s) then s.(revokedAt := Some(now), revokedReason := Some(why)) else s
  }

  function RevokeOne(t: Table, id: nat, why: Why, now: int): Table {
    map k | k in t :: if k == id then Revoked(t[k], why, now) else t[k]
  }

  function RevokeUser(t: Table, user: nat, why: Why, now: int): Table {
    map k | k in t :: if t[k].user == user then Revoked(t[k], why, now) else t[k]
  }

  function RevokeFamily(t: Table, family: nat, why: Why, now: int): Table {
    map k | k in t :: if t[k].family == family then Revoked(t[k], why, now) else t[k]
  }

  function NewSession(user: nat, tenant: nat, token: nat, family: nat, expiresAt: int): Session {
    Session(user, tenant, token, family, expiresAt, None, None, None)
  }

  /** The rotating transaction: insert the successor, then revoke the old session if it is still live. */
  function RotateWrite(t: Table, holder: nat, next: nat, token: nat, expiresAt: int, now: int): Table
    requires holder in t && next !in t
  {
    var s := t[holder];
    var inserted := t[next := NewSession(s.user, s.tenant, token, s.family, expiresAt)];
    if Live(s) then inserted[holder := Revoked(s, Rotated, now).(replacedBy := Some(next))] else inserted
  }

  predicate UsedToken(t: Table, token: nat) { exists k | k in t :: t[k].tokenHash == token }

  predicate UsedFamily(t: Table, family: nat) { exists k | k in t :: t[k].family == family }

  ghost predicate TokensUnique(t: Table) {
    forall i, j | i in t && j in t :: t[i].tokenHash == t[j].tokenHash ==> i == j
  }

  datatype AuthError =
    | Malformed | UnknownToken | Reuse | ExpiredToken | UserNotActive | UniqueViolation
    | SessionNotFound | SessionRevoked | SessionExpired | Invalidated

  /** `ver` is absent in tokens issued without a version. */
  datatype Claims = Claims(sessionId: nat, tenant: nat, version: Option<nat>)

  /** Whom an accepted access token stands for. */
  datatype Principal = Principal(user: nat, tenant: nat, sessionId: nat, expiresAt: int)

  ghost predicate Accepts(t: Table, version: nat, claims: Claims, userActive: bool, now: int) {
    && claims.sessionId in t
    && var s := t[claims.sessionId];
    && s.tenant == claims.tenant && s.revokedAt.None? && now < s.expiresAt
    && userActive && (claims.version.Some? ==> claims.version.value == version)
  }

  // --- rows of the table, column by column

  /** A session that was just issued. */
  ghost predicate Issued(s: Session, user: nat, tenant: nat, token: nat, family: nat, expiresAt: int) {
    && s.user == user && s.tenant == tenant && s.tokenHash == token && s.family == family
    && s.expiresAt == expiresAt && s.revokedAt.None? && s.revokedReason.None? && s.replacedBy.None?
  }

  /** Of the sessions `ids` those still live are revoked, and nothing else changes. */
  ghost predicate RevokedAmong(before: Table, after: Table, ids: set<nat>, why: Why, now: int) {
    after.Keys == before.Keys && forall k :: k in before ==>
      after[k] == if k in ids && before[k].revokedAt.None?
                  then before[k].(revokedAt := Some(now), revokedReason := Some(why)) else before[k]
  }

  // ------------------------------------------------------------------ the service object

  class SessionService {
    const refreshTtlSeconds: int
    var sessions: Table
    var version: nat

    constructor (refreshTtlSeconds: int)
      ensures sessions == map[] && version == 0 && this.refreshTtlSeconds == refreshTtlSeconds
    {
      this.refreshTtlSeconds := refreshTtlSeconds;
      sessions := map[];
      version := 0;
    }

    method InvalidateIssuedTokens() returns (v: nat)
      modifies this`version
      ensures v == version == old(version) + 1
    {
      version := version + 1;
      v := version;
    }

    method Create(user: nat, tenant: nat, id: nat, family: nat, token: nat, now: int)
        returns (r: Result<nat, AuthError>)
      modifies this`sessions
      ensures
        if id in old(sessions) || UsedToken(old(sessions), token)
        then r == Err(UniqueViolation) && sessions == old(sessions)
        else
          var s := NewSession(user, tenant, token, family, now + refreshTtlSeconds * 1000);
          r == Ok(id) && sessions == old(sessions)[id := s]
      ensures r.Ok? <==> id !in old(sessions) && forall k :: k in old(sessions) ==> old(sessions)[k].tokenHash != token
      ensures r.Ok? ==>
                && r.value == id && id in sessions && sessions == old(sessions)[id := sessions[id]]
                && Issued(sessions[id], user, tenant, token, family, now + 1000 * refreshTtlSeconds)
    {
      if id in sessions || UsedToken(sessions, token) { return Err(UniqueViolation); }
      sessions := sessions[id := NewSession(user, tenant, token, family, now + refreshTtlSeconds * 1000)];
      return Ok(id);
    }

    /** An access token is good exactly while its session is live and unexpired, its user active and its
        version current; it then stands for the session's user and tenant. */
    method Authenticate(claims: Claims, userActive: bool, now: int) returns (r: Result<Principal, AuthError>)
      ensures r.Ok? <==> Accepts(sessions, version, claims, userActive, now)
      ensures r.Ok? ==>
                var s := sessions[claims.sessionId];
                r.value == Principal(s.user, s.tenant, claims.sessionId, s.expiresAt)
      ensures
        var found := claims.sessionId in sessions && sessions[claims.sessionId].tenant == claims.tenant;
        && (r == Err(SessionNotFound) <==> !found)
        && (r == Err(SessionRevoked) <==> found && sessions[claims.sessionId].revokedAt.Some?)
        && (r == Err(SessionExpired) <==>
            found && sessions[claims.sessionId].revokedAt.None? && sessions[claims.sessionId].expiresAt <= now)
        && (r == Err(UserNotActive) <==>
            found && sessions[claims.sessionId].revokedAt.None? && now < sessions[claims.sessionId].expiresAt
            && !userActive)
    {
      if claims.sessionId !in sessions || sessions[claims.sessionId].tenant != claims.tenant {
        return Err(SessionNotFound);
      }
      var s := sessions[claims.sessionId];
      if s.revokedAt.Some? { return Err(SessionRevoked); }
      if s.expiresAt <= now { return Err(SessionExpired); }
      if !userActive { return Err(UserNotActive); }
      if claims.version.Some? && claims.version.value != version { return Err(Invalidated); }
      return Ok(Principal(s.user, s.tenant, claims.sessionId, s.expiresAt));
    }

    /** Exchange a refresh token. `presented` is `None` for a malformed one. */
    method Rotate(presented: Option<nat>, userActive: bool, next: nat, token: nat, now: int)
      returns (r: Result<nat, AuthError>, ghost holder: nat)
      requires TokensUnique(sessions)
      modifies this`sessions
      ensures presented.None? ==> r == Err(Malformed) && sessions == old(sessions)
      ensures presented.Some? && !UsedToken(old(sessions), presented.value) ==>
                r == Err(UnknownToken) && sessions == old(sessions)
      ensures presented.Some? && UsedToken(old(sessions), presented.value) ==>
                holder in old(sessions) && old(sessions)[holder].tokenHash == presented.value &&
                var s := old(sessions)[holder];
                if !Live(s) then
                  r == Err(Reuse) && sessions == RevokeFamily(old(sessions), s.family, ReuseDetected, now)
                else if s.expiresAt <= now then r == Err(ExpiredToken) && sessions == old(sessions)
                else if !userActive then r == Err(UserNotActive) && sessions == old(sessions)
                else if next in old(sessions) || UsedToken(old(sessions), token) then
                  r == Err(UniqueViolation) && sessions == old(sessions)
                else
                  r == Ok(next)
                  && sessions == RotateWrite(old(sessions), holder, next, token, now + refreshTtlSeconds * 1000, now)
      ensures TokensUnique(sessions)
      ensures r.Ok? ==>
                && holder in old(sessions) && Some(old(sessions)[holder].tokenHash) == presented && r.value == next
                && var was := old(sessions)[holder];
                && was.revokedAt.None? && now < was.expiresAt && userActive
                && next !in old(sessions) && holder in sessions && next in sessions
                && Issued(sessions[next], was.user, was.tenant, token, was.family, now + 1000 * refreshTtlSeconds)
                && sessions[holder]
                   == was.(revokedAt := Some(now), revokedReason := Some(Rotated), replacedBy := Some(next))
                && sessions == old(sessions)[next := sessions[next]][holder := sessions[holder]]
      ensures r == Err(Reuse) ==>
                && holder in old(sessions) && Some(old(sessions)[holder].tokenHash) == presented
                && old(sessions)[holder].revokedAt.Some?
                && var family := set k | k in old(sessions) && old(sessions)[k].family == old(sessions)[holder].family;
                RevokedAmong(old(sessions), sessions, family, ReuseDetected, now)
      ensures r.Err? && r != Err(Reuse) ==> sessions == old(sessions)
    {
      holder := 0;
      if presented.None? { r := Err(Malformed); return; }
      var rows := set k | k in sessions && sessions[k].tokenHash == presented.value;
      if rows == {} {
        assert forall k :: k in rows <==> k in sessions && sessions[k].tokenHash == presented.value;
        r := Err(UnknownToken);
        return;
      }
      var id :| id in rows;
      holder := id;
      var session := sessions[id];
      if session.revokedAt.Some? {
        sessions := RevokeFamily(sessions, session.family, ReuseDetected, now);
        r := Err(Reuse);
        return;
      }
      if session.expiresAt <= now { r := Err(ExpiredToken); return; }
      if !userActive { r := Err(UserNotActive); return; }
      if next in sessions || UsedToken(sessions, token) { r := Err(UniqueViolation); return; }
      var expiresAt := now + refreshTtlSeconds * 1000;
      sessions := sessions[next := NewSession(session.user, session.tenant, token, session.family, expiresAt)];
      if sessions[id].revokedAt.None? {
        sessions := sessions[id := session.(revokedAt := Some(now), revokedReason := Some(Rotated),
            replacedBy := Some(next))];
      }
      r := Ok(next);
    }

    method Revoke(id: nat, reason: string, now: int)
      modifies this`sessions
      ensures sessions == RevokeOne(old(sessions), id, ByCaller(reason), now)
      ensures RevokedAmong(old(sessions), sessions, {id}, ByCaller(reason), now)
    {
      if id in sessions && sessions[id].revokedAt.None? {
        sessions := sessions[id := sessions[id].(revokedAt := Some(now), revokedReason := Some(ByCaller(reason)))];
      }
    }

    method RevokeAllForUser(user: nat, reason: string, now: int) returns (n: nat)
      modifies this`sessions
      ensures sessions == RevokeUser(old(sessions), user, ByCaller(reason), now)
      ensures
        var ids := set k | k in old(sessions) && old(sessions)[k].user == user;
        RevokedAmong(old(sessions), sessions, ids, ByCaller(reason), now)
      ensures n == |set k | k in old(sessions) && old(sessions)[k].user == user && Live(old(sessions)[k])|
    {
      n := |set k | k in sessions && sessions[k].user == user && sessions[k].revokedAt.None?|;
      assert (set k | k in sessions && sessions[k].user == user && sessions[k].revokedAt.None?)
          == (set k | k in sessions && sessions[k].user == user && Live(sessions[k]));
      sessions := map k | k in sessions ::
        if sessions[k].user == user && sessions[k].revokedAt.None?
        then sessions[k].(revokedAt := Some(now), revokedReason := Some(ByCaller(reason))) else sessions[k];
    }
  }

  // ------------------------------------------------------------------ runs

  datatype Step =
    | CreateStep(user: nat, tenant: nat, id: nat, family: nat, token: nat, expiresAt: int)
    | RotateStep(presented: nat, userActive: bool, next: nat, token: nat, expiresAt: int, now: int)
    | RevokeStep(id: nat, why: Why, now: int)
    | RevokeUserStep(user: nat, why: Why, now: int)

  /** `rotations` is the history of tokens exchanged successfully. */
  datatype State = State(sessions: Table, rotations: seq<nat>)

  ghost function Holder(t: Table, token: nat): (id: nat)
    requires UsedToken(t, token)
    ensures id in t && t[id].tokenHash == token
  {
    var id :| id in t && t[id].tokenHash == token; id
  }

  ghost predicate Rotates(t: Table, step: Step) {
    && step.RotateStep? && UsedToken(t, step.presented)
    && var s := t[Holder(t, step.presented)];
    && Live(s) && s.expiresAt > step.now && step.userActive
    && step.next !in t && !UsedToken(t, step.token)
  }

  ghost predicate Reuses(t: Table, step: Step) {
    step.RotateStep? && UsedToken(t, step.presented) && !Live(t[Holder(t, step.presented)])
  }

  ghost function Apply(s: State, step: Step): State {
    var t := s.sessions;
    match step
    case CreateStep(user, tenant, id, family, token, expiresAt) =>
      if id in t || UsedToken(t, token) || UsedFamily(t, family) then s
      else s.(sessions := t[id := NewSession(user, tenant, token, family, expiresAt)])
    case RotateStep(presented, active, next, token, expiresAt, now) =>
      if Reuses(t, step) then s.(sessions := RevokeFamily(t, t[Holder(t, presented)].family, ReuseDetected, now))
      else if Rotates(t, step) then
        State(RotateWrite(t, Holder(t, presented), next, token, expiresAt, now), s.rotations + [presented])
      else s
    case RevokeStep(id, why, now) => s.(sessions := RevokeOne(t, id, why, now))
    case RevokeUserStep(user, why, now) => s.(sessions := RevokeUser(t, user, why, now))
  }

  ghost function Run(s: State, steps: seq<Step>): State {
    if steps == [] then s else Apply(Run(s, steps[..|steps| - 1]), steps[|steps| - 1])
  }

  ghost function Empty(): State { State(map[], []) }

  /** `c` lists the sessions of a family, each replaced by the next; only the last may be live. */
  ghost predicate IsChain(t: Table, family: nat, c: seq<nat>) {
    && c != [] && NoDuplicates(c)
    && (forall id :: id in c <==> id in t && t[id].family == family)
    && (forall i :: 0 <= i < |c| - 1 ==> t[c[i]].replacedBy == Some(c[i + 1]) && !Live(t[c[i]]))
    && t[c[|c| - 1]].replacedBy == None
  }

  ghost predicate Chained(t: Table, family: nat) { exists c :: IsChain(t, family, c) }

  ghost predicate Inv(s: State) {
    && TokensUnique(s.sessions)
    && (forall f :: UsedFamily(s.sessions, f) ==> Chained(s.sessions, f))
    && NoDuplicates(s.rotations)
    && (forall token | token in s.rotations ::
          UsedToken(s.sessions, token) && !Live(s.sessions[Holder(s.sessions, token)]))
  }

  /** `u` is `t` after some revocations. */
  ghost predicate MoreRevoked(t: Table, u: Table) {
    u.Keys == t.Keys && forall id :: id in t ==>
      u[id].(revokedAt := None, revokedReason := None) == t[id].(revokedAt := None, revokedReason := None)
      && (!Live(t[id]) ==> u[id] == t[id])
  }

  lemma RevocationKeepsChain(t: Table, u: Table, family: nat)
    requires MoreRevoked(t, u) && Chained(t, family)
    ensures Chained(u, family)
  {
    var c :| IsChain(t, family, c);
    assert forall i :: 0 <= i < |c| ==> c[i] in c;
    assert IsChain(u, family, c);
  }

  lemma RevocationKeepsInv(s: State, u: Table)
    requires Inv(s) && MoreRevoked(s.sessions, u)
    ensures Inv(s.(sessions := u))
  {
    var t := s.sessions;
    assert TokensUnique(u) by {
      forall i, j | i in u && j in u && u[i].tokenHash == u[j].tokenHash ensures i == j {
        assert t[i].tokenHash == u[i].tokenHash && t[j].tokenHash == u[j].tokenHash;
      }
    }
    forall f | UsedFamily(u, f) ensures Chained(u, f) {
      var k :| k in u && u[k].family == f;
      assert k in t && t[k].family == f;
      RevocationKeepsChain(t, u, f);
    }
    forall token | token in s.rotations ensures UsedToken(u, token) && !Live(u[Holder(u, token)]) {
      var k := Holder(t, token);
      assert k in u && u[k].tokenHash == token;
      assert Holder(u, token) == k;
    }
  }

  lemma CreateKeepsInv(s: State, id: nat, x: Session)
    requires Inv(s) && id !in s.sessions && !UsedToken(s.sessions, x.tokenHash) && !UsedFamily(s.sessions, x.family)
    requires x.replacedBy.None?
    ensures Inv(s.(sessions := s.sessions[id := x]))
  {
    var t, u := s.sessions, s.sessions[id := x];
    forall f | UsedFamily(u, f) ensures Chained(u, f) {
      if f == x.family {
        assert IsChain(u, f, [id]);
      } else {
        var k :| k in u && u[k].family == f;
        assert k in t && t[k].family == f && UsedFamily(t, f) && Chained(t, f);
        var c :| IsChain(t, f, c);
        assert forall i :: 0 <= i < |c| ==> c[i] in c;
        assert IsChain(u, f, c);
      }
    }
    forall token | token in s.rotations ensures UsedToken(u, token) && !Live(u[Holder(u, token)]) {
      var k := Holder(t, token);
      assert k in u && u[k].tokenHash == token;
      assert Holder(u, token) == k;
    }
  }

  lemma LiveIsLast(t: Table, family: nat, c: seq<nat>, id: nat)
    requires IsChain(t, family, c) && id in t && t[id].family == family && Live(t[id])
    ensures id == c[|c| - 1]
  {
    var i :| 0 <= i < |c| && c[i] == id;
  }

  lemma RotationGrowsChain(t: Table, c: seq<nat>, holder: nat, next: nat, token: nat, expiresAt: int, now: int)
    requires holder in t && next !in t && Live(t[holder]) && IsChain(t, t[holder].family, c)
    ensures IsChain(RotateWrite(t, holder, next, token, expiresAt, now), t[holder].family, c + [next])
  {
    var f := t[holder].family;
    LiveIsLast(t, f, c, holder);
    assert forall i :: 0 <= i < |c| ==> c[i] in c;
    var u := RotateWrite(t, holder, next, token, expiresAt, now);
    var d := c + [next];
    forall id | id in u && u[id].family == f ensures id in d {
      if id != next { assert id in t && t[id].family == f && id in c; }
    }
  }

  lemma RotateKeepsChains(t: Table, holder: nat, next: nat, token: nat, expiresAt: int, now: int, f: nat)
    requires holder in t && next !in t && Live(t[holder])
    requires forall g :: UsedFamily(t, g) ==> Chained(t, g)
    requires UsedFamily(RotateWrite(t, holder, next, token, expiresAt, now), f)
    ensures Chained(RotateWrite(t, holder, next, token, expiresAt, now), f)
  {
    var u := RotateWrite(t, holder, next, token, expiresAt, now);
    var k :| k in u && u[k].family == f;
    var k' := if k == next then holder else k;
    assert k' in t && t[k'].family == f && UsedFamily(t, f) && Chained(t, f);
    var c :| IsChain(t, f, c);
    if f == t[holder].family {
      RotationGrowsChain(t, c, holder, next, token, expiresAt, now);
    } else {
      assert forall i :: 0 <= i < |c| ==> c[i] in c;
      assert IsChain(u, f, c);
    }
  }

  lemma RotateKeepsInv(s: State, step: Step)
    requires Inv(s) && Rotates(s.sessions, step)
    ensures Inv(Apply(s, step))
  {
    var t := s.sessions;
    var holder := Holder(t, step.presented);
    var u := RotateWrite(t, holder, step.next, step.token, step.expiresAt, step.now);
    forall f | UsedFamily(u, f) ensures Chained(u, f) {
      RotateKeepsChains(t, holder, step.next, step.token, step.expiresAt, step.now, f);
    }
    assert TokensUnique(u);
    assert step.presented !in s.rotations;
    forall token | token in s.rotations + [step.presented] ensures UsedToken(u, token) && !Live(u[Holder(u, token)]) {
      var k := Holder(t, token);
      assert k in u && u[k].tokenHash == token && !Live(u[k]);
      assert Holder(u, token) == k;
    }
  }

  lemma StepKeepsInv(s: State, step: Step)
    requires Inv(s)
    ensures Inv(Apply(s, step))
  {
    var t := s.sessions;
    match step
    case CreateStep(user, tenant, id, family, token, expiresAt) =>
      if id !in t && !UsedToken(t, token) && !UsedFamily(t, family) {
        CreateKeepsInv(s, id, NewSession(user, tenant, token, family, expiresAt));
      }
    case RotateStep(presented, _, _, _, _, now) =>
      if Reuses(t, step) {
        RevocationKeepsInv(s, RevokeFamily(t, t[Holder(t, presented)].family, ReuseDetected, now));
      } else if Rotates(t, step) {
        RotateKeepsInv(s, step);
      }
    case RevokeStep(id, why, now) => RevocationKeepsInv(s, RevokeOne(t, id, why, now));
    case RevokeUserStep(user, why, now) => RevocationKeepsInv(s, RevokeUser(t, user, why, now));
  }

  lemma {:induction false} RunKeepsInv(steps: seq<Step>)
    ensures Inv(Run(Empty(), steps))
  {
    if steps == [] {
    } else {
      RunKeepsInv(steps[..|steps| - 1]);
      StepKeepsInv(Run(Empty(), steps[..|steps| - 1]), steps[|steps| - 1]);
    }
  }

  ghost predicate OneLive(t: Table, family: nat) {
    forall i, j | i in t && j in t && t[i].family == family && t[j].family == family ::
        Live(t[i]) && Live(t[j]) ==> i == j
  }

  /** In every run each family is one chain of replacements with at most one live session, at its end, and
      no refresh token is ever exchanged twice. */
  lemma FamiliesAreChains(steps: seq<Step>, family: nat)
    ensures
      var s := Run(Empty(), steps);
      && (UsedFamily(s.sessions, family) ==>
            exists c :: IsChain(s.sessions, family, c)
                        && forall id | id in s.sessions && s.sessions[id].family == family ::
                             Live(s.sessions[id]) ==> id == c[|c| - 1])
      && OneLive(s.sessions, family)
      && NoDuplicates(s.rotations)
  {
    RunKeepsInv(steps);
    var t := Run(Empty(), steps).sessions;
    if UsedFamily(t, family) {
      var c :| IsChain(t, family, c);
      forall id | id in t && t[id].family == family && Live(t[id]) ensures id == c[|c| - 1] {
        LiveIsLast(t, family, c, id);
      }
    }
  }

  // ------------------------------------------------------------------ after a reuse

  ghost predicate Dead(t: Table, family: nat) {
    UsedFamily(t, family) && forall id | id in t && t[id].family == family :: !Live(t[id])
  }

  /** Presenting a token that was rotated or revoked before kills its whole family. */
  lemma ReuseKillsFamily(s: State, step: Step)
    requires Reuses(s.sessions, step)
    ensures Dead(Apply(s, step).sessions, s.sessions[Holder(s.sessions, step.presented)].family)
  {
    var t := s.sessions;
    var k := Holder(t, step.presented);
    assert Apply(s, step).sessions[k].family == t[k].family;
  }

  lemma StepKeepsDead(s: State, step: Step, family: nat)
    requires Dead(s.sessions, family)
    ensures Dead(Apply(s, step).sessions, family)
    ensures step.RotateStep? && UsedToken(s.sessions, step.presented)
            && s.sessions[Holder(s.sessions, step.presented)].family == family ==>
              Reuses(s.sessions, step) && Apply(s, step).rotations == s.rotations
  {
    var t := s.sessions;
    var k :| k in t && t[k].family == family;
    assert k in Apply(s, step).sessions && Apply(s, step).sessions[k].family == family;
  }

  /** A dead family stays dead: no later step gives it a live session, so nothing in it authenticates or
      rotates again. */
  lemma {:induction false} DeadFamilyStaysDead(s: State, steps: seq<Step>, family: nat)
    requires Dead(s.sessions, family)
    ensures Dead(Run(s, steps).sessions, family)
    ensures forall step :: Rotates(Run(s, steps).sessions, step) ==>
              Run(s, steps).sessions[Holder(Run(s, steps).sessions, step.presented)].family != family
  {
    if steps == [] {
    } else {
      DeadFamilyStaysDead(s, steps[..|steps| - 1], family);
      StepKeepsDead(Run(s, steps[..|steps| - 1]), steps[|steps| - 1], family);
    }
  }

  // ------------------------------------------------------------------ from one call to the next

  /** Right after a session is created its access tokens are accepted, for its user and tenant, until it expires. */
  lemma FreshSessionAuthenticates(t: Table, user: nat, tenant: nat, id: nat, family: nat, token: nat, expiresAt: int,
        claims: Claims, version: nat, userActive: bool, now: int)
    requires id !in t && claims.sessionId == id
    ensures
      var u := t[id := NewSession(user, tenant, token, family, expiresAt)];
      && (Accepts(u, version, claims, userActive, now) <==>
          claims.tenant == tenant && now < expiresAt && userActive && claims.version in {None, Some(version)})
      && u[id].user == user && u[id].tenant == tenant
  {
  }

  /** Right after an exchange the same holds for the successor, for the same user and tenant, and the session that
      was exchanged is accepted no more. */
  lemma RotationMovesAuthentication(t: Table, holder: nat, next: nat, token: nat, expiresAt: int, now: int,
        claims: Claims, version: nat, userActive: bool, later: int)
    requires holder in t && Live(t[holder]) && next !in t
    ensures
      var u := RotateWrite(t, holder, next, token, expiresAt, now);
      && (claims.sessionId == holder ==> !Accepts(u, version, claims, userActive, later))
      && (claims.sessionId == next ==>
            && u[next].user == t[holder].user && u[next].tenant == t[holder].tenant
            && (Accepts(u, version, claims, userActive, later) <==>
                && claims.tenant == t[holder].tenant && later < expiresAt && userActive
                && claims.version in {None, Some(version)}))
  {
  }

  /** Invalidating the issued tokens shuts out every token with a version, and only those. */
  lemma InvalidationShutsOutVersions(t: Table, version: nat, claims: Claims, userActive: bool, now: int)
    requires Accepts(t, version, claims, userActive, now)
    ensures Accepts(t, version + 1, claims, userActive, now) <==> claims.version.None?
  {
  }

  // ------------------------------------------------------------------ why the exchange must be atomic

  /** The source reads the session before the transaction that writes. Writing after something else
      happened keeps one live session exactly when no other session of the family is live by then. */
  lemma LateWriteKeepsOneLiveIff(t: Table, holder: nat, next: nat, token: nat, expiresAt: int, now: int)
    requires holder in t && next !in t
    ensures
      OneLive(RotateWrite(t, holder, next, token, expiresAt, now), t[holder].family)
      <==> forall id | id in t && t[id].family == t[holder].family && Live(t[id]) :: id == holder
  {
    var f := t[holder].family;
    var u := RotateWrite(t, holder, next, token, expiresAt, now);
    assert u[next].family == f && Live(u[next]) && !Live(u[holder]);
    if id :| id in t && t[id].family == f && Live(t[id]) && id != holder {
      assert u[id] == t[id];
    }
  }

  /** Two exchanges of one token that both read it live leave two live sessions. */
  lemma DoubleExchangeForks(t: Table, holder: nat, a: nat, b: nat, x: nat, y: nat, expiresAt: int, now: int)
    requires holder in t && Live(t[holder]) && a !in t && b !in t && a != b
    ensures
      var once := RotateWrite(t, holder, a, x, expiresAt, now);
      !OneLive(RotateWrite(once, holder, b, y, expiresAt, now), t[holder].family)
  {
    var once := RotateWrite(t, holder, a, x, expiresAt, now);
    LateWriteKeepsOneLiveIff(once, holder, b, y, expiresAt, now);
    assert once[a].family == t[holder].family && Live(once[a]);
  }

  /** An exchange that read its token live before a reuse killed the family writes a live session into it: dead
      does not stay dead, and the successor is the one session that works. */
  lemma LateWriteRevivesDeadFamily(t: Table, holder: nat, next: nat, token: nat, expiresAt: int, now: int)
    requires holder in t && next !in t && Dead(t, t[holder].family)
    ensures
      var u := RotateWrite(t, holder, next, token, expiresAt, now);
      && !Dead(u, t[holder].family)
      && u[holder] == t[holder]
      && forall id | id in u && u[id].family == t[holder].family :: Live(u[id]) <==> id == next
  {
    var u := RotateWrite(t, holder, next, token, expiresAt, now);
    assert u[next].family == t[holder].family && Live(u[next]);
  }
}
