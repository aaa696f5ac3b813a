/**
  * The only writer of booking state (packages/booking/src/service.ts): requests, their append-only
  * transition log and timeline, and the monitors an auto-cancel stops.
  */
module BookingService {
  import opened Prelude
  import opened BookingMachine

  datatype Request = Request(
    tenant: nat,
    user: nat,
    origin: string,
    destination: string,
    priority: int,
    idempotencyKey: Option<string>,
    status: BookingState,
    completedAt: Option<int>,
    canceledAt: Option<int>,
    cancelReason: Option<string>)

  datatype TransitionRow = TransitionRow(tenant: nat, request: nat, from: BookingState, to: BookingState,
      reason: string)

  datatype Phase = RequestPhase | StatePhase | CompletePhase

  datatype TimelineRow = TimelineRow(
    tenant: nat, request: nat, phase: Phase, from: Option<BookingState>, to: BookingState, effects: seq<Effect>)

  datatype MonitorStatus = ActiveMonitor | PausedMonitor | SatisfiedMonitor | CanceledMonitor | ExpiredMonitor

  datatype Monitor = Monitor(tenant: nat, request: nat, status: MonitorStatus)

  datatype ReservationStatus =
    | PendingReservation | HeldReservation | ReservedReservation | BookedReservation
    | ExpiredReservation | CanceledReservation | FailedReservation

  datatype Reservation = Reservation(tenant: nat, request: nat, status: ReservationStatus)

  datatype Store = Store(
    requests: map<nat, Request>,
    transitions: seq<TransitionRow>,
    timeline: seq<TimelineRow>,
    monitors: map<nat, Monitor>,
    reservations: seq<Reservation>)

  const AUTO_CANCELLED := "auto_cancelled_lower_priority"

  // ------------------------------------------------------------------ creating

  datatype Input = Input(tenant: nat, user: nat, origin: string, destination: string, priority: int,
      idempotencyKey: Option<string>)

  datatype CreatedRequest = CreatedRequest(id: nat, status: BookingState, replayed: bool)

  datatype Failure =
    | NotFound
    | IllegalTransition(why: Illegal)
    | InvariantViolated(violations: seq<Violation>)
    | UniqueViolation

  predicate HasKey(r: Request, tenant: nat, key: Option<string>) {
    r.tenant == tenant && key.Some? && r.idempotencyKey == key
  }

  ghost predicate KeyTaken(requests: map<nat, Request>, tenant: nat, key: Option<string>) {
    exists k :: k in requests && HasKey(requests[k], tenant, key)
  }

  ghost predicate KeysUnique(requests: map<nat, Request>) {
    forall i, j | i in requests && j in requests ::
      HasKey(requests[j], requests[i].tenant, requests[i].idempotencyKey) ==> i == j
  }

  function NewRequest(input: Input): Request {
    Request(input.tenant, input.user, input.origin, input.destination, input.priority, input.idempotencyKey,
            Created, None, None, None)
  }

  function InsertRequest(st: Store, id: nat, input: Input): Store {
    st.(requests := st.requests[id := NewRequest(input)],
        timeline := st.timeline + [TimelineRow(input.tenant, id, RequestPhase, None, Created, [])])
  }

  /** A new request carries what was asked for, starts CREATED without a history, and has one timeline row. */
  ghost predicate CreatedByColumns(before: Store, id: nat, input: Input, after: Store) {
    && id !in before.requests && id in after.requests
    && after.requests == before.requests[id := after.requests[id]]
    && var r := after.requests[id];
    && r.tenant == input.tenant && r.user == input.user && r.priority == input.priority
    && r.origin == input.origin && r.destination == input.destination && r.idempotencyKey == input.idempotencyKey
    && r.status == Created && r.completedAt.None? && r.canceledAt.None? && r.cancelReason.None?
    && |after.timeline| == |before.timeline| + 1 && after.timeline[..|before.timeline|] == before.timeline
    && var line := after.timeline[|before.timeline|];
    && line.tenant == input.tenant && line.request == id && line.phase == RequestPhase
    && line.from.None? && line.to == Created && line.effects == []
    && after.transitions == before.transitions && after.monitors == before.monitors
    && after.reservations == before.reservations
  }

  // ------------------------------------------------------------------ moving

  predicate LiveStatus(s: ReservationStatus) {
    s in {PendingReservation, HeldReservation, ReservedReservation, BookedReservation}
  }

  function LiveReservations(rs: seq<Reservation>, tenant: nat, request: nat): nat {
    if rs == [] then 0
    else
      var r := rs[|rs| - 1];
      LiveReservations(rs[..|rs| - 1], tenant, request)
      + (if r.tenant == tenant && r.request == request && LiveStatus(r.status) then 1 else 0)
  }

  /** A reservation of the tenant's request that has not ended. */
  ghost predicate LiveFor(r: Reservation, tenant: nat, request: nat) {
    && r.tenant == tenant && r.request == request
    && r.status != ExpiredReservation && r.status != CanceledReservation && r.status != FailedReservation
  }

  ghost predicate TwoLive(rs: seq<Reservation>, tenant: nat, request: nat) {
    exists i, j :: 0 <= i < j < |rs| && LiveFor(rs[i], tenant, request) && LiveFor(rs[j], tenant, request)
  }

  lemma {:induction false} LiveReservationsMeans(rs: seq<Reservation>, tenant: nat, request: nat)
    ensures LiveReservations(rs, tenant, request) > 0 <==> exists i :: 0 <= i < |rs| && LiveFor(rs[i], tenant, request)
    ensures LiveReservations(rs, tenant, request) > 1 <==> TwoLive(rs, tenant, request)
  {
    if rs == [] {
    } else {
      var n := |rs| - 1;
      LiveReservationsMeans(rs[..n], tenant, request);
      assert LiveFor(rs[n], tenant, request) <==>
        rs[n].tenant == tenant && rs[n].request == request && LiveStatus(rs[n].status);
      hide LiveFor, LiveStatus;
      assert forall i :: 0 <= i < n ==> rs[..n][i] == rs[i];
      if i :| 0 <= i < n && LiveFor(rs[..n][i], tenant, request) { assert LiveFor(rs[i], tenant, request); }
      if i, j :| 0 <= i < j < n && LiveFor(rs[..n][i], tenant, request) && LiveFor(rs[..n][j], tenant, request) {
        assert LiveFor(rs[i], tenant, request) && LiveFor(rs[j], tenant, request);
      }
      if i, j :| 0 <= i < j < |rs| && LiveFor(rs[i], tenant, request) && LiveFor(rs[j], tenant, request) {
        assert LiveFor(rs[..n][i], tenant, request);
        if j < n { assert LiveFor(rs[..n][j], tenant, request); }
      }
    }
  }

  function Moved(r: Request, to: BookingState, reason: string, now: int): Request {
    r.(status := to,
       completedAt := if IsTerminal(to) then Some(now) else r.completedAt,
       canceledAt := if to == Cancelled then Some(now) else r.canceledAt,
       cancelReason :=
         if to != Cancelled then r.cancelReason
         else if reason != "" then Some(reason) else if r.cancelReason.Some? then r.cancelReason else Some(""))
  }

  function MovedStore(st: Store, id: nat, to: BookingState, reason: string, now: int): Store
    requires id in st.requests
  {
    var r := st.requests[id];
    st.(requests := st.requests[id := Moved(r, to, reason, now)],
        transitions := st.transitions + [TransitionRow(r.tenant, id, r.status, to, reason)],
        timeline := st.timeline + [TimelineRow(r.tenant, id, if to == Booked then CompletePhase else StatePhase,
                                               Some(r.status), to, MergedEffects(TransitionsFrom(r.status), to))])
  }

  /** What a transition must do: nothing at all unless the request is the tenant's, the move is an edge of
      the table, and at most one reservation is live. */
  function TransitionStore(st: Store, id: nat, tenant: nat, to: BookingState, reason: string,
      now: int): Result<Store, Failure> {
    if id !in st.requests || st.requests[id].tenant != tenant then Err(NotFound)
    else
      var check := AssertTransition(st.requests[id].status, to);
      if check.Err? then Err(IllegalTransition(check.error))
      else if LiveReservations(st.reservations, tenant, id) > 1 then Err(InvariantViolated([SingleLiveReservation]))
      else Ok(MovedStore(st, id, to, reason, now))
  }

  /** A completed move, column by column: the status, its stamps and reason, one row in the log and one in the
      timeline with every effect of the move, and nothing else. */
  ghost predicate MovedByColumns(before: Store, id: nat, to: BookingState, reason: string, now: int, after: Store) {
    && id in before.requests && id in after.requests
    && var (was, moved) := (before.requests[id], after.requests[id]);
    && after.requests == before.requests[id := moved]
    && moved.status == to
    && moved.completedAt == (if to in {Booked, Failed, Expired, Cancelled} then Some(now) else was.completedAt)
    && moved.canceledAt == (if to == Cancelled then Some(now) else was.canceledAt)
    && (to != Cancelled ==> moved.cancelReason == was.cancelReason)
    && (to == Cancelled && reason != "" ==> moved.cancelReason == Some(reason))
    && (to == Cancelled && reason == "" ==> moved.cancelReason == Some(if was.cancelReason.None? then ""
                                                                   else was.cancelReason.value))
    && moved.tenant == was.tenant && moved.user == was.user
    && moved.origin == was.origin && moved.destination == was.destination
    && moved.priority == was.priority && moved.idempotencyKey == was.idempotencyKey
    && |after.transitions| == |before.transitions| + 1 && before.transitions <= after.transitions
    && var row := after.transitions[|before.transitions|];
    && row.tenant == was.tenant && row.request == id && row.from == was.status && row.to == to && row.reason == reason
    && |after.timeline| == |before.timeline| + 1 && before.timeline <= after.timeline
    && var line := after.timeline[|before.timeline|];
    && line.tenant == was.tenant && line.request == id && line.from == Some(was.status) && line.to == to
    && (line.phase == CompletePhase <==> to == Booked) && line.phase != RequestPhase
    && NoDuplicates(line.effects) && (forall e :: e in line.effects <==> Causes(was.status, to, e))
    && after.monitors == before.monitors && after.reservations == before.reservations
  }

  lemma MoveReadsColumns(st: Store, id: nat, to: BookingState, reason: string, now: int)
    requires id in st.requests
    ensures MovedByColumns(st, id, to, reason, now, MovedStore(st, id, to, reason, now))
  {
    MergedEffectsExact(TransitionsFrom(st.requests[id].status), to);
    hide TransitionsFrom, MergedEffects, CausesIn;
  }

  /** The answer of a transition in terms of the table's edges and the reservations that have not ended. */
  ghost predicate AnsweredByColumns(before: Store, id: nat, tenant: nat, to: BookingState,
      r: Result<BookingState, Failure>) {
    if id !in before.requests || before.requests[id].tenant != tenant then r == Err(NotFound)
    else
      var from := before.requests[id].status;
      if !Edge(from, to) then
        && r.Err? && r.error.IllegalTransition?
        && (forall s :: s in r.error.why.allowed <==> Edge(from, s))
        && (r.error.why.terminal <==> from in {Booked, Failed, Expired, Cancelled})
      else if TwoLive(before.reservations, tenant, id) then r == Err(InvariantViolated([SingleLiveReservation]))
      else r == Ok(to)
  }

  lemma IllegalReadsColumns(from: BookingState, to: BookingState)
    requires !Edge(from, to)
    ensures
      var check := AssertTransition(from, to);
      && check.Err? && (forall s :: s in check.error.allowed <==> Edge(from, s))
      && (check.error.terminal <==> from in {Booked, Failed, Expired, Cancelled})
  {
    RefusalListsTheExits(from, to);
    TerminalIffNoExit(from);
    hide AssertTransition, Edge, IsTerminal;
  }

  lemma AnswerReadsColumns(st: Store, id: nat, tenant: nat, to: BookingState, reason: string, now: int)
    ensures
      var spec := TransitionStore(st, id, tenant, to, reason, now);
      && AnsweredByColumns(st, id, tenant, to, if spec.Ok? then Ok(to) else Err(spec.error))
      && (spec.Ok? ==> MovedByColumns(st, id, to, reason, now, spec.value))
  {
    hide MovedStore, MovedByColumns, Edge, LiveReservations, TwoLive, AssertTransition;
    if id in st.requests && st.requests[id].tenant == tenant {
      var from := st.requests[id].status;
      AcceptedIffEdge(from, to);
      if Edge(from, to) {
        LiveReservationsMeans(st.reservations, tenant, id);
        MoveReadsColumns(st, id, to, reason, now);
      } else {
        IllegalReadsColumns(from, to);
      }
    }
  }

  // ------------------------------------------------------------------ auto-cancelling

  datatype Winner = Winner(tenant: nat, user: nat, request: nat, priority: int, origin: string, destination: string)

  predicate InActiveStates(s: BookingState) { !IsTerminal(s) }

  predicate AutoCancellable(s: BookingState) {
    s in {Scheduled, Queued, Searching, Waiting, Available, Created, Validating}
  }

  /** The SELECT ... FOR UPDATE of the auto-cancel. */
  predicate Matches(id: nat, r: Request, w: Winner) {
    && r.tenant == w.tenant && r.user == w.user && id != w.request
    && r.origin == w.origin && r.destination == w.destination
    && r.priority > w.priority
    && InActiveStates(r.status)
  }

  /** The requests a win must cancel. */
  predicate Targeted(id: nat, r: Request, w: Winner) { Matches(id, r, w) && AutoCancellable(r.status) }

  function CancelledRequest(r: Request, now: int): Request {
    r.(status := Cancelled, canceledAt := Some(now), cancelReason := Some(AUTO_CANCELLED))
  }

  function StopMonitors(monitors: map<nat, Monitor>, tenant: nat, request: nat): map<nat, Monitor> {
    map m | m in monitors ::
      if monitors[m].tenant == tenant && monitors[m].request == request && monitors[m].status == ActiveMonitor
      then monitors[m].(status := CanceledMonitor) else monitors[m]
  }

  function CancelOne(st: Store, id: nat, w: Winner, now: int): Store
    requires id in st.requests
  {
    var r := st.requests[id];
    Store(st.requests[id := CancelledRequest(r, now)],
          st.transitions + [TransitionRow(w.tenant, id, r.status, Cancelled, AUTO_CANCELLED)],
          st.timeline + [TimelineRow(w.tenant, id, StatePhase, Some(r.status), Cancelled, [])],
          StopMonitors(st.monitors, w.tenant, id),
          st.reservations)
  }

  function CancelAll(st: Store, ids: seq<nat>, w: Winner, now: int): (r: Store)
    requires forall id :: id in ids ==> id in st.requests
    ensures r.requests.Keys == st.requests.Keys
  {
    if ids == [] then st
    else
      var rest := CancelAll(st, ids[..|ids| - 1], w, now);
      CancelOne(rest, ids[|ids| - 1], w, now)
  }

  lemma CancelAllSnoc(st: Store, ids: seq<nat>, id: nat, w: Winner, now: int)
    requires id in st.requests && forall x :: x in ids ==> x in st.requests
    ensures CancelAll(st, ids + [id], w, now) == CancelOne(CancelAll(st, ids, w, now), id, w, now)
  {
    assert (ids + [id])[..|ids|] == ids;
  }

  lemma CancelAllNone(st: Store, w: Winner, now: int)
    ensures CancelAll(st, [], w, now) == st
  {
  }

  ghost predicate ListsTargets(ids: seq<nat>, st: Store, w: Winner) {
    NoDuplicates(ids) && forall id :: id in ids <==> id in st.requests && Targeted(id, st.requests[id], w)
  }

  class Service {
    var requests: map<nat, Request>
    var transitions: seq<TransitionRow>
    var timeline: seq<TimelineRow>
    var monitors: map<nat, Monitor>
    var reservations: seq<Reservation>

    ghost function Db(): Store reads this { Store(requests, transitions, timeline, monitors, reservations) }

    /** A key seen before for the tenant replays the earlier request. The empty key is never looked up,
        but it is stored, so a second one runs into the unique index. */
    method CreateRequest(id: nat, input: Input) returns (r: Result<CreatedRequest, Failure>)
      requires KeysUnique(requests)
      modifies this`requests, this`timeline
      ensures KeysUnique(requests)
      ensures r.Ok? && !r.value.replayed ==>
                r.value == CreatedRequest(id, Created, false) && id !in old(requests)
                && Db() == InsertRequest(old(Db()), id, input)
      ensures r.Err? || r.value.replayed ==> Db() == old(Db())
      ensures r.Ok? && !r.value.replayed ==> CreatedByColumns(old(Db()), id, input, Db())
      ensures r.Ok? && r.value.replayed <==>
                && input.idempotencyKey.Some? && input.idempotencyKey.value != ""
                && exists k :: k in old(requests) && old(requests)[k].tenant == input.tenant
                               && old(requests)[k].idempotencyKey == input.idempotencyKey
      ensures r.Ok? && r.value.replayed ==>
                r.value.id in requests && HasKey(requests[r.value.id], input.tenant, input.idempotencyKey)
                && r.value.status == requests[r.value.id].status && input.idempotencyKey != Some("")
      ensures r.Ok? && r.value.replayed <==>
                KeyTaken(old(requests), input.tenant, input.idempotencyKey) && input.idempotencyKey != Some("")
      ensures r.Err? <==>
                && (id in old(requests) || KeyTaken(old(requests), input.tenant, input.idempotencyKey))
                && !(KeyTaken(old(requests), input.tenant, input.idempotencyKey) && input.idempotencyKey != Some(""))
    {
      ghost var before := requests;
      if input.idempotencyKey.Some? && input.idempotencyKey.value != "" {
        var hits := set k | k in requests && HasKey(requests[k], input.tenant, input.idempotencyKey);
        if hits != {} {
          var k :| k in hits;
          return Ok(CreatedRequest(k, requests[k].status, true));
        }
        assert forall k :: k in requests && HasKey(requests[k], input.tenant, input.idempotencyKey) ==> k in hits;
      }
      var clash := set k | k in requests && HasKey(requests[k], input.tenant, input.idempotencyKey);
      if id in requests || clash != {} {
        if id !in requests {
          var k :| k in clash;
          assert k in before && HasKey(before[k], input.tenant, input.idempotencyKey);
        }
        return Err(UniqueViolation);
      }
      assert forall k :: k in requests && HasKey(requests[k], input.tenant, input.idempotencyKey) ==> k in clash;
      requests := requests[id := NewRequest(input)];
      timeline := timeline + [TimelineRow(input.tenant, id, RequestPhase, None, Created, [])];
      return Ok(CreatedRequest(id, Created, false));
    }

    /** Lock, check, write, log, check again; a violation found after the writes rolls all of them back. */
    method Transition(id: nat, tenant: nat, to: BookingState, reason: string, now: int)
        returns (r: Result<BookingState, Failure>)
      modifies this`requests, this`transitions, this`timeline
      ensures
        var spec := TransitionStore(old(Db()), id, tenant, to, reason, now);
        if spec.Ok? then r == Ok(to) && Db() == spec.value else r == Err(spec.error) && Db() == old(Db())
      ensures AnsweredByColumns(old(Db()), id, tenant, to, r)
      ensures if r.Ok? then MovedByColumns(old(Db()), id, to, reason, now, Db()) else Db() == old(Db())
    {
      AnswerReadsColumns(Db(), id, tenant, to, reason, now);
      hide AnsweredByColumns, MovedByColumns;
      hide TransitionsFrom, AssertTransition;
      if id !in requests || requests[id].tenant != tenant { return Err(NotFound); }
      var from := requests[id].status;
      var check := AssertTransition(from, to);
      if check.Err? { return Err(IllegalTransition(check.error)); }
      var (savedRequests, savedTransitions, savedTimeline) := (requests, transitions, timeline);
      requests := requests[id := Moved(requests[id], to, reason, now)];
      transitions := transitions + [TransitionRow(tenant, id, from, to, reason)];
      var effects := SideEffectsFor(from, to);
      var phase := if to == Booked then CompletePhase else StatePhase;
      timeline := timeline + [TimelineRow(tenant, id, phase, Some(from), to, effects)];
      var violations := CheckInvariants(to, LiveOnly(LiveReservations(reservations, tenant, id)));
      OnlyLiveReservationsCanFail(to, LiveReservations(reservations, tenant, id));
      if violations != [] {
        requests, transitions, timeline := savedRequests, savedTransitions, savedTimeline;
        return Err(InvariantViolated(violations));
      }
      return Ok(to);
    }

    /** The four statements for one row of the auto-cancel. */
    method CancelRow(id: nat, w: Winner, now: int)
      requires id in requests
      modifies this`requests, this`transitions, this`timeline, this`monitors
      ensures Db() == CancelOne(old(Db()), id, w, now)
      ensures id in requests && requests[id].status == Cancelled && requests[id].cancelReason == Some(AUTO_CANCELLED)
      ensures requests == old(requests)[id := requests[id]] && reservations == old(reservations)
      ensures transitions == old(transitions) + [CancelLogRow(old(Db()), id, w)]
    {
      var from := requests[id].status;
      requests := requests[id := requests[id].(status := Cancelled, canceledAt := Some(now),
          cancelReason := Some(AUTO_CANCELLED))];
      transitions := transitions + [TransitionRow(w.tenant, id, from, Cancelled, AUTO_CANCELLED)];
      timeline := timeline + [TimelineRow(w.tenant, id, StatePhase, Some(from), Cancelled, [])];
      monitors := StopMonitors(monitors, w.tenant, id);
    }

    /** Cancels every targeted request once, in the order the database returns the rows. */
    method CancelLowerPriorities(w: Winner, now: int) returns (cancelled: seq<nat>)
      modifies this`requests, this`transitions, this`timeline, this`monitors
      ensures ListsTargets(cancelled, old(Db()), w)
      ensures Db() == CancelAll(old(Db()), cancelled, w, now)
      ensures AutoCancelledByColumns(old(Db()), w, now, cancelled, Db())
    {
      hide TransitionsFrom, CancelAll, CancelOne, Matches, CancelLogRow, AutoCancelledByColumns;
      ghost var before := Db();
      var rows := set id | id in requests && Matches(id, requests[id], w);
      cancelled := [];
      CancelAllNone(before, w, now);
      while rows != {}
        invariant SortedOut(before, rows, cancelled, w)
        invariant Db() == CancelAll(before, cancelled, w, now)
        decreases rows
      {
        var id :| id in rows;
        CancelAllRequests(before, cancelled, w, now);
        var from := requests[id].status;
        rows := rows - {id};
        if from in {Scheduled, Queued, Searching, Waiting, Available, Created, Validating} {
          CancelAllSnoc(before, cancelled, id, w, now);
          CancelRow(id, w, now);
          cancelled := cancelled + [id];
        }
      }
      AutoCancelReadsColumns(before, cancelled, w, now);
    }
  }

  // ------------------------------------------------------------------ choosing a result

  datatype ResultRow = ResultRow(tenant: nat, request: nat, selected: bool)

  /** The composite foreign key on results. */
  ghost predicate OneTenantPerRequest(results: map<nat, ResultRow>) {
    forall i, j | i in results && j in results ::
        results[i].request == results[j].request ==> results[i].tenant == results[j].tenant
  }

  /** The partial unique index on selected results. */
  ghost predicate OneSelectedPerRequest(results: map<nat, ResultRow>) {
    forall i, j | i in results && j in results && results[i].selected && results[j].selected ::
      results[i].request == results[j].request ==> i == j
  }

  class ResultTable {
    var results: map<nat, ResultRow>

    /** Selecting makes the result the only selected one of its request, or changes nothing. */
    method SelectResult(tenant: nat, request: nat, id: nat) returns (r: Result<nat, Failure>)
      requires OneTenantPerRequest(results)
      modifies this
      ensures r == if id in old(results) && old(results)[id].tenant == tenant && old(results)[id].request == request
                   then Ok(id) else Err(NotFound)
      ensures r.Err? ==> results == old(results)
      ensures r.Ok? ==>
                results == map k | k in old(results) ::
                  if old(results)[k].request == request then old(results)[k].(selected := k == id) else old(results)[k]
      ensures old(OneSelectedPerRequest(results)) ==> OneSelectedPerRequest(results)
    {
      var saved := results;
      results := map k | k in results ::
        if results[k].tenant == tenant && results[k].request == request && results[k].selected
        then results[k].(selected := false) else results[k];
      if id in results && results[id].tenant == tenant && results[id].request == request {
        results := results[id := results[id].(selected := true)];
        return Ok(id);
      }
      results := saved;
      return Err(NotFound);
    }
  }

  /** `rows` are still to be looked at; of the others, `cancelled` are the targeted ones. */
  ghost predicate SortedOut(before: Store, rows: set<nat>, cancelled: seq<nat>, w: Winner) {
    && NoDuplicates(cancelled)
    && (forall id :: id in rows ==> id in before.requests && Matches(id, before.requests[id], w) && id !in cancelled)
    && (forall id :: id in cancelled ==> id in before.requests && Targeted(id, before.requests[id], w))
    && (forall id :: id in before.requests && Targeted(id, before.requests[id], w) ==> id in rows || id in cancelled)
  }

  // ------------------------------------------------------------------ what an auto-cancel does

  lemma {:induction false} CancelAllRequests(st: Store, ids: seq<nat>, w: Winner, now: int)
    requires NoDuplicates(ids) && forall id :: id in ids ==> id in st.requests
    ensures
      var after := CancelAll(st, ids, w, now);
      && after.reservations == st.reservations
      && forall id :: id in st.requests ==>
           after.requests[id] == if id in ids then CancelledRequest(st.requests[id], now) else st.requests[id]
  {
    if ids == [] {
    } else {
      var n := |ids| - 1;
      CancelAllRequests(st, ids[..n], w, now);
      assert ids == ids[..n] + [ids[n]];
    }
  }

  lemma {:induction false} CancelAllMonitors(st: Store, ids: seq<nat>, w: Winner, now: int)
    requires forall id :: id in ids ==> id in st.requests
    ensures
      var after := CancelAll(st, ids, w, now).monitors;
      && after.Keys == st.monitors.Keys
      && forall m :: m in st.monitors ==>
           after[m] == if st.monitors[m].tenant == w.tenant && st.monitors[m].request in ids
               && st.monitors[m].status == ActiveMonitor
                       then st.monitors[m].(status := CanceledMonitor) else st.monitors[m]
  {
    if ids == [] {
    } else {
      var n := |ids| - 1;
      CancelAllMonitors(st, ids[..n], w, now);
      assert ids == ids[..n] + [ids[n]];
    }
  }

  function CancelLogRow(st: Store, id: nat, w: Winner): TransitionRow
    requires id in st.requests
  {
    TransitionRow(w.tenant, id, st.requests[id].status, Cancelled, AUTO_CANCELLED)
  }

  /** The log rows of an auto-cancel, in the order of its requests. */
  function CancelLogRows(st: Store, ids: seq<nat>, w: Winner): (r: seq<TransitionRow>)
    requires forall id :: id in ids ==> id in st.requests
    ensures |r| == |ids| && forall i :: 0 <= i < |ids| ==> r[i] == CancelLogRow(st, ids[i], w)
  {
    seq(|ids|, i requires 0 <= i < |ids| => CancelLogRow(st, ids[i], w))
  }

  lemma {:induction false} CancelAllLog(st: Store, ids: seq<nat>, w: Winner, now: int)
    requires NoDuplicates(ids) && forall id :: id in ids ==> id in st.requests
    ensures CancelAll(st, ids, w, now).transitions == st.transitions + CancelLogRows(st, ids, w)
  {
    if ids == [] {
      CancelAllNone(st, w, now);
      assert st.transitions + CancelLogRows(st, [], w) == st.transitions;
    } else {
      var n := |ids| - 1;
      CancelAllLog(st, ids[..n], w, now);
      CancelAllRequests(st, ids[..n], w, now);
      CancelAllLast(st, ids, w, now);
      CancelOneLogs(CancelAll(st, ids[..n], w, now), ids[n], w, now);
      assert ids[n] !in ids[..n];
      hide CancelAll, CancelOne;
      assert CancelLogRows(st, ids, w) == CancelLogRows(st, ids[..n], w) + [CancelLogRow(st, ids[n], w)];
    }
  }

  lemma CancelOneLogs(st: Store, id: nat, w: Winner, now: int)
    requires id in st.requests
    ensures CancelOne(st, id, w, now).transitions == st.transitions + [CancelLogRow(st, id, w)]
  {
  }

  lemma CancelAllLast(st: Store, ids: seq<nat>, w: Winner, now: int)
    requires ids != [] && forall id :: id in ids ==> id in st.requests
    ensures
      var n := |ids| - 1;
      CancelAll(st, ids, w, now) == CancelOne(CancelAll(st, ids[..n], w, now), ids[n], w, now)
  {
  }

  /** One row in the timeline for each, in order. */
  ghost predicate CancellationsShown(before: Store, w: Winner, cancelled: seq<nat>, lines: seq<TimelineRow>)
    requires forall id :: id in cancelled ==> id in before.requests
  {
    && |lines| == |before.timeline| + |cancelled| && before.timeline <= lines
    && forall i :: 0 <= i < |cancelled| ==>
         lines[|before.timeline| + i]
         == TimelineRow(w.tenant, cancelled[i], StatePhase, Some(before.requests[cancelled[i]].status), Cancelled, [])
  }

  lemma {:induction false} CancelAllTimeline(st: Store, ids: seq<nat>, w: Winner, now: int)
    requires NoDuplicates(ids) && forall id :: id in ids ==> id in st.requests
    ensures CancellationsShown(st, w, ids, CancelAll(st, ids, w, now).timeline)
  {
    if ids == [] {
      CancelAllNone(st, w, now);
    } else {
      var n := |ids| - 1;
      CancelAllTimeline(st, ids[..n], w, now);
      CancelAllRequests(st, ids[..n], w, now);
      CancelAllLast(st, ids, w, now);
      var before := CancelAll(st, ids[..n], w, now);
      CancelOneLines(before, ids[n], w, now);
      assert ids[n] !in ids[..n];
      hide CancelAll, CancelOne;
    }
  }

  lemma CancelOneLines(st: Store, id: nat, w: Winner, now: int)
    requires id in st.requests
    ensures CancelOne(st, id, w, now).timeline
         == st.timeline + [TimelineRow(w.tenant, id, StatePhase, Some(st.requests[id].status), Cancelled, [])]
  {
  }

  // --- the same, read off the columns

  /** Another request of the winner's user on the same journey, less urgent by its larger number, that is neither
      finished nor already locked for booking or charged. */
  ghost predicate LowerPriority(id: nat, r: Request, w: Winner) {
    && id != w.request && r.tenant == w.tenant && r.user == w.user
    && r.origin == w.origin && r.destination == w.destination && w.priority < r.priority
    && r.status != Booked && r.status != Failed && r.status != Expired && r.status != Cancelled
    && r.status != Locked && !HoldsCharge(r.status)
  }

  ghost predicate RowsCancelled(before: Store, now: int, cancelled: seq<nat>, after: Store) {
    && after.requests.Keys == before.requests.Keys
    && forall id :: id in before.requests ==>
         after.requests[id] == if id !in cancelled then before.requests[id]
           else before.requests[id].(status := Cancelled, canceledAt := Some(now),
                                     cancelReason := Some("auto_cancelled_lower_priority"))
  }

  ghost predicate MonitorsStopped(before: Store, w: Winner, cancelled: seq<nat>, after: Store) {
    && after.monitors.Keys == before.monitors.Keys
    && forall m :: m in before.monitors ==>
         var monitor := before.monitors[m];
         after.monitors[m] == if monitor.tenant == w.tenant && monitor.request in cancelled
                                 && monitor.status == ActiveMonitor
                              then monitor.(status := CanceledMonitor) else monitor
  }

  /** And one in the transition log. */
  ghost predicate CancellationsLogged(before: Store, w: Winner, cancelled: seq<nat>, log: seq<TransitionRow>)
    requires forall id :: id in cancelled ==> id in before.requests
  {
    && |log| == |before.transitions| + |cancelled| && before.transitions <= log
    && forall i :: 0 <= i < |cancelled| ==>
         log[|before.transitions| + i]
         == TransitionRow(w.tenant, cancelled[i], before.requests[cancelled[i]].status, Cancelled,
                          "auto_cancelled_lower_priority")
  }

  ghost predicate AutoCancelledByColumns(before: Store, w: Winner, now: int, cancelled: seq<nat>, after: Store) {
    && NoDuplicates(cancelled)
    && (forall id :: id in cancelled <==> id in before.requests && LowerPriority(id, before.requests[id], w))
    && RowsCancelled(before, now, cancelled, after) && MonitorsStopped(before, w, cancelled, after)
    && CancellationsLogged(before, w, cancelled, after.transitions)
    && CancellationsShown(before, w, cancelled, after.timeline) && after.reservations == before.reservations
  }

  lemma TargetsReadColumns(id: nat, r: Request, w: Winner)
    ensures Targeted(id, r, w) <==> LowerPriority(id, r, w)
  {
  }

  lemma RowsReadColumns(st: Store, ids: seq<nat>, w: Winner, now: int)
    requires NoDuplicates(ids) && forall id :: id in ids ==> id in st.requests
    ensures RowsCancelled(st, now, ids, CancelAll(st, ids, w, now))
  {
    CancelAllRequests(st, ids, w, now);
    hide CancelAll;
  }

  lemma LogReadsColumns(st: Store, ids: seq<nat>, w: Winner, log: seq<TransitionRow>)
    requires forall id :: id in ids ==> id in st.requests
    requires log == st.transitions + CancelLogRows(st, ids, w)
    ensures CancellationsLogged(st, w, ids, log)
  {
    forall i | 0 <= i < |ids| ensures log[|st.transitions| + i] == CancelLogRow(st, ids[i], w) {}
  }

  lemma AutoCancelReadsColumns(st: Store, ids: seq<nat>, w: Winner, now: int)
    requires ListsTargets(ids, st, w)
    ensures AutoCancelledByColumns(st, w, now, ids, CancelAll(st, ids, w, now))
  {
    RowsReadColumns(st, ids, w, now);
    CancelAllLog(st, ids, w, now);
    LogReadsColumns(st, ids, w, CancelAll(st, ids, w, now).transitions);
    CancelAllTimeline(st, ids, w, now);
    CancelAllMonitors(st, ids, w, now);
    CancelAllRequests(st, ids, w, now);
    hide CancelAll, RowsCancelled, CancellationsLogged, CancelLogRows;
    forall id | id in st.requests
      ensures Targeted(id, st.requests[id], w) <==> LowerPriority(id, st.requests[id], w)
    {
      TargetsReadColumns(id, st.requests[id], w);
    }
    hide Targeted, LowerPriority;
  }

  lemma ListedMeansTargeted(ids: seq<nat>, st: Store, w: Winner)
    requires forall id :: id in ids ==> id in st.requests && Targeted(id, st.requests[id], w)
    ensures ids != [] ==> exists id :: id in st.requests && Targeted(id, st.requests[id], w)
  {
    if ids != [] { assert ids[0] in ids; }
  }

  /** Exactly the targeted requests are cancelled, with exactly their active monitors; everything else is
      untouched, every logged move is an edge, and a second call finds nothing to do. */
  lemma AutoCancelIsExact(st: Store, ids: seq<nat>, w: Winner, now: int)
    requires ListsTargets(ids, st, w)
    ensures
      var after := CancelAll(st, ids, w, now);
      && (forall id :: id in st.requests ==>
            after.requests[id] == if Targeted(id, st.requests[id], w)
                then CancelledRequest(st.requests[id], now) else st.requests[id])
      && (forall m :: m in st.monitors ==>
            var q := st.monitors[m];
            m in after.monitors &&
            after.monitors[m] == if q.tenant == w.tenant && q.status == ActiveMonitor && q.request in st.requests
                                    && Targeted(q.request, st.requests[q.request], w)
                                 then q.(status := CanceledMonitor) else q)
      && after.reservations == st.reservations && after.monitors.Keys == st.monitors.Keys
    ensures
      var log := CancelAll(st, ids, w, now).transitions;
      var n := |st.transitions|;
      |log| == n + |ids| && log[..n] == st.transitions
      && forall i :: 0 <= i < |ids| ==> log[n + i].request == ids[i] && Edge(log[n + i].from, log[n + i].to)
    ensures forall again :: ListsTargets(again, CancelAll(st, ids, w, now), w) ==> again == []
  {
    CancelAllRequests(st, ids, w, now);
    CancelAllMonitors(st, ids, w, now);
    CancelAllLog(st, ids, w, now);
    var after := CancelAll(st, ids, w, now);
    forall i | 0 <= i < |ids| ensures Edge(st.requests[ids[i]].status, Cancelled) {
      assert ids[i] in ids;
    }
    forall again | ListsTargets(again, after, w) ensures again == [] {
      ListedMeansTargeted(again, after, w);
    }
  }

  // ------------------------------------------------------------------ runs of the service

  datatype Step =
    | CreateStep(id: nat, input: Input)
    | TransitionStep(id: nat, tenant: nat, to: BookingState, reason: string, now: int)
    | AutoCancelStep(w: Winner, order: seq<nat>, now: int)
    | ReservationsStep(reservations: seq<Reservation>)
    | MonitorsStep(monitors: map<nat, Monitor>)

  /** One committed call; calls that fail leave no trace. Reservations and monitors change elsewhere too. */
  ghost function Apply(st: Store, step: Step): Store {
    match step
    case CreateStep(id, input) => if id in st.requests then st else InsertRequest(st, id, input)
    case TransitionStep(id, tenant, to, reason, now) =>
      var r := TransitionStore(st, id, tenant, to, reason, now);
      if r.Ok? then r.value else st
    case AutoCancelStep(w, order, now) => if ListsTargets(order, st, w) then CancelAll(st, order, w, now) else st
    case ReservationsStep(rs) => st.(reservations := rs)
    case MonitorsStep(ms) => st.(monitors := ms)
  }

  ghost function Run(st: Store, steps: seq<Step>): Store {
    if steps == [] then st else Apply(Run(st, steps[..|steps| - 1]), steps[|steps| - 1])
  }

  ghost function Empty(): Store { Store(map[], [], [], map[], []) }

  /** The states a request went through according to its log rows. */
  function StatesLogged(log: seq<TransitionRow>, id: nat): (p: seq<BookingState>)
    ensures p != []
  {
    if log == [] then [Created]
    else
      var n := |log| - 1;
      StatesLogged(log[..n], id) + (if log[n].request == id then [log[n].to] else [])
  }

  /** Each log row starts where the request's previous row ended. */
  ghost predicate Chained(log: seq<TransitionRow>, id: nat) {
    log == [] ||
    var n := |log| - 1;
    var before := StatesLogged(log[..n], id);
    Chained(log[..n], id) && (log[n].request == id ==> log[n].from == before[|before| - 1])
  }

  function TimelineRows(timeline: seq<TimelineRow>, id: nat): nat {
    if timeline == [] then 0
    else TimelineRows(timeline[..|timeline| - 1], id) + (if timeline[|timeline| - 1].request == id then 1 else 0)
  }

  /** The log of a request is a history through the table that ends in its status; the timeline has one
      row more than the log; the cancellation time is set exactly for cancelled requests. */
  ghost predicate RequestOk(st: Store, id: nat)
    requires id in st.requests
  {
    var p := StatesLogged(st.transitions, id);
    var r := st.requests[id];
    && IsHistory(p) && p[|p| - 1] == r.status && Chained(st.transitions, id)
    && TimelineRows(st.timeline, id) == |p|
    && (r.canceledAt.Some? <==> r.status == Cancelled)
    && (r.completedAt.Some? ==> IsTerminal(r.status))
    && (r.status in {Booked, Failed, Expired} ==> r.completedAt.Some?)
  }

  ghost predicate RequestsOk(st: Store) { forall id :: id in st.requests ==> RequestOk(st, id) }

  ghost predicate LogsReferToRequests(st: Store) {
    && (forall x :: x in st.transitions ==> x.request in st.requests)
    && (forall x :: x in st.timeline ==> x.request in st.requests)
  }

  ghost predicate Inv(st: Store) { RequestsOk(st) && LogsReferToRequests(st) }

  lemma SilentLogs(st: Store, id: nat)
    requires LogsReferToRequests(st) && id !in st.requests
    ensures StatesLogged(st.transitions, id) == [Created] && Chained(st.transitions, id)
        && TimelineRows(st.timeline, id) == 0
  {
    SilentTransitions(st.transitions, id);
    SilentTimeline(st.timeline, id);
  }

  lemma {:induction false} SilentTransitions(log: seq<TransitionRow>, id: nat)
    requires forall x :: x in log ==> x.request != id
    ensures StatesLogged(log, id) == [Created] && Chained(log, id)
  {
    if log == [] {
    } else {
      SilentTransitions(log[..|log| - 1], id);
    }
  }

  lemma {:induction false} SilentTimeline(timeline: seq<TimelineRow>, id: nat)
    requires forall x :: x in timeline ==> x.request != id
    ensures TimelineRows(timeline, id) == 0
  {
    if timeline == [] {
    } else {
      SilentTimeline(timeline[..|timeline| - 1], id);
    }
  }

  lemma NewRequestOk(st: Store, id: nat, input: Input)
    requires LogsReferToRequests(st) && id !in st.requests
    ensures RequestOk(InsertRequest(st, id, input), id)
  {
    var st' := InsertRequest(st, id, input);
    SilentLogs(st, id);
    hide StatesLogged, Chained, LogsReferToRequests;
    assert st'.timeline[..|st.timeline|] == st.timeline;
  }

  lemma OldRequestOk(st: Store, id: nat, input: Input, other: nat)
    requires other in st.requests && other != id && RequestOk(st, other)
    ensures RequestOk(InsertRequest(st, id, input), other)
  {
    var st' := InsertRequest(st, id, input);
    hide StatesLogged, Chained, IsHistory;
    assert st'.timeline[..|st.timeline|] == st.timeline;
  }

  lemma CreateKeepsInv(st: Store, id: nat, input: Input)
    requires Inv(st) && id !in st.requests
    ensures Inv(InsertRequest(st, id, input))
  {
    var st' := InsertRequest(st, id, input);
    hide RequestOk;
    NewRequestOk(st, id, input);
    forall other | other in st'.requests ensures RequestOk(st', other) {
      if other != id { OldRequestOk(st, id, input, other); }
    }
  }

  /** `row` and `line` are what was logged for moving `id` along an edge. */
  ghost predicate LoggedMove(st: Store, st': Store, id: nat, row: TransitionRow, line: TimelineRow) {
    && id in st.requests && st'.requests.Keys == st.requests.Keys
    && (forall other :: other in st.requests && other != id ==> st'.requests[other] == st.requests[other])
    && row.request == id && line.request == id
    && row.from == st.requests[id].status && row.to == st'.requests[id].status && Edge(row.from, row.to)
    && st'.transitions == st.transitions + [row] && st'.timeline == st.timeline + [line]
    && (st'.requests[id].canceledAt.Some? <==> row.to == Cancelled)
    && (st'.requests[id].completedAt.Some? ==> IsTerminal(row.to))
    && (row.to in {Booked, Failed, Expired} ==> st'.requests[id].completedAt.Some?)
  }

  lemma LogAfterMove(st: Store, st': Store, id: nat, row: TransitionRow, line: TimelineRow, other: nat)
    requires LoggedMove(st, st', id, row, line)
    ensures StatesLogged(st'.transitions, other)
         == StatesLogged(st.transitions, other) + (if other == id then [row.to] else [])
    ensures TimelineRows(st'.timeline, other) == TimelineRows(st.timeline, other) + (if other == id then 1 else 0)
    ensures Chained(st'.transitions, other) <==>
            Chained(st.transitions, other)
            && (other == id ==> row.from == StatesLogged(st.transitions, id)[|StatesLogged(st.transitions, id)| - 1])
  {
    hide Edge, IsTerminal;
    assert st'.transitions[..|st.transitions|] == st.transitions;
    assert st'.timeline[..|st.timeline|] == st.timeline;
  }

  lemma HistoryGrows(p: seq<BookingState>, to: BookingState)
    requires IsHistory(p) && Edge(p[|p| - 1], to)
    ensures IsHistory(p + [to])
  {
    hide Edge;
    var q := p + [to];
    assert forall i :: 0 <= i < |p| ==> q[i] == p[i];
  }

  lemma MovedRequestOk(st: Store, st': Store, id: nat, row: TransitionRow, line: TimelineRow)
    requires LoggedMove(st, st', id, row, line) && RequestOk(st, id)
    ensures RequestOk(st', id)
  {
    hide StatesLogged, TimelineRows, Chained, IsHistory, Edge;
    LogAfterMove(st, st', id, row, line, id);
    HistoryGrows(StatesLogged(st.transitions, id), row.to);
  }

  lemma OtherRequestOk(st: Store, st': Store, id: nat, row: TransitionRow, line: TimelineRow, other: nat)
    requires LoggedMove(st, st', id, row, line) && other in st.requests && other != id && RequestOk(st, other)
    ensures RequestOk(st', other)
  {
    hide StatesLogged, TimelineRows, Chained, IsHistory, Edge;
    LogAfterMove(st, st', id, row, line, other);
    var p := StatesLogged(st.transitions, other);
    assert p + [] == p;
  }

  /** Moving one request along an edge and logging it once keeps everything in step. */
  lemma LoggedMoveKeepsInv(st: Store, st': Store, id: nat, row: TransitionRow, line: TimelineRow)
    requires Inv(st) && LoggedMove(st, st', id, row, line)
    ensures Inv(st')
  {
    hide Edge, StatesLogged, TimelineRows, Chained, IsHistory, RequestOk;
    forall other | other in st'.requests ensures RequestOk(st', other) {
      if other == id { MovedRequestOk(st, st', id, row, line); } else { OtherRequestOk(st, st', id, row, line, other); }
    }
  }

  lemma MoveKeepsInv(st: Store, id: nat, tenant: nat, to: BookingState, reason: string, now: int)
    requires Inv(st)
    ensures
      var r := TransitionStore(st, id, tenant, to, reason, now);
      r.Ok? ==> Inv(r.value)
  {
    hide Inv, MovedStore, TransitionsFrom, AssertTransition, Edge, LiveReservations;
    var r := TransitionStore(st, id, tenant, to, reason, now);
    if r.Ok? {
      AcceptedIffEdge(st.requests[id].status, to);
      AcceptedMoveKeepsInv(st, id, to, reason, now);
    }
  }

  lemma MovedStamps(r: Request, to: BookingState, reason: string, now: int)
    requires r.canceledAt.Some? <==> r.status == Cancelled
    requires r.completedAt.Some? ==> IsTerminal(r.status)
    requires Edge(r.status, to)
    ensures
      var moved := Moved(r, to, reason, now);
      && moved.status == to
      && (moved.canceledAt.Some? <==> to == Cancelled)
      && (moved.completedAt.Some? ==> IsTerminal(to))
      && (to in {Booked, Failed, Expired} ==> moved.completedAt.Some?)
  {
    TerminalHasNoEdge(r.status, to);
    hide Edge;
  }

  function MoveRow(st: Store, id: nat, to: BookingState, reason: string): TransitionRow
    requires id in st.requests
  {
    TransitionRow(st.requests[id].tenant, id, st.requests[id].status, to, reason)
  }

  function MoveLine(st: Store, id: nat, to: BookingState): TimelineRow
    requires id in st.requests
  {
    var r := st.requests[id];
    TimelineRow(r.tenant, id, if to == Booked then CompletePhase else StatePhase, Some(r.status), to,
                MergedEffects(TransitionsFrom(r.status), to))
  }

  lemma MovedIsLogged(st: Store, id: nat, to: BookingState, reason: string, now: int)
    requires id in st.requests && Edge(st.requests[id].status, to)
    requires st.requests[id].canceledAt.Some? <==> st.requests[id].status == Cancelled
    requires st.requests[id].completedAt.Some? ==> IsTerminal(st.requests[id].status)
    ensures LoggedMove(st, MovedStore(st, id, to, reason, now), id, MoveRow(st, id, to, reason), MoveLine(st, id, to))
  {
    MovedStamps(st.requests[id], to, reason, now);
    hide Edge, MergedEffects, TransitionsFrom, Moved, IsTerminal;
  }

  lemma AcceptedMoveKeepsInv(st: Store, id: nat, to: BookingState, reason: string, now: int)
    requires Inv(st) && id in st.requests && Edge(st.requests[id].status, to)
    ensures Inv(MovedStore(st, id, to, reason, now))
  {
    CancelledIffStamped(st, id);
    hide *;
    MovedIsLogged(st, id, to, reason, now);
    LoggedMoveKeepsInv(st, MovedStore(st, id, to, reason, now), id, MoveRow(st, id, to, reason), MoveLine(st, id, to));
  }

  lemma CancelledIffStamped(st: Store, id: nat)
    requires RequestsOk(st) && id in st.requests
    ensures st.requests[id].canceledAt.Some? <==> st.requests[id].status == Cancelled
    ensures st.requests[id].completedAt.Some? ==> IsTerminal(st.requests[id].status)
  {
    assert RequestOk(st, id);
  }

  lemma CancelOneKeepsInv(st: Store, id: nat, w: Winner, now: int)
    requires Inv(st) && id in st.requests && AutoCancellable(st.requests[id].status)
    ensures Inv(CancelOne(st, id, w, now))
  {
    hide RequestOk;
    CancelledIffStamped(st, id);
    var st' := CancelOne(st, id, w, now);
    LoggedMoveKeepsInv(st, st', id, st'.transitions[|st.transitions|], st'.timeline[|st.timeline|]);
  }

  lemma {:induction false} CancelAllKeepsInv(st: Store, ids: seq<nat>, w: Winner, now: int)
    requires Inv(st) && NoDuplicates(ids)
    requires forall id :: id in ids ==> id in st.requests && AutoCancellable(st.requests[id].status)
    ensures Inv(CancelAll(st, ids, w, now))
  {
    if ids == [] {
    } else {
      var n := |ids| - 1;
      CancelAllKeepsInv(st, ids[..n], w, now);
      CancelAllRequests(st, ids[..n], w, now);
      CancelOneKeepsInv(CancelAll(st, ids[..n], w, now), ids[n], w, now);
    }
  }

  lemma StepKeepsInv(st: Store, step: Step)
    requires Inv(st)
    ensures Inv(Apply(st, step))
  {
    hide RequestOk, TransitionStore, InsertRequest;
    match step
    case CreateStep(id, input) => if id !in st.requests { CreateKeepsInv(st, id, input); }
    case TransitionStep(id, tenant, to, reason, now) => MoveKeepsInv(st, id, tenant, to, reason, now);
    case AutoCancelStep(w, order, now) => if ListsTargets(order, st, w) { CancelAllKeepsInv(st, order, w, now); }
    case ReservationsStep(rs) => SameLogs(st, st.(reservations := rs));
    case MonitorsStep(ms) => SameLogs(st, st.(monitors := ms));
  }

  lemma SameLogs(st: Store, st': Store)
    requires Inv(st)
    requires st'.requests == st.requests && st'.transitions == st.transitions && st'.timeline == st.timeline
    ensures Inv(st')
  {
    forall id | id in st'.requests ensures RequestOk(st', id) { assert RequestOk(st, id); }
  }

  /** After any sequence of calls, every request's log, status, timeline and stamps agree. */
  lemma {:induction false} LogAndStatusAgree(steps: seq<Step>)
    ensures Inv(Run(Empty(), steps))
  {
    if steps == [] {
    } else {
      LogAndStatusAgree(steps[..|steps| - 1]);
      StepKeepsInv(Run(Empty(), steps[..|steps| - 1]), steps[|steps| - 1]);
    }
  }

  /** What the log says is what the machine's theorems are about: charges are paired along it and it has
      at most 12 + 4r rows for r retries. */
  lemma LogsObeyTheMachine(steps: seq<Step>, id: nat)
    requires id in Run(Empty(), steps).requests
    ensures
      var st := Run(Empty(), steps);
      var p := StatesLogged(st.transitions, id);
      && IsHistory(p) && p[|p| - 1] == st.requests[id].status
      && OpenCharges(p) == (if HoldsCharge(st.requests[id].status) then 1 else 0)
      && |p| - 1 <= 12 + 4 * Retries(p)
  {
    hide Edge, OpenCharges, Retries, TransitionsFrom;
    LogAndStatusAgree(steps);
    var st := Run(Empty(), steps);
    assert RequestOk(st, id);
    hide Run;
    var p := StatesLogged(st.transitions, id);
    ChargesArePaired(p);
    HistoriesAreShort(p);
  }

  // --- terminal means final

  ghost predicate Finished(st: Store, id: nat, r: Request, log: seq<BookingState>) {
    id in st.requests && st.requests[id] == r && StatesLogged(st.transitions, id) == log
  }

  lemma {:induction false} CancelAllSparesFinished(st: Store, ids: seq<nat>, w: Winner, now: int, id: nat)
    requires forall x :: x in ids ==> x in st.requests
    requires id !in ids && id in st.requests
    ensures
      var after := CancelAll(st, ids, w, now);
      after.requests[id] == st.requests[id] && StatesLogged(after.transitions, id) == StatesLogged(st.transitions, id)
  {
    if ids == [] {
    } else {
      var n := |ids| - 1;
      CancelAllSparesFinished(st, ids[..n], w, now, id);
      var rest := CancelAll(st, ids[..n], w, now);
      var after := CancelOne(rest, ids[n], w, now);
      assert after.transitions[..|rest.transitions|] == rest.transitions;
      assert StatesLogged(rest.transitions, id) + [] == StatesLogged(rest.transitions, id);
    }
  }

  lemma StatesAfterAppend(log: seq<TransitionRow>, row: TransitionRow, id: nat)
    ensures StatesLogged(log + [row], id) == StatesLogged(log, id) + (if row.request == id then [row.to] else [])
  {
    assert (log + [row])[..|log|] == log;
  }

  /** A transition of another request, or a refused one, leaves a finished request alone. */
  lemma TransitionSparesFinished(st: Store, other: nat, tenant: nat, to: BookingState, reason: string, now: int,
                                 id: nat, r: Request, log: seq<BookingState>)
    requires Finished(st, id, r, log) && IsTerminal(r.status)
    ensures
      var next := TransitionStore(st, other, tenant, to, reason, now);
      next.Ok? ==> Finished(next.value, id, r, log)
  {
    AcceptedIffEdge(r.status, to);
    hide TransitionsFrom, AssertTransition, Edge, StatesLogged, Moved, MergedEffects, LiveReservations;
    if TransitionStore(st, other, tenant, to, reason, now).Ok? {
      var q := st.requests[other];
      StatesAfterAppend(st.transitions, TransitionRow(q.tenant, other, q.status, to, reason), id);
      assert other != id;
      assert log + [] == log;
    }
  }

  lemma StepSparesFinished(st: Store, step: Step, id: nat, r: Request, log: seq<BookingState>)
    requires Finished(st, id, r, log) && IsTerminal(r.status)
    ensures Finished(Apply(st, step), id, r, log)
  {
    hide TransitionStore, CancelAll, StatesLogged;
    match step
    case TransitionStep(other, tenant, to, reason, now) =>
      TransitionSparesFinished(st, other, tenant, to, reason, now, id, r, log);
    case AutoCancelStep(w, order, now) =>
      if ListsTargets(order, st, w) { CancelAllSparesFinished(st, order, w, now, id); }
    case CreateStep(_, _) =>
    case ReservationsStep(_) =>
    case MonitorsStep(_) =>
  }

  /** Once terminal, a request never changes again and nothing is appended to its log. */
  lemma {:induction false} TerminalIsFinal(st: Store, steps: seq<Step>, id: nat)
    requires id in st.requests && IsTerminal(st.requests[id].status)
    ensures Finished(Run(st, steps), id, st.requests[id], StatesLogged(st.transitions, id))
  {
    if steps == [] {
    } else {
      hide Apply;
      TerminalIsFinal(st, steps[..|steps| - 1], id);
      StepSparesFinished(Run(st, steps[..|steps| - 1]), steps[|steps| - 1], id, st.requests[id],
          StatesLogged(st.transitions, id));
    }
  }

  /** The completion time is the one stamp an auto-cancelled request never gets: unlike a request cancelled
      by `transition`, it is CANCELLED with no `completed_at`. */
  lemma AutoCancelLeavesCompletionUnset(st: Store, id: nat, w: Winner, now: int)
    requires Inv(st) && id in st.requests && AutoCancellable(st.requests[id].status)
    ensures CancelOne(st, id, w, now).requests[id].completedAt.None?
    ensures
      var r := TransitionStore(st.(reservations := []), id, st.requests[id].tenant, Cancelled, "", now);
      r.Ok? && r.value.requests[id].completedAt == Some(now)
  {
    hide TransitionsFrom;
    CancelledIffStamped(st, id);
    AcceptedIffEdge(st.requests[id].status, Cancelled);
  }

  // ------------------------------------------------------------------ a crash between insert and first line

  /** How many timeline rows a request has beyond the states its log shows. */
  function SurplusLines(st: Store, id: nat): int {
    TimelineRows(st.timeline, id) - |StatesLogged(st.transitions, id)|
  }

  lemma MoveKeepsSurplus(st: Store, row: TransitionRow, line: TimelineRow, id: nat)
    requires row.request == line.request
    ensures SurplusLines(st.(transitions := st.transitions + [row], timeline := st.timeline + [line]), id)
         == SurplusLines(st, id)
  {
    assert (st.transitions + [row])[..|st.transitions|] == st.transitions;
    assert (st.timeline + [line])[..|st.timeline|] == st.timeline;
  }

  lemma SurplusIsOfLogs(st: Store, other: Store, id: nat)
    requires st.transitions == other.transitions && st.timeline == other.timeline
    ensures SurplusLines(st, id) == SurplusLines(other, id)
  {
  }

  lemma CancelOneKeepsSurplus(st: Store, target: nat, w: Winner, now: int, id: nat)
    requires target in st.requests
    ensures SurplusLines(CancelOne(st, target, w, now), id) == SurplusLines(st, id)
  {
    hide SurplusLines;
    var after := CancelOne(st, target, w, now);
    var row, line := after.transitions[|st.transitions|], after.timeline[|st.timeline|];
    MoveKeepsSurplus(st, row, line, id);
    SurplusIsOfLogs(after, st.(transitions := st.transitions + [row], timeline := st.timeline + [line]), id);
  }

  lemma {:induction false} CancelAllKeepsSurplus(st: Store, ids: seq<nat>, w: Winner, now: int, id: nat)
    requires forall k :: k in ids ==> k in st.requests
    ensures SurplusLines(CancelAll(st, ids, w, now), id) == SurplusLines(st, id)
  {
    if ids == [] {
      CancelAllNone(st, w, now);
    } else {
      var n := |ids| - 1;
      CancelAllKeepsSurplus(st, ids[..n], w, now, id);
      CancelAllLast(st, ids, w, now);
      CancelOneKeepsSurplus(CancelAll(st, ids[..n], w, now), ids[n], w, now, id);
    }
  }

  lemma StepKeepsSurplus(st: Store, step: Step, id: nat)
    requires id in st.requests
    ensures id in Apply(st, step).requests && SurplusLines(Apply(st, step), id) == SurplusLines(st, id)
  {
    hide SurplusLines, TransitionStore, MovedStore, CancelAll;
    var after := Apply(st, step);
    match step
    case CreateStep(k, input) =>
      if k !in st.requests { InsertKeepsSurplus(st, k, input, id); }
    case TransitionStep(k, tenant, to, reason, now) =>
      if TransitionStore(st, k, tenant, to, reason, now).Ok? {
        TransitionKeepsSurplus(st, k, tenant, to, reason, now, id);
      }
    case AutoCancelStep(w, order, now) =>
      if ListsTargets(order, st, w) { CancelAllKeepsSurplus(st, order, w, now, id); }
    case _ => SurplusIsOfLogs(after, st, id);
  }

  lemma InsertKeepsSurplus(st: Store, k: nat, input: Input, id: nat)
    requires k != id
    ensures SurplusLines(InsertRequest(st, k, input), id) == SurplusLines(st, id)
  {
    var after := InsertRequest(st, k, input);
    assert after.timeline[..|st.timeline|] == st.timeline;
  }

  lemma TransitionKeepsSurplus(st: Store, k: nat, tenant: nat, to: BookingState, reason: string, now: int, id: nat)
    requires TransitionStore(st, k, tenant, to, reason, now).Ok?
    ensures
      var after := TransitionStore(st, k, tenant, to, reason, now).value;
      after.requests.Keys >= st.requests.Keys && SurplusLines(after, id) == SurplusLines(st, id)
  {
    hide SurplusLines, MergedEffects, TransitionsFrom, AssertTransition, LiveReservations, Moved;
    var after := MovedStore(st, k, to, reason, now);
    var row, line := MoveRow(st, k, to, reason), MoveLine(st, k, to);
    MoveKeepsSurplus(st, row, line, id);
    SurplusIsOfLogs(after, st.(transitions := st.transitions + [row], timeline := st.timeline + [line]), id);
  }

  lemma {:induction false} RunKeepsSurplus(st: Store, steps: seq<Step>, id: nat)
    requires id in st.requests
    ensures id in Run(st, steps).requests && SurplusLines(Run(st, steps), id) == SurplusLines(st, id)
  {
    hide SurplusLines, Apply;
    if steps == [] {
    } else {
      RunKeepsSurplus(st, steps[..|steps| - 1], id);
      StepKeepsSurplus(Run(st, steps[..|steps| - 1]), steps[|steps| - 1], id);
    }
  }

  /** `createRequest` inserts the row and appends its first timeline row in statements of their own. After a crash
      in between, no later run of the service ever writes that row: the timeline stays one short of the log. */
  lemma CrashedCreateStaysUnlogged(st: Store, id: nat, input: Input, steps: seq<Step>)
    requires LogsReferToRequests(st) && id !in st.requests
    ensures
      var after := Run(st.(requests := st.requests[id := NewRequest(input)]), steps);
      && id in after.requests && !RequestOk(after, id)
      && TimelineRows(after.timeline, id) == |StatesLogged(after.transitions, id)| - 1
  {
    SilentLogs(st, id);
    RunKeepsSurplus(st.(requests := st.requests[id := NewRequest(input)]), steps, id);
    hide Run, TimelineRows, StatesLogged, LogsReferToRequests;
  }
}
