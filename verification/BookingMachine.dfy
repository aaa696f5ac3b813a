/**
  * The booking state machine (packages/booking/src/state-machine.ts): the transition table, the side
  * effects of a transition, reachability, and what every history through the table has in common.
  */
module BookingMachine {
  import opened Prelude

  datatype BookingState =
    | Created | Validating | Scheduled | Queued | Searching | Waiting | Available | Locked | Reserving
    | HumanVerificationRequired | PassengerForm | ReadyForCheckout | AwaitingUserApproval | Reserved
    | Booked | Failed | Expired | Cancelled

  datatype Trigger =
    | Submit | Validated | ValidationFailed | Admitted | TickTrigger | NoMatch | Match | Lock | SubmitReservation
    | VerificationDetected | HumanCompleted | WindowExpired | FormRequired | HoldConfirmed | PassengersAccepted
    | AvailabilityLost | ApprovalRequired | AuthorizedReserve | UserApproved | Declined | HoldExpired
    | Ticketed | ProviderRejected | Deadline | Cancel

  datatype Effect =
    | Audit | Timeline | TimelineRequestCreated | TimelineMonitoringActivated | TimelineBookingLocked
    | TimelinePassengerData | TimelineVerificationCompleted | TimelineReservationSubmitted | TimelineReservationComplete
    | MonitorsCreate | MonitorsStop | MonitorsCancelLowerPriorities | MonitorNextSearchAt
    | QuotaIncrement | QuotaRelease
    | Notify | NotifyBookingFailure | NotifyBookingFailureSoft | NotifyBookingExpired | NotifyTicketFound
    | NotifyVerificationRequired | NotifyApprovalRequired | NotifyBookingSuccess
    | SearchJobCreate | AttemptCreate | AttemptReserving | ObservationRecord | Backoff | ResultsPersist | ResultsReject
    | FencingStore | Pause | PreserveContext | SlaStart | DeadlineSet | ReservationPersist | ProviderCancel
    | ChargeAuthorize | ReleaseCharge | ChargeRelease | ChargeSettle | LedgerRefund

  datatype Definition = Definition(to: BookingState, trigger: Trigger, sideEffects: seq<Effect>)

  /** The authoritative table; terminal states have no entries. */
  function TransitionsFrom(s: BookingState): seq<Definition> {
    match s
    case Created => [
      Definition(Validating, Submit, [TimelineRequestCreated, Audit]),
      Definition(Cancelled, Cancel, [MonitorsStop, Audit])]
    case Validating => [
      Definition(Scheduled, Validated, [MonitorsCreate, QuotaIncrement, Timeline]),
      Definition(Failed, ValidationFailed, [QuotaRelease, NotifyBookingFailure, Audit]),
      Definition(Cancelled, Cancel, [MonitorsStop, QuotaRelease, Audit])]
    case Scheduled => [
      Definition(Queued, Admitted, [MonitorNextSearchAt, Timeline]),
      Definition(Cancelled, Cancel, [MonitorsStop, Audit]),
      Definition(Expired, Deadline, [MonitorsStop, NotifyBookingExpired])]
    case Queued => [
      Definition(Searching, TickTrigger, [SearchJobCreate, AttemptCreate, TimelineMonitoringActivated]),
      Definition(Cancelled, Cancel, [MonitorsStop, Audit]),
      Definition(Expired, Deadline, [MonitorsStop, NotifyBookingExpired])]
    case Searching => [
      Definition(Waiting, NoMatch, [ObservationRecord, Backoff, Timeline]),
      Definition(Available, Match, [ResultsPersist, NotifyTicketFound, Timeline]),
      Definition(Cancelled, Cancel, [MonitorsStop, Audit]),
      Definition(Expired, Deadline, [MonitorsStop, NotifyBookingExpired])]
    case Waiting => [
      Definition(Searching, TickTrigger, [SearchJobCreate, AttemptCreate]),
      Definition(Cancelled, Cancel, [MonitorsStop, Audit]),
      Definition(Expired, Deadline, [MonitorsStop, NotifyBookingExpired])]
    case Available => [
      Definition(Locked, Lock, [FencingStore, TimelineBookingLocked, Audit]),
      Definition(Waiting, NoMatch, [ResultsReject, Timeline]),
      Definition(Expired, Deadline, [MonitorsStop, NotifyBookingExpired]),
      Definition(Cancelled, Cancel, [MonitorsStop, Audit])]
    case Locked => [
      Definition(Reserving, SubmitReservation, [ChargeAuthorize, AttemptReserving, Timeline]),
      Definition(Failed, ProviderRejected, [Timeline, Audit]),
      Definition(Cancelled, Cancel, [MonitorsStop, ReleaseCharge, Audit])]
    case Reserving => [
      Definition(HumanVerificationRequired, VerificationDetected,
                 [Pause, PreserveContext, NotifyVerificationRequired, SlaStart]),
      Definition(PassengerForm, FormRequired, [TimelinePassengerData]),
      Definition(Reserved, HoldConfirmed, [ReservationPersist, Timeline]),
      Definition(Failed, ProviderRejected, [ReleaseCharge, NotifyBookingFailure, Audit]),
      Definition(Cancelled, Cancel, [MonitorsStop, ReleaseCharge, Audit])]
    case HumanVerificationRequired => [
      Definition(Reserving, HumanCompleted, [TimelineVerificationCompleted]),
      Definition(Failed, WindowExpired, [ReleaseCharge, NotifyBookingFailure]),
      Definition(Cancelled, Cancel, [MonitorsStop, ReleaseCharge, Audit])]
    case PassengerForm => [
      Definition(ReadyForCheckout, PassengersAccepted, [Timeline]),
      Definition(Available, AvailabilityLost, [Backoff, ReleaseCharge, NotifyBookingFailureSoft]),
      Definition(Failed, ProviderRejected, [ReleaseCharge, Audit]),
      Definition(Cancelled, Cancel, [MonitorsStop, ReleaseCharge, Audit])]
    case ReadyForCheckout => [
      Definition(AwaitingUserApproval, ApprovalRequired, [NotifyApprovalRequired, DeadlineSet]),
      Definition(Reserved, AuthorizedReserve, [TimelineReservationSubmitted]),
      Definition(Failed, HoldExpired, [ReleaseCharge, NotifyBookingFailure]),
      Definition(Cancelled, Cancel, [MonitorsStop, ReleaseCharge, Audit])]
    case AwaitingUserApproval => [
      Definition(Reserved, UserApproved, [Timeline, Audit]),
      Definition(Failed, Declined, [ReleaseCharge, Notify]),
      Definition(Failed, HoldExpired, [ReleaseCharge, Notify]),
      Definition(Cancelled, Cancel, [MonitorsStop, ReleaseCharge, Audit])]
    case Reserved => [
      Definition(Booked, Ticketed,
                 [ChargeSettle, NotifyBookingSuccess, MonitorsCancelLowerPriorities, TimelineReservationComplete]),
      Definition(Failed, ProviderRejected, [ChargeRelease, LedgerRefund, NotifyBookingFailure, Audit]),
      Definition(Cancelled, Cancel, [ProviderCancel, LedgerRefund, Audit])]
    case _ => []
  }

  predicate IsTerminal(s: BookingState) { s in {Booked, Failed, Expired, Cancelled} }

  predicate Fits(d: Definition, to: BookingState, trigger: Option<Trigger>) {
    d.to == to && (trigger.None? || d.trigger == trigger.value)
  }

  /** The first definition that fits, if any does. */
  function FindIn(defs: seq<Definition>, to: BookingState, trigger: Option<Trigger>): (r: Option<Definition>)
    ensures r.None? ==> forall d :: d in defs ==> d.to != to || (trigger.Some? && d.trigger != trigger.value)
    ensures r.Some? ==> r.value in defs && r.value.to == to && (trigger.Some? ==> r.value.trigger == trigger.value)
  {
    if defs == [] then None
    else if Fits(defs[0], to, trigger) then Some(defs[0])
    else FindIn(defs[1..], to, trigger)
  }

  ghost predicate NoneFits(defs: seq<Definition>, to: BookingState, trigger: Option<Trigger>) {
    forall d :: d in defs ==> d.to != to || (trigger.Some? && d.trigger != trigger.value)
  }

  lemma NoneFitsBefore(defs: seq<Definition>, k: nat, to: BookingState, trigger: Option<Trigger>)
    requires k < |defs| - 1 && !Fits(defs[0], to, trigger) && NoneFits(defs[1..][..k], to, trigger)
    ensures NoneFits(defs[..k + 1], to, trigger)
  {
    assert defs[..k + 1] == [defs[0]] + defs[1..][..k];
  }

  lemma {:induction false} FindsTheFirst(defs: seq<Definition>, to: BookingState, trigger: Option<Trigger>)
    requires FindIn(defs, to, trigger).Some?
    ensures exists k ::
      0 <= k < |defs| && Some(defs[k]) == FindIn(defs, to, trigger) && NoneFits(defs[..k], to, trigger)
  {
    if Fits(defs[0], to, trigger) {
      assert NoneFits(defs[..0], to, trigger);
    } else {
      FindsTheFirst(defs[1..], to, trigger);
      var k :| 0 <= k < |defs[1..]| && Some(defs[1..][k]) == FindIn(defs[1..], to, trigger)
               && NoneFits(defs[1..][..k], to, trigger);
      NoneFitsBefore(defs, k, to, trigger);
      hide NoneFits, Fits;
      assert defs[k + 1] == defs[1..][k];
    }
  }

  function FindTransition(from: BookingState, to: BookingState, trigger: Option<Trigger>): Option<Definition> {
    FindIn(TransitionsFrom(from), to, trigger)
  }

  predicate CanTransition(from: BookingState, to: BookingState, trigger: Option<Trigger>) {
    FindTransition(from, to, trigger).Some?
  }

  datatype Illegal = Illegal(allowed: seq<BookingState>, terminal: bool)

  function AssertTransition(from: BookingState, to: BookingState): Result<Definition, Illegal> {
    var d := FindTransition(from, to, None);
    if d.Some? then Ok(d.value)
    else
      var defs := TransitionsFrom(from);
      Err(Illegal(seq(|defs|, i requires 0 <= i < |defs| => defs[i].to), IsTerminal(from)))
  }

  /** The table as a relation. */
  predicate Edge(from: BookingState, to: BookingState) {
    match from
    case Created => to in {Validating, Cancelled}
    case Validating => to in {Scheduled, Failed, Cancelled}
    case Scheduled => to in {Queued, Cancelled, Expired}
    case Queued => to in {Searching, Cancelled, Expired}
    case Searching => to in {Waiting, Available, Cancelled, Expired}
    case Waiting => to in {Searching, Cancelled, Expired}
    case Available => to in {Locked, Waiting, Expired, Cancelled}
    case Locked => to in {Reserving, Failed, Cancelled}
    case Reserving => to in {HumanVerificationRequired, PassengerForm, Reserved, Failed, Cancelled}
    case HumanVerificationRequired => to in {Reserving, Failed, Cancelled}
    case PassengerForm => to in {ReadyForCheckout, Available, Failed, Cancelled}
    case ReadyForCheckout => to in {AwaitingUserApproval, Reserved, Failed, Cancelled}
    case AwaitingUserApproval => to in {Reserved, Failed, Cancelled}
    case Reserved => to in {Booked, Failed, Cancelled}
    case _ => false
  }

  predicate Opening(s: BookingState) { s in {Created, Validating, Scheduled, Queued} }

  predicate Looking(s: BookingState) { s in {Searching, Waiting, Available} }

  predicate Submitting(s: BookingState) { s in {Locked, Reserving} }

  predicate Filling(s: BookingState) { s in {HumanVerificationRequired, PassengerForm, ReadyForCheckout} }

  predicate Closing(s: BookingState) { !Opening(s) && !Looking(s) && !Submitting(s) && !Filling(s) }

  /** Row by row the table and the relation agree. */
  ghost predicate EdgeInRow(from: BookingState, to: BookingState) {
    Edge(from, to) <==> exists i :: 0 <= i < |TransitionsFrom(from)| && TransitionsFrom(from)[i].to == to
  }

  lemma ShortRow(from: BookingState, to: BookingState)
    requires |TransitionsFrom(from)| <= 5
    requires
      var d := TransitionsFrom(from);
      Edge(from, to) <==>
        || (|d| > 0 && d[0].to == to) || (|d| > 1 && d[1].to == to) || (|d| > 2 && d[2].to == to)
        || (|d| > 3 && d[3].to == to) || (|d| > 4 && d[4].to == to)
    ensures EdgeInRow(from, to)
  {
    hide TransitionsFrom, Edge;
  }

  lemma OpeningRows(from: BookingState, to: BookingState)
    requires Opening(from)
    ensures EdgeInRow(from, to)
  {
    ShortRow(from, to);
  }

  lemma LookingRows(from: BookingState, to: BookingState)
    requires Looking(from)
    ensures EdgeInRow(from, to)
  {
    ShortRow(from, to);
  }

  lemma SubmittingRows(from: BookingState, to: BookingState)
    requires Submitting(from)
    ensures EdgeInRow(from, to)
  {
    ShortRow(from, to);
  }

  lemma FillingRows(from: BookingState, to: BookingState)
    requires Filling(from)
    ensures EdgeInRow(from, to)
  {
    ShortRow(from, to);
  }

  lemma ClosingRows(from: BookingState, to: BookingState)
    requires Closing(from)
    ensures EdgeInRow(from, to)
  {
    ShortRow(from, to);
  }

  lemma EdgeIsRow(from: BookingState, to: BookingState)
    ensures EdgeInRow(from, to)
  {
    hide TransitionsFrom, Edge;
    if Opening(from) { OpeningRows(from, to); }
    else if Looking(from) { LookingRows(from, to); }
    else if Submitting(from) { SubmittingRows(from, to); }
    else if Filling(from) { FillingRows(from, to); }
    else { ClosingRows(from, to); }
  }

  lemma FindAnyTrigger(defs: seq<Definition>, to: BookingState)
    ensures FindIn(defs, to, None).Some? <==> exists i :: 0 <= i < |defs| && defs[i].to == to
  {
    if FindIn(defs, to, None).Some? {
      var d := FindIn(defs, to, None).value;
      var i :| 0 <= i < |defs| && defs[i] == d;
    }
  }

  lemma TerminalHasNoEdge(from: BookingState, to: BookingState)
    ensures Edge(from, to) ==> !IsTerminal(from)
  {
  }

  /** A transition is accepted exactly along an edge; terminal states have none. */
  lemma AcceptedIffEdge(from: BookingState, to: BookingState)
    ensures CanTransition(from, to, None) <==> Edge(from, to)
    ensures AssertTransition(from, to).Ok? <==> Edge(from, to)
    ensures Edge(from, to) ==> !IsTerminal(from)
  {
    TerminalHasNoEdge(from, to);
    hide TransitionsFrom, Edge;
    EdgeIsRow(from, to);
    FindAnyTrigger(TransitionsFrom(from), to);
  }

  // ------------------------------------------------------------------ triggers

  /** Where a trigger leads. */
  function TargetOf(t: Trigger): BookingState {
    match t
    case Submit => Validating
    case Validated => Scheduled
    case Admitted => Queued
    case TickTrigger => Searching
    case NoMatch => Waiting
    case Match | AvailabilityLost => Available
    case Lock => Locked
    case SubmitReservation | HumanCompleted => Reserving
    case VerificationDetected => HumanVerificationRequired
    case FormRequired => PassengerForm
    case PassengersAccepted => ReadyForCheckout
    case ApprovalRequired => AwaitingUserApproval
    case HoldConfirmed | AuthorizedReserve | UserApproved => Reserved
    case Ticketed => Booked
    case ValidationFailed | WindowExpired | Declined | HoldExpired | ProviderRejected => Failed
    case Deadline => Expired
    case Cancel => Cancelled
  }

  predicate LeadsToTarget(d: Definition) { d.to == TargetOf(d.trigger) }

  lemma OneOfFive(defs: seq<Definition>, i: nat)
    requires i < |defs| <= 5
    requires LeadsToTarget(defs[0])
    requires |defs| > 1 ==> LeadsToTarget(defs[1])
    requires |defs| > 2 ==> LeadsToTarget(defs[2])
    requires |defs| > 3 ==> LeadsToTarget(defs[3])
    requires |defs| > 4 ==> LeadsToTarget(defs[4])
    ensures LeadsToTarget(defs[i])
  {
    hide LeadsToTarget;
  }

  lemma OpeningTargets(from: BookingState, i: nat)
    requires Opening(from) && i < |TransitionsFrom(from)|
    ensures LeadsToTarget(TransitionsFrom(from)[i])
  {
    OneOfFive(TransitionsFrom(from), i);
  }

  lemma LookingTargets(from: BookingState, i: nat)
    requires Looking(from) && i < |TransitionsFrom(from)|
    ensures LeadsToTarget(TransitionsFrom(from)[i])
  {
    OneOfFive(TransitionsFrom(from), i);
  }

  lemma ReservingTargets(i: nat)
    requires i < |TransitionsFrom(Reserving)|
    ensures LeadsToTarget(TransitionsFrom(Reserving)[i])
  {
    OneOfFive(TransitionsFrom(Reserving), i);
  }

  lemma SubmittingTargets(from: BookingState, i: nat)
    requires Submitting(from) && i < |TransitionsFrom(from)|
    ensures LeadsToTarget(TransitionsFrom(from)[i])
  {
    if from == Reserving {
      hide TransitionsFrom;
      ReservingTargets(i);
    } else {
      OneOfFive(TransitionsFrom(from), i);
    }
  }

  lemma PassengerFormTargets(i: nat)
    requires i < |TransitionsFrom(PassengerForm)|
    ensures LeadsToTarget(TransitionsFrom(PassengerForm)[i])
  {
    OneOfFive(TransitionsFrom(PassengerForm), i);
  }

  lemma FillingTargets(from: BookingState, i: nat)
    requires Filling(from) && i < |TransitionsFrom(from)|
    ensures LeadsToTarget(TransitionsFrom(from)[i])
  {
    if from == PassengerForm {
      hide TransitionsFrom;
      PassengerFormTargets(i);
    } else {
      OneOfFive(TransitionsFrom(from), i);
    }
  }

  lemma ClosingTargets(from: BookingState, i: nat)
    requires Closing(from) && i < |TransitionsFrom(from)|
    ensures LeadsToTarget(TransitionsFrom(from)[i])
  {
    OneOfFive(TransitionsFrom(from), i);
  }

  lemma RowLeadsToTarget(from: BookingState, d: Definition)
    requires d in TransitionsFrom(from)
    ensures LeadsToTarget(d)
  {
    hide TransitionsFrom, LeadsToTarget;
    var i :| 0 <= i < |TransitionsFrom(from)| && TransitionsFrom(from)[i] == d;
    if Opening(from) { OpeningTargets(from, i); }
    else if Looking(from) { LookingTargets(from, i); }
    else if Submitting(from) { SubmittingTargets(from, i); }
    else if Filling(from) { FillingTargets(from, i); }
    else { ClosingTargets(from, i); }
  }

  lemma TriggeredIsEdge(from: BookingState, to: BookingState, t: Trigger)
    ensures CanTransition(from, to, Some(t)) <==>
      exists i :: 0 <= i < |TransitionsFrom(from)| && TransitionsFrom(from)[i].to == to
                  && TransitionsFrom(from)[i].trigger == t
    ensures CanTransition(from, to, Some(t)) ==> Edge(from, to)
  {
    hide TransitionsFrom, Edge;
    EdgeIsRow(from, to);
    var defs, r := TransitionsFrom(from), FindTransition(from, to, Some(t));
    if r.Some? { var i :| 0 <= i < |defs| && defs[i] == r.value; }
  }

  /** A trigger alone decides where a request goes, whatever state it is in; every edge has one. */
  lemma TriggerDecidesTarget(from: BookingState, to: BookingState)
    ensures forall t :: CanTransition(from, to, Some(t)) ==> to == TargetOf(t)
    ensures Edge(from, to) <==> exists t :: CanTransition(from, to, Some(t))
  {
    hide TransitionsFrom, Edge, TargetOf, CanTransition;
    EdgeIsRow(from, to);
    var defs := TransitionsFrom(from);
    forall t ensures CanTransition(from, to, Some(t)) ==> to == TargetOf(t) && Edge(from, to) {
      TriggeredIsEdge(from, to, t);
      if i :| 0 <= i < |defs| && defs[i].to == to && defs[i].trigger == t { RowLeadsToTarget(from, defs[i]); }
    }
    if i :| 0 <= i < |defs| && defs[i].to == to { TriggeredIsEdge(from, to, defs[i].trigger); }
  }

  // ------------------------------------------------------------------ side effects

  function AppendNew(acc: seq<Effect>, more: seq<Effect>): seq<Effect> {
    if more == [] then acc
    else
      var rest := AppendNew(acc, more[..|more| - 1]);
      var e := more[|more| - 1];
      if e in rest then rest else rest + [e]
  }

  function MergedEffects(defs: seq<Definition>, to: BookingState): seq<Effect> {
    if defs == [] then []
    else
      var rest := MergedEffects(defs[..|defs| - 1], to);
      var d := defs[|defs| - 1];
      if d.to == to then AppendNew(rest, d.sideEffects) else rest
  }

  /** Every effect of every definition that reaches `to`, once each, in order of first appearance. */
  method SideEffectsFor(from: BookingState, to: BookingState) returns (effects: seq<Effect>)
    ensures effects == MergedEffects(TransitionsFrom(from), to)
    ensures NoDuplicates(effects)
    ensures forall e :: e in effects <==> Causes(from, to, e)
  {
    hide TransitionsFrom;
    effects := [];
    var defs := TransitionsFrom(from);
    for i := 0 to |defs|
      invariant effects == MergedEffects(defs[..i], to)
    {
      assert defs[..i + 1][..i] == defs[..i];
      if defs[i].to == to {
        var more := defs[i].sideEffects;
        for j := 0 to |more|
          invariant effects == AppendNew(MergedEffects(defs[..i], to), more[..j])
        {
          assert more[..j + 1][..j] == more[..j];
          if more[j] !in effects { effects := effects + [more[j]]; }
        }
        assert more[..|more|] == more;
      }
    }
    assert defs[..|defs|] == defs;
    MergedEffectsExact(defs, to);
  }

  ghost predicate Causes(from: BookingState, to: BookingState, e: Effect) {
    CausesIn(TransitionsFrom(from), to, e)
  }

  ghost predicate CausesIn(defs: seq<Definition>, to: BookingState, e: Effect) {
    exists d :: d in defs && d.to == to && e in d.sideEffects
  }

  lemma {:induction false} AppendNewExact(acc: seq<Effect>, more: seq<Effect>)
    requires NoDuplicates(acc)
    ensures NoDuplicates(AppendNew(acc, more))
    ensures forall e :: e in AppendNew(acc, more) <==> e in acc || e in more
  {
    if more == [] {
    } else {
      AppendNewExact(acc, more[..|more| - 1]);
      assert more == more[..|more| - 1] + [more[|more| - 1]];
    }
  }

  lemma {:induction false} MergedEffectsExact(defs: seq<Definition>, to: BookingState)
    ensures NoDuplicates(MergedEffects(defs, to))
    ensures forall e :: e in MergedEffects(defs, to) <==> CausesIn(defs, to, e)
  {
    if defs == [] {
    } else {
      var init, last := defs[..|defs| - 1], defs[|defs| - 1];
      MergedEffectsExact(init, to);
      assert defs == init + [last];
      if last.to == to { AppendNewExact(MergedEffects(init, to), last.sideEffects); }
    }
  }

  // --- what the table promises about its moves

  /** One row of the table and one of its effects show that the move causes it. */
  lemma RowCauses(from: BookingState, to: BookingState, e: Effect, i: nat, k: nat)
    requires i < |TransitionsFrom(from)| && k < |TransitionsFrom(from)[i].sideEffects|
    requires TransitionsFrom(from)[i].to == to && TransitionsFrom(from)[i].sideEffects[k] == e
    ensures Causes(from, to, e)
  {
    hide TransitionsFrom;
    var d := TransitionsFrom(from)[i];
    assert d in TransitionsFrom(from) && d.sideEffects[k] in d.sideEffects;
  }

  /** Where in its row a state lists the cancellation: always there, audited last. */
  function CancelAt(from: BookingState): nat {
    match from
    case Created | Scheduled | Queued | Waiting => 1
    case Validating | Searching | Locked | HumanVerificationRequired | Reserved => 2
    case Available | PassengerForm | ReadyForCheckout | AwaitingUserApproval => 3
    case _ => 4
  }

  /** Every cancellation is audited and, but from RESERVED, stops the monitors; from RESERVED it cancels with the
      provider and refunds instead. */
  lemma CancellationEffects(from: BookingState)
    requires !IsTerminal(from)
    ensures Causes(from, Cancelled, Audit)
    ensures from != Reserved ==> Causes(from, Cancelled, MonitorsStop)
    ensures from == Reserved ==> Causes(from, Cancelled, ProviderCancel) && Causes(from, Cancelled, LedgerRefund)
  {
    var i := CancelAt(from);
    var d := TransitionsFrom(from)[i];
    assert d.to == Cancelled && d.trigger == Cancel;
    assert d.sideEffects[|d.sideEffects| - 1] == Audit;
    assert d.sideEffects[0] == if from == Reserved then ProviderCancel else MonitorsStop;
    assert from == Reserved ==> d.sideEffects[1] == LedgerRefund;
    hide TransitionsFrom, CancelAt;
    RowCauses(from, Cancelled, Audit, i, |d.sideEffects| - 1);
    RowCauses(from, Cancelled, if from == Reserved then ProviderCancel else MonitorsStop, i, 0);
    if from == Reserved { RowCauses(from, Cancelled, LedgerRefund, i, 1); }
  }

  /** Every expiry stops the monitors and is announced. */
  lemma ExpiryEffects(from: BookingState)
    requires Edge(from, Expired)
    ensures Causes(from, Expired, MonitorsStop) && Causes(from, Expired, NotifyBookingExpired)
  {
    var i := if from == Searching then 3 else 2;
    assert TransitionsFrom(from)[i] == Definition(Expired, Deadline, [MonitorsStop, NotifyBookingExpired]);
    hide TransitionsFrom;
    RowCauses(from, Expired, MonitorsStop, i, 0);
    RowCauses(from, Expired, NotifyBookingExpired, i, 1);
  }

  /** Every failure is announced, but from LOCKED and while passengers are entered. */
  lemma FailureEffects(from: BookingState)
    requires Edge(from, Failed) && from != Locked && from != PassengerForm
    ensures Causes(from, Failed, if from == AwaitingUserApproval then Notify else NotifyBookingFailure)
  {
    var i := if from == Validating || from == HumanVerificationRequired || from == AwaitingUserApproval
                || from == Reserved then 1 else if from == ReadyForCheckout then 2 else 3;
    var k := if from == Reserved then 2 else 1;
    var d := TransitionsFrom(from)[i];
    assert d.to == Failed;
    assert d.sideEffects[k] == if from == AwaitingUserApproval then Notify else NotifyBookingFailure;
    hide TransitionsFrom;
    RowCauses(from, Failed, d.sideEffects[k], i, k);
  }

  /** Accepting a request creates its monitors and takes quota; giving up at that point releases it. */
  lemma AcceptanceEffects()
    ensures Causes(Created, Validating, TimelineRequestCreated)
    ensures Causes(Validating, Scheduled, MonitorsCreate) && Causes(Validating, Scheduled, QuotaIncrement)
    ensures Causes(Validating, Failed, QuotaRelease) && Causes(Validating, Cancelled, QuotaRelease)
  {
    hide Causes, CausesIn;
    RowCauses(Created, Validating, TimelineRequestCreated, 0, 0);
    RowCauses(Validating, Scheduled, MonitorsCreate, 0, 0);
    RowCauses(Validating, Scheduled, QuotaIncrement, 0, 1);
    RowCauses(Validating, Failed, QuotaRelease, 1, 0);
    RowCauses(Validating, Cancelled, QuotaRelease, 2, 1);
  }

  /** Every search gets a job and an attempt, whichever state it starts from. */
  lemma SearchEffects(from: BookingState)
    requires Edge(from, Searching)
    ensures Causes(from, Searching, SearchJobCreate) && Causes(from, Searching, AttemptCreate)
  {
    hide Causes, CausesIn;
    assert from == Queued || from == Waiting;
    RowCauses(from, Searching, SearchJobCreate, 0, 0);
    RowCauses(from, Searching, AttemptCreate, 0, 1);
  }

  /** A match is stored and announced, a lock stores its fencing token, a submission authorizes the charge. */
  lemma SubmissionEffects()
    ensures Causes(Searching, Available, ResultsPersist) && Causes(Searching, Available, NotifyTicketFound)
    ensures Causes(Available, Locked, FencingStore)
    ensures Causes(Locked, Reserving, ChargeAuthorize) && Causes(Locked, Reserving, AttemptReserving)
  {
    hide Causes, CausesIn;
    RowCauses(Searching, Available, ResultsPersist, 1, 0);
    RowCauses(Searching, Available, NotifyTicketFound, 1, 1);
    RowCauses(Available, Locked, FencingStore, 0, 0);
    RowCauses(Locked, Reserving, ChargeAuthorize, 0, 0);
    RowCauses(Locked, Reserving, AttemptReserving, 0, 1);
  }

  /** A human check pauses the attempt, keeps its context, starts its clock and is announced, and its end shows in the
      timeline; asking for approval is announced and sets a deadline. */
  lemma InterruptionEffects()
    ensures forall e :: e in {Pause, PreserveContext, NotifyVerificationRequired, SlaStart} ==>
      Causes(Reserving, HumanVerificationRequired, e)
    ensures Causes(HumanVerificationRequired, Reserving, TimelineVerificationCompleted)
    ensures Causes(ReadyForCheckout, AwaitingUserApproval, NotifyApprovalRequired)
    ensures Causes(ReadyForCheckout, AwaitingUserApproval, DeadlineSet)
  {
    hide Causes, CausesIn;
    RowCauses(Reserving, HumanVerificationRequired, Pause, 0, 0);
    RowCauses(Reserving, HumanVerificationRequired, PreserveContext, 0, 1);
    RowCauses(Reserving, HumanVerificationRequired, NotifyVerificationRequired, 0, 2);
    RowCauses(Reserving, HumanVerificationRequired, SlaStart, 0, 3);
    RowCauses(HumanVerificationRequired, Reserving, TimelineVerificationCompleted, 0, 0);
    RowCauses(ReadyForCheckout, AwaitingUserApproval, NotifyApprovalRequired, 0, 0);
    RowCauses(ReadyForCheckout, AwaitingUserApproval, DeadlineSet, 0, 1);
  }

  /** A search without a match is recorded and backs off, and so does a lost seat; a match that is not used is
      rejected. */
  lemma RetryEffects()
    ensures Causes(Searching, Waiting, ObservationRecord) && Causes(Searching, Waiting, Backoff)
    ensures Causes(Available, Waiting, ResultsReject)
    ensures Causes(PassengerForm, Available, Backoff) && Causes(PassengerForm, Available, NotifyBookingFailureSoft)
  {
    hide Causes, CausesIn;
    RowCauses(Searching, Waiting, ObservationRecord, 0, 0);
    RowCauses(Searching, Waiting, Backoff, 0, 1);
    RowCauses(Available, Waiting, ResultsReject, 1, 0);
    RowCauses(PassengerForm, Available, Backoff, 1, 0);
    RowCauses(PassengerForm, Available, NotifyBookingFailureSoft, 1, 2);
  }

  /** A ticket settles the charge, is announced, and cancels the lower priorities. */
  lemma TicketEffects()
    ensures Causes(Reserving, Reserved, ReservationPersist)
    ensures Causes(Reserved, Booked, ChargeSettle) && Causes(Reserved, Booked, NotifyBookingSuccess)
    ensures Causes(Reserved, Booked, MonitorsCancelLowerPriorities)
  {
    hide Causes, CausesIn;
    RowCauses(Reserving, Reserved, ReservationPersist, 2, 0);
    RowCauses(Reserved, Booked, ChargeSettle, 0, 0);
    RowCauses(Reserved, Booked, NotifyBookingSuccess, 0, 1);
    RowCauses(Reserved, Booked, MonitorsCancelLowerPriorities, 0, 2);
  }

  /** Every state but the four terminal ones can be cancelled, and those have no way out at all. */
  lemma TerminalIffNoExit(s: BookingState)
    ensures IsTerminal(s) <==> s == Booked || s == Failed || s == Expired || s == Cancelled
    ensures IsTerminal(s) <==> forall to :: !Edge(s, to)
    ensures !IsTerminal(s) <==> Edge(s, Cancelled)
  {
    if !IsTerminal(s) { assert Edge(s, Cancelled); }
  }

  /** A refused move is answered with exactly the states that can be reached, and whether there are none. */
  lemma RefusalListsTheExits(from: BookingState, to: BookingState)
    requires !Edge(from, to)
    ensures
      var r := AssertTransition(from, to);
      && r.Err?
      && (forall s :: s in r.error.allowed <==> Edge(from, s))
      && (r.error.terminal <==> forall s :: !Edge(from, s))
  {
    AcceptedIffEdge(from, to);
    TerminalIffNoExit(from);
    hide TransitionsFrom, Edge, IsTerminal;
    var defs, allowed := TransitionsFrom(from), AssertTransition(from, to).error.allowed;
    forall s ensures s in allowed <==> Edge(from, s) {
      EdgeIsRow(from, s);
      if i :| 0 <= i < |defs| && defs[i].to == s { assert allowed[i] == s; }
      if s in allowed { var i :| 0 <= i < |allowed| && allowed[i] == s; }
    }
  }

  // ------------------------------------------------------------------ histories

  ghost predicate IsPath(p: seq<BookingState>) {
    p != [] && forall i :: 0 <= i < |p| - 1 ==> Edge(p[i], p[i + 1])
  }

  ghost predicate IsHistory(p: seq<BookingState>) { IsPath(p) && p[0] == Created }

  // --- charges

  predicate Closes(e: Effect) { e in {ReleaseCharge, ChargeRelease, ChargeSettle, LedgerRefund} }

  /** Open charges after a transition with these effects; closing when nothing is open does nothing. */
  ghost function ChargesAfter(open: nat, from: BookingState, to: BookingState): nat {
    if Causes(from, to, ChargeAuthorize) then open + 1
    else if open > 0 && exists e :: Closes(e) && Causes(from, to, e) then open - 1
    else open
  }

  ghost function OpenCharges(p: seq<BookingState>): nat {
    if |p| <= 1 then 0
    else ChargesAfter(OpenCharges(p[..|p| - 1]), p[|p| - 2], p[|p| - 1])
  }

  predicate HoldsCharge(s: BookingState) {
    s in {Reserving, HumanVerificationRequired, PassengerForm, ReadyForCheckout, AwaitingUserApproval, Reserved}
  }

  ghost predicate ClosesSome(effects: seq<Effect>) { exists e :: e in effects && Closes(e) }

  /** What one definition does to the charge. */
  ghost predicate ChargesRight(from: BookingState, d: Definition) {
    && (ChargeAuthorize in d.sideEffects <==> from == Locked && d.to == Reserving)
    && (ClosesSome(d.sideEffects) <==>
        (HoldsCharge(from) && !HoldsCharge(d.to)) || (from == Locked && d.to == Cancelled))
  }

  lemma ShortEffects(from: BookingState, d: Definition)
    requires |d.sideEffects| <= 4
    requires
      var s := d.sideEffects;
      var opens := (|s| > 0 && s[0] == ChargeAuthorize) || (|s| > 1 && s[1] == ChargeAuthorize)
                   || (|s| > 2 && s[2] == ChargeAuthorize) || (|s| > 3 && s[3] == ChargeAuthorize);
      var closes := (|s| > 0 && Closes(s[0])) || (|s| > 1 && Closes(s[1]))
                    || (|s| > 2 && Closes(s[2])) || (|s| > 3 && Closes(s[3]));
      && (opens <==> from == Locked && d.to == Reserving)
      && (closes <==> (HoldsCharge(from) && !HoldsCharge(d.to)) || (from == Locked && d.to == Cancelled))
    ensures ChargesRight(from, d)
  {
  }

  lemma OpeningCharges(from: BookingState, i: nat)
    requires Opening(from) && i < |TransitionsFrom(from)|
    ensures ChargesRight(from, TransitionsFrom(from)[i])
  {
    ShortEffects(from, TransitionsFrom(from)[i]);
  }

  lemma LookingCharges(from: BookingState, i: nat)
    requires Looking(from) && i < |TransitionsFrom(from)|
    ensures ChargesRight(from, TransitionsFrom(from)[i])
  {
    ShortEffects(from, TransitionsFrom(from)[i]);
  }

  lemma SubmittingCharges(from: BookingState, i: nat)
    requires Submitting(from) && i < |TransitionsFrom(from)|
    ensures ChargesRight(from, TransitionsFrom(from)[i])
  {
    ShortEffects(from, TransitionsFrom(from)[i]);
  }

  lemma FillingCharges(from: BookingState, i: nat)
    requires Filling(from) && i < |TransitionsFrom(from)|
    ensures ChargesRight(from, TransitionsFrom(from)[i])
  {
    ShortEffects(from, TransitionsFrom(from)[i]);
  }

  lemma ClosingCharges(from: BookingState, i: nat)
    requires Closing(from) && i < |TransitionsFrom(from)|
    ensures ChargesRight(from, TransitionsFrom(from)[i])
  {
    ShortEffects(from, TransitionsFrom(from)[i]);
  }

  lemma RowCharges(from: BookingState, d: Definition)
    requires d in TransitionsFrom(from)
    ensures ChargesRight(from, d)
  {
    hide TransitionsFrom, ChargesRight;
    var i :| 0 <= i < |TransitionsFrom(from)| && TransitionsFrom(from)[i] == d;
    if Opening(from) { OpeningCharges(from, i); }
    else if Looking(from) { LookingCharges(from, i); }
    else if Submitting(from) { SubmittingCharges(from, i); }
    else if Filling(from) { FillingCharges(from, i); }
    else { ClosingCharges(from, i); }
  }

  lemma CausesIffCharged(defs: seq<Definition>, from: BookingState, d: Definition)
    requires d in defs
    requires forall x :: x in defs ==> ChargesRight(from, x)
    ensures CausesIn(defs, d.to, ChargeAuthorize) <==> from == Locked && d.to == Reserving
    ensures (exists e :: Closes(e) && CausesIn(defs, d.to, e)) <==>
            (HoldsCharge(from) && !HoldsCharge(d.to)) || (from == Locked && d.to == Cancelled)
  {
    hide Closes, HoldsCharge;
    assert ChargesRight(from, d);
    if ClosesSome(d.sideEffects) {
      var e :| e in d.sideEffects && Closes(e);
      assert CausesIn(defs, d.to, e);
    }
  }

  /** Only LOCKED to RESERVING opens a charge; leaving the charged states closes it, moving within them does not. */
  lemma EdgeCharges(from: BookingState, to: BookingState)
    requires Edge(from, to)
    ensures Causes(from, to, ChargeAuthorize) <==> from == Locked && to == Reserving
    ensures (exists e :: Closes(e) && Causes(from, to, e)) <==>
            (HoldsCharge(from) && !HoldsCharge(to)) || (from == Locked && to == Cancelled)
  {
    EdgeIsRow(from, to);
    hide TransitionsFrom, Edge, Closes, CausesIn, HoldsCharge, ChargesRight;
    forall d | d in TransitionsFrom(from) ensures ChargesRight(from, d) { RowCharges(from, d); }
    var i :| 0 <= i < |TransitionsFrom(from)| && TransitionsFrom(from)[i].to == to;
    CausesIffCharged(TransitionsFrom(from), from, TransitionsFrom(from)[i]);
  }

  lemma ChargeAlongEdge(from: BookingState, to: BookingState)
    requires Edge(from, to)
    ensures ChargesAfter(if HoldsCharge(from) then 1 else 0, from, to) == if HoldsCharge(to) then 1 else 0
  {
    EdgeCharges(from, to);
    hide Causes, Closes, Edge;
  }

  /** After any history at most one charge is open, and one is open exactly in the six charged states; in
      particular no terminal state leaves one open. */
  lemma {:induction false} ChargesArePaired(p: seq<BookingState>)
    requires IsHistory(p)
    ensures OpenCharges(p) == if HoldsCharge(p[|p| - 1]) then 1 else 0
    ensures IsTerminal(p[|p| - 1]) ==> OpenCharges(p) == 0
  {
    assert IsTerminal(p[|p| - 1]) ==> !HoldsCharge(p[|p| - 1]);
    if |p| <= 1 {
    } else {
      var n := |p| - 1;
      hide Edge, ChargesAfter, HoldsCharge;
      ChargesArePaired(p[..n]);
      ChargeAlongEdge(p[n - 1], p[n]);
    }
  }

  // --- length

  predicate IsRetry(from: BookingState, to: BookingState) {
    (from == Waiting && to == Searching)
    || (from == HumanVerificationRequired && to == Reserving)
    || (from == PassengerForm && to == Available)
  }

  ghost function Retries(p: seq<BookingState>): nat {
    if |p| <= 1 then 0
    else Retries(p[..|p| - 1]) + (if IsRetry(p[|p| - 2], p[|p| - 1]) then 1 else 0)
  }

  /** How far along a booking is; a retry gives back at most three steps. */
  function Progress(s: BookingState): nat {
    match s
    case Created => 0
    case Validating => 1
    case Scheduled => 2
    case Queued => 3
    case Searching => 4
    case Available => 5
    case Waiting => 6
    case Locked => 6
    case Reserving => 7
    case HumanVerificationRequired => 8
    case PassengerForm => 8
    case ReadyForCheckout => 9
    case AwaitingUserApproval => 10
    case Reserved => 11
    case _ => 12
  }

  lemma EdgeProgress(from: BookingState, to: BookingState)
    requires Edge(from, to)
    ensures Progress(from) + 1 <= Progress(to) + (if IsRetry(from, to) then 4 else 0)
  {
  }

  lemma LastStep(p: seq<BookingState>)
    requires IsHistory(p) && |p| > 1
    ensures
      var n := |p| - 1;
      && IsHistory(p[..n]) && Edge(p[n - 1], p[n]) && p[..n][n - 1] == p[n - 1]
      && Retries(p) == Retries(p[..n]) + (if IsRetry(p[n - 1], p[n]) then 1 else 0)
  {
    hide Edge, IsRetry;
  }

  lemma {:induction false} ProgressBoundsLength(p: seq<BookingState>)
    requires IsHistory(p)
    ensures |p| - 1 <= Progress(p[|p| - 1]) + 4 * Retries(p)
  {
    hide Edge, Progress, IsRetry, Retries;
    if |p| <= 1 {
    } else {
      var n := |p| - 1;
      LastStep(p);
      EdgeProgress(p[n - 1], p[n]);
      ProgressBoundsLength(p[..n]);
    }
  }

  /** A history with r retries has at most 12 + 4r transitions. */
  lemma HistoriesAreShort(p: seq<BookingState>)
    requires IsHistory(p)
    ensures |p| - 1 <= 12 + 4 * Retries(p)
  {
    ProgressBoundsLength(p);
  }

  ghost function Extend(p: seq<BookingState>, s: BookingState): seq<BookingState> { p + [s] }

  ghost function FirstMatch(): seq<BookingState> {
    Extend(Extend(Extend(Extend(Extend([Created], Validating), Scheduled), Queued), Searching), Available)
  }

  ghost function LoseSeats(p: seq<BookingState>): seq<BookingState> {
    Extend(Extend(Extend(Extend(p, Locked), Reserving), PassengerForm), Available)
  }

  /** The longest histories: seats are lost r times before the booking succeeds by the longest way. */
  ghost function LostSeats(r: nat): seq<BookingState> {
    if r == 0 then FirstMatch() else LoseSeats(LostSeats(r - 1))
  }

  lemma ExtendHistory(p: seq<BookingState>, s: BookingState)
    requires IsHistory(p) && Edge(p[|p| - 1], s)
    ensures IsHistory(Extend(p, s)) && |Extend(p, s)| == |p| + 1 && Extend(p, s)[|p|] == s
    ensures Retries(Extend(p, s)) == Retries(p) + (if IsRetry(p[|p| - 1], s) then 1 else 0)
  {
    assert Extend(p, s)[..|p|] == p;
  }

  ghost predicate Matched(p: seq<BookingState>, r: nat) {
    IsHistory(p) && p[|p| - 1] == Available && |p| == 6 + 4 * r && Retries(p) == r
  }

  lemma FirstMatchMatches()
    ensures Matched(FirstMatch(), 0)
  {
    hide Retries;
    assert Retries([Created]) == 0 by { SingletonRetries(Created); }
    var p1 := Extend([Created], Validating);
    ExtendHistory([Created], Validating);
    var p2 := Extend(p1, Scheduled);
    ExtendHistory(p1, Scheduled);
    var p3 := Extend(p2, Queued);
    ExtendHistory(p2, Queued);
    var p4 := Extend(p3, Searching);
    ExtendHistory(p3, Searching);
    ExtendHistory(p4, Available);
  }

  lemma SingletonRetries(s: BookingState)
    ensures Retries([s]) == 0
  {
  }

  lemma LoseSeatsMatches(p: seq<BookingState>, r: nat)
    requires Matched(p, r)
    ensures Matched(LoseSeats(p), r + 1)
  {
    hide Retries;
    var p1 := Extend(p, Locked);
    ExtendHistory(p, Locked);
    var p2 := Extend(p1, Reserving);
    ExtendHistory(p1, Reserving);
    var p3 := Extend(p2, PassengerForm);
    ExtendHistory(p2, PassengerForm);
    ExtendHistory(p3, Available);
  }

  lemma {:induction false} LostSeatsHistory(r: nat)
    ensures Matched(LostSeats(r), r)
  {
    if r == 0 {
      FirstMatchMatches();
    } else {
      LostSeatsHistory(r - 1);
      LoseSeatsMatches(LostSeats(r - 1), r - 1);
    }
  }

  /** The bound is reached for every number of retries. */
  lemma BoundIsSharp(r: nat)
    ensures exists p :: IsHistory(p) && p[|p| - 1] == Booked && Retries(p) == r && |p| - 1 == 12 + 4 * r
  {
    hide Retries;
    hide LostSeats;
    LostSeatsHistory(r);
    var p1 := Extend(LostSeats(r), Locked);
    ExtendHistory(LostSeats(r), Locked);
    var p2 := Extend(p1, Reserving);
    ExtendHistory(p1, Reserving);
    var p3 := Extend(p2, PassengerForm);
    ExtendHistory(p2, PassengerForm);
    var p4 := Extend(p3, ReadyForCheckout);
    ExtendHistory(p3, ReadyForCheckout);
    var p5 := Extend(p4, AwaitingUserApproval);
    ExtendHistory(p4, AwaitingUserApproval);
    var p6 := Extend(p5, Reserved);
    ExtendHistory(p5, Reserved);
    ExtendHistory(p6, Booked);
    var p := Extend(p6, Booked);
    assert IsHistory(p) && p[|p| - 1] == Booked && Retries(p) == r;
  }

  // --- the way to BOOKED

  /** States a booking passes only after its reservation was submitted. */
  predicate UnderReservation(s: BookingState) { HoldsCharge(s) && s != Reserved }

  lemma {:induction false} SubmissionBefore(p: seq<BookingState>, k: nat) returns (c: nat)
    requires IsHistory(p) && k < |p| && UnderReservation(p[k])
    ensures 2 <= c <= k
    ensures p[c - 2] == Available && p[c - 1] == Locked && p[c] == Reserving
    ensures forall i :: c <= i <= k ==> UnderReservation(p[i])
  {
    assert k > 0 && Edge(p[k - 1], p[k]);
    if p[k - 1] == Locked {
      assert k > 1 && Edge(p[k - 2], p[k - 1]);
      c := k;
    } else {
      c := SubmissionBefore(p, k - 1);
    }
  }

  /** Every booked history went AVAILABLE, LOCKED, RESERVING, stayed under that reservation, and reached
      BOOKED from RESERVED. */
  lemma BookedWentThroughReservation(p: seq<BookingState>, k: nat) returns (c: nat)
    requires IsHistory(p) && k < |p| && p[k] == Booked
    ensures k == |p| - 1
    ensures 2 <= c < k - 1
    ensures p[c - 2] == Available && p[c - 1] == Locked && p[c] == Reserving
    ensures forall i :: c <= i < k - 1 ==> UnderReservation(p[i])
    ensures p[k - 1] == Reserved
  {
    assert k + 1 < |p| ==> Edge(p[k], p[k + 1]);
    assert k > 1 && Edge(p[k - 1], p[k]) && Edge(p[k - 2], p[k - 1]);
    c := SubmissionBefore(p, k - 2);
  }

  // ------------------------------------------------------------------ invariant checks

  datatype Context = Context(
    hasProviderReference: Option<bool>,
    liveReservationCount: nat,
    pendingCharges: nat,
    settledCharges: nat,
    releasedCharges: nat,
    reachedStates: seq<BookingState>)

  datatype Violation =
    | TerminalHasNoExit | LockRequiresAvailability | BookedRequiresReference | SingleLiveReservation
    | ChargesArePairedCheck

  function If(c: bool, v: Violation): seq<Violation> { if c then [v] else [] }

  function CheckInvariants(state: BookingState, ctx: Context): seq<Violation> {
    If(IsTerminal(state) && |TransitionsFrom(state)| > 0, TerminalHasNoExit)
    + If(state in {Locked, Reserving, Reserved, Booked} && |ctx.reachedStates| > 0 && Available !in ctx.reachedStates,
         LockRequiresAvailability)
    + If(state == Booked && ctx.hasProviderReference == Some(false), BookedRequiresReference)
    + If(ctx.liveReservationCount > 1, SingleLiveReservation)
    + If(ctx.pendingCharges > 0 && IsTerminal(state) && state != Cancelled
         && ctx.settledCharges == 0 && ctx.releasedCharges == 0, ChargesArePairedCheck)
  }

  /** What `transition` passes: only the number of live reservations. */
  function LiveOnly(live: nat): Context { Context(None, live, 0, 0, 0, []) }

  /** So the only check that can stop a transition is the one on live reservations. */
  lemma OnlyLiveReservationsCanFail(state: BookingState, live: nat)
    ensures CheckInvariants(state, LiveOnly(live)) == if live > 1 then [SingleLiveReservation] else []
  {
  }

  lemma AvailableBefore(p: seq<BookingState>)
    requires IsHistory(p) && p[|p| - 1] in {Locked, Reserving, Reserved, Booked}
    ensures Available in p
  {
    var k := |p| - 1;
    assert k > 0 && Edge(p[k - 1], p[k]);
    if p[k] == Locked {
      assert p[k - 1] in p;
    } else {
      var c: nat;
      if p[k] == Booked {
        c := BookedWentThroughReservation(p, k);
      } else if p[k] == Reserving {
        c := SubmissionBefore(p, k);
      } else {
        c := SubmissionBefore(p, k - 1);
      }
      assert p[c - 2] in p;
    }
  }

  /** The checks one by one, for the proof below. */
  lemma ViolationIff(state: BookingState, ctx: Context, v: Violation)
    ensures
      v in CheckInvariants(state, ctx) <==>
        match v
        case TerminalHasNoExit => IsTerminal(state) && |TransitionsFrom(state)| > 0
        case LockRequiresAvailability =>
          state in {Locked, Reserving, Reserved, Booked} && |ctx.reachedStates| > 0 && Available !in ctx.reachedStates
        case BookedRequiresReference => state == Booked && ctx.hasProviderReference == Some(false)
        case SingleLiveReservation => ctx.liveReservationCount > 1
        case ChargesArePairedCheck =>
          ctx.pendingCharges > 0 && IsTerminal(state) && state != Cancelled && ctx.settledCharges == 0
              && ctx.releasedCharges == 0
  {
    hide TransitionsFrom;
  }

  lemma TerminalHasNoRows(state: BookingState)
    requires IsTerminal(state)
    ensures TransitionsFrom(state) == []
  {
  }

  /** Checked against what really happened, a history through the table passes the checks on exits,
      availability and charges, so it is stopped exactly by a second live reservation, or by a booking that is
      known to have no provider reference. */
  lemma HistoriesPassTheChecks(p: seq<BookingState>, ctx: Context)
    requires IsHistory(p)
    requires ctx.reachedStates == p && ctx.pendingCharges == OpenCharges(p)
    ensures
      var v := CheckInvariants(p[|p| - 1], ctx);
      && TerminalHasNoExit !in v && LockRequiresAvailability !in v && ChargesArePairedCheck !in v
      && (v == [] <==> ctx.liveReservationCount <= 1
                       && (p[|p| - 1] == Booked ==> ctx.hasProviderReference != Some(false)))
  {
    hide TransitionsFrom;
    hide CheckInvariants;
    hide OpenCharges;
    var last := p[|p| - 1];
    ViolationIff(last, ctx, TerminalHasNoExit);
    ViolationIff(last, ctx, LockRequiresAvailability);
    ViolationIff(last, ctx, ChargesArePairedCheck);
    ViolationIff(last, ctx, BookedRequiresReference);
    ViolationIff(last, ctx, SingleLiveReservation);
    if IsTerminal(last) { TerminalHasNoRows(last); }
    if last in {Locked, Reserving, Reserved, Booked} { AvailableBefore(p); }
    ChargesArePaired(p);
    var v := CheckInvariants(last, ctx);
    if v != [] {
      assert v[0] in v;
      ViolationIff(last, ctx, v[0]);
    }
  }

  // ------------------------------------------------------------------ reachability

  ghost predicate Leads(start: BookingState, goal: BookingState) {
    exists p :: IsPath(p) && |p| >= 2 && p[0] == start && p[|p| - 1] == goal
  }

  /** All states in the order in which their names sort. */
  function Alphabetical(): seq<BookingState> {
    [Available, AwaitingUserApproval, Booked, Cancelled, Created, Expired, Failed, HumanVerificationRequired, Locked,
     PassengerForm, Queued, ReadyForCheckout, Reserved, Reserving, Scheduled, Searching, Validating, Waiting]
  }

  lemma AlphabeticalIsEverything(s: BookingState)
    ensures s in Alphabetical() && s in Universe()
  {
    var a := Alphabetical();
    assert a[0] == Available && a[1] == AwaitingUserApproval && a[2] == Booked && a[3] == Cancelled && a[4] == Created
      && a[5] == Expired && a[6] == Failed && a[7] == HumanVerificationRequired && a[8] == Locked
          && a[9] == PassengerForm
      && a[10] == Queued && a[11] == ReadyForCheckout && a[12] == Reserved && a[13] == Reserving && a[14] == Scheduled
      && a[15] == Searching && a[16] == Validating && a[17] == Waiting;
  }

  lemma LeadsStep(start: BookingState, mid: BookingState, next: BookingState)
    requires mid == start || Leads(start, mid)
    requires Edge(mid, next)
    ensures Leads(start, next)
  {
    var p := [start];
    if mid != start { p :| IsPath(p) && |p| >= 2 && p[0] == start && p[|p| - 1] == mid; }
    var q := p + [next];
    assert IsPath(q) && |q| >= 2 && q[0] == start && q[|q| - 1] == next;
  }

  lemma {:induction false} ClosedUnderPaths(seen: set<BookingState>, p: seq<BookingState>)
    requires IsPath(p) && |p| >= 2
    requires forall t :: Edge(p[0], t) ==> t in seen
    requires forall s, t :: s in seen && Edge(s, t) ==> t in seen
    ensures p[|p| - 1] in seen
  {
    if |p| > 2 { ClosedUnderPaths(seen, p[..|p| - 1]); }
  }

  lemma ClosedMeansAllFound(start: BookingState, seen: set<BookingState>)
    requires forall t :: Edge(start, t) ==> t in seen
    requires forall s, t :: s in seen && Edge(s, t) ==> t in seen
    ensures forall s :: Leads(start, s) ==> s in seen
  {
    forall s | Leads(start, s) ensures s in seen {
      var p :| IsPath(p) && |p| >= 2 && p[0] == start && p[|p| - 1] == s;
      ClosedUnderPaths(seen, p);
    }
  }

  lemma RowIsFound(current: BookingState, seen: set<BookingState>)
    requires forall k :: 0 <= k < |TransitionsFrom(current)| ==> TransitionsFrom(current)[k].to in seen
    ensures forall t :: Edge(current, t) ==> t in seen
  {
    hide TransitionsFrom;
    hide Edge;
    forall t | Edge(current, t) ensures t in seen { EdgeIsRow(current, t); }
  }

  ghost function Universe(): set<BookingState> { set t | t in Alphabetical() }

  /** Breadth-first search finds exactly the states some path of at least one transition leads to. */
  method ReachableStates(start: BookingState) returns (r: seq<BookingState>)
    ensures forall s :: s in r <==> Leads(start, s)
    ensures r == Filter(s => s in r, Alphabetical())
  {
    hide TransitionsFrom;
    hide Alphabetical;
    hide Edge;
    hide Leads;
    var seen: set<BookingState> := {};
    var queue := [start];
    ghost var done: set<BookingState> := {};
    while queue != []
      invariant forall s :: s in seen ==> Leads(start, s)
      invariant forall s :: s in queue ==> s == start || s in seen
      invariant forall s :: s in seen || s == start ==> s in done || s in queue
      invariant forall s, t :: s in done && Edge(s, t) ==> t in seen
      invariant seen <= Universe()
      decreases Universe() - seen, |queue|
    {
      var current := queue[0];
      queue := queue[1..];
      var defs := TransitionsFrom(current);
      ghost var before := seen;
      ghost var rest := queue;
      for i := 0 to |defs|
        invariant forall s :: s in seen ==> Leads(start, s)
        invariant forall s :: s in queue ==> s == start || s in seen
        invariant forall s :: s in seen || s == start ==> s in done || s in queue || s == current
        invariant forall k :: 0 <= k < i ==> defs[k].to in seen
        invariant before <= seen <= Universe()
        invariant seen == before ==> queue == rest
      {
        if defs[i].to !in seen {
          EdgeIsRow(current, defs[i].to);
          LeadsStep(start, current, defs[i].to);
          AlphabeticalIsEverything(defs[i].to);
          seen := seen + {defs[i].to};
          queue := queue + [defs[i].to];
        }
      }
      RowIsFound(current, seen);
      done := done + {current};
      assert seen != before ==> Universe() - seen < Universe() - before;
    }
    ClosedMeansAllFound(start, seen);
    r := Filter(s => s in seen, Alphabetical());
    forall s | s in seen ensures s in r { AlphabeticalIsEverything(s); }
    SameFilter(s => s in seen, s => s in r, Alphabetical());
  }

  lemma {:induction false} SameFilter<T(!new)>(f: T -> bool, g: T -> bool, s: seq<T>)
    requires forall x :: x in s ==> f(x) == g(x)
    ensures Filter(f, s) == Filter(g, s)
  {
    if s == [] {
    } else {
      SameFilter(f, g, s[1..]);
    }
  }
}
