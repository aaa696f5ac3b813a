/**
  * Which proxy a worker should use (packages/proxy/src/rotation.ts). Proxy ids are numbers whose
  * order stands for the string order of the UUIDs.
  */
module Rotation {
  import opened Prelude

  datatype Status = Active | Quarantined | Dead

  datatype SelectableProxy = SelectableProxy(
    id: nat,
    providerCode: Option<string>,
    enabled: bool,
    status: Status,
    healthScore: int,
    quarantinedUntil: Option<int>,
    rotationSeconds: int,
    assignedWorkerId: Option<string>,
    lastRotatedAt: Option<int>)

  datatype EgressMode = Off | Optional | Required

  datatype Unavailable =
    | PoolDisabled | NoProxies | AllDisabled | AllQuarantined | AllDead | AllUnhealthy | ProviderMismatch

  datatype Why =
    | Refused(unavailable: Unavailable)
    | Sticky
    | RotatedSchedule
    | Reassigned
    | LeastRecentlyRotated

  datatype Outcome = Outcome(selected: Option<SelectableProxy>, sticky: bool, rotated: bool, reason: Why)

  datatype Request = Request(
    now: int,
    mode: EgressMode,
    providerCode: Option<string>,
    workerId: string,
    minHealthScore: int)

  function IsQuarantined(p: SelectableProxy, now: int): bool {
    p.status == Quarantined || (p.quarantinedUntil.Some? && p.quarantinedUntil.value > now)
  }

  function RotationDue(p: SelectableProxy, now: int): bool {
    p.lastRotatedAt.None? || now - p.lastRotatedAt.value >= p.rotationSeconds * 1000
  }

  function RotationKey(p: SelectableProxy): int {
    if p.lastRotatedAt.Some? then p.lastRotatedAt.value else 0
  }

  /** Healthiest first, then least recently rotated, then smallest id. */
  function CompareCandidates(a: SelectableProxy, b: SelectableProxy): int {
    if a.healthScore != b.healthScore then b.healthScore - a.healthScore
    else if RotationKey(a) != RotationKey(b) then RotationKey(a) - RotationKey(b)
    else if a.id < b.id then -1
    else if a.id > b.id then 1
    else 0
  }

  function InsertSorted(x: SelectableProxy, s: seq<SelectableProxy>): seq<SelectableProxy> {
    if s == [] || CompareCandidates(x, s[0]) <= 0 then [x] + s
    else [s[0]] + InsertSorted(x, s[1..])
  }

  /** A stable sort by `CompareCandidates`. */
  function Sorted(s: seq<SelectableProxy>): seq<SelectableProxy> {
    if s == [] then [] else InsertSorted(s[0], Sorted(s[1..]))
  }

  function Affine(p: SelectableProxy, provider: Option<string>): bool {
    provider.None? || p.providerCode.None? || p.providerCode == provider
  }

  function Eligible(p: SelectableProxy, req: Request): bool {
    && p.enabled
    && !IsQuarantined(p, req.now)
    && p.status != Dead
    && p.healthScore >= req.minHealthScore
    && Affine(p, req.providerCode)
  }

  function FindAssigned(s: seq<SelectableProxy>, workerId: string): Option<SelectableProxy> {
    if s == [] then None
    else if s[0].assignedWorkerId == Some(workerId) then Some(s[0])
    else FindAssigned(s[1..], workerId)
  }

  function ClassifyUnavailable(proxies: seq<SelectableProxy>, req: Request): Unavailable {
    var relevant := Filter(p => Affine(p, req.providerCode), proxies);
    if relevant == [] then ProviderMismatch
    else if forall p | p in relevant :: !p.enabled then AllDisabled
    else if forall p | p in relevant :: p.status == Dead then AllDead
    else if forall p | p in relevant :: IsQuarantined(p, req.now) then AllQuarantined
    else if forall p | p in relevant :: p.healthScore < req.minHealthScore then AllUnhealthy
    else AllQuarantined
  }

  /** An empty worker id is falsy in the source. */
  predicate Assigned(p: SelectableProxy) { p.assignedWorkerId.Some? && p.assignedWorkerId.value != "" }

  function Refusal(why: Unavailable): Outcome {
    Outcome(None, false, false, Refused(why))
  }

  function SelectProxy(proxies: seq<SelectableProxy>, req: Request): Outcome {
    if req.mode == Off then Refusal(PoolDisabled)
    else if proxies == [] then Refusal(NoProxies)
    else
      var eligible := Filter(p => Eligible(p, req), proxies);
      if eligible == [] then Refusal(ClassifyUnavailable(proxies, req))
      else
        // An empty worker id is falsy in the source and never sticky.
        var sticky := if req.workerId != "" then FindAssigned(eligible, req.workerId) else None;
        if sticky.Some? && !RotationDue(sticky.value, req.now) then
          Outcome(sticky, true, false, Why.Sticky)
        else
          var candidates := Sorted(Filter((p: SelectableProxy) => sticky.None? || p.id != sticky.value.id, eligible));
          var choice := if candidates != [] then Some(candidates[0]) else sticky;
          if choice.None? then Refusal(AllUnhealthy)
          else
            Outcome(choice, false, sticky.Some?,
                    if sticky.Some? then RotatedSchedule
                    else if Assigned(choice.value) then Reassigned
                    else LeastRecentlyRotated)
  }

  // ------------------------------------------------------------------ the sort

  lemma CompareIsTransitive(a: SelectableProxy, b: SelectableProxy, c: SelectableProxy)
    requires CompareCandidates(a, b) <= 0 && CompareCandidates(b, c) <= 0
    ensures CompareCandidates(a, c) <= 0
  {
  }

  lemma CompareIsTotal(a: SelectableProxy, b: SelectableProxy)
    ensures CompareCandidates(a, b) <= 0 || CompareCandidates(b, a) <= 0
  {
  }

  ghost predicate IsSorted(s: seq<SelectableProxy>) {
    forall i, j :: 0 <= i < j < |s| ==> CompareCandidates(s[i], s[j]) <= 0
  }

  lemma {:induction false} InsertIsPermutation(x: SelectableProxy, s: seq<SelectableProxy>)
    ensures multiset(InsertSorted(x, s)) == multiset{x} + multiset(s)
  {
    if s == [] {
    } else {
      assert s == [s[0]] + s[1..];
      InsertIsPermutation(x, s[1..]);
    }
  }

  lemma SortedPrepend(x: SelectableProxy, s: seq<SelectableProxy>)
    requires IsSorted(s) && forall y :: y in s ==> CompareCandidates(x, y) <= 0
    ensures IsSorted([x] + s)
  {
    var t := [x] + s;
    forall i, j | 0 <= i < j < |t| ensures CompareCandidates(t[i], t[j]) <= 0 {
      assert t[j] == s[j - 1] && t[j] in s;
      if i > 0 { assert t[i] == s[i - 1]; }
    }
  }

  lemma {:induction false} InsertKeepsOrder(x: SelectableProxy, s: seq<SelectableProxy>)
    requires IsSorted(s)
    ensures IsSorted(InsertSorted(x, s))
  {
    hide CompareCandidates;
    if s == [] {
    } else if CompareCandidates(x, s[0]) <= 0 {
      forall y | y in s ensures CompareCandidates(x, y) <= 0 {
        if y != s[0] { CompareIsTransitive(x, s[0], y); }
      }
      SortedPrepend(x, s);
    } else {
      InsertKeepsOrder(x, s[1..]);
      InsertIsPermutation(x, s[1..]);
      var rest := InsertSorted(x, s[1..]);
      CompareIsTotal(x, s[0]);
      forall y | y in rest ensures CompareCandidates(s[0], y) <= 0 {
        assert y in multiset(rest);
      }
      SortedPrepend(s[0], rest);
    }
  }

  lemma {:induction false} SortedIsASort(s: seq<SelectableProxy>)
    ensures IsSorted(Sorted(s))
    ensures multiset(Sorted(s)) == multiset(s)
  {
    if s == [] {
    } else {
      SortedIsASort(s[1..]);
      InsertKeepsOrder(s[0], Sorted(s[1..]));
      InsertIsPermutation(s[0], Sorted(s[1..]));
      assert s == [s[0]] + s[1..];
    }
  }

  // ------------------------------------------------- what selection must deliver

  ghost predicate UniqueIds(s: seq<SelectableProxy>) {
    forall p, q :: p in s && q in s && p.id == q.id ==> p == q
  }

  ghost predicate OneRowPerWorker(s: seq<SelectableProxy>) {
    forall p, q :: p in s && q in s && p.assignedWorkerId.Some? && p.assignedWorkerId == q.assignedWorkerId ==> p == q
  }

  ghost predicate Holds(p: SelectableProxy, req: Request) {
    req.workerId != "" && p.assignedWorkerId == Some(req.workerId)
  }

  /** `best` is the first of `s` in the published order. */
  ghost predicate Best(best: SelectableProxy, s: iset<SelectableProxy>) {
    best in s && forall p :: p in s ==> CompareCandidates(best, p) <= 0
  }

  /**
    * The selection rule stated on the set of rows, without lists, searching or sorting: refuse exactly
    * when nothing is eligible; keep the worker's own eligible row inside its rotation window; otherwise
    * take the best other eligible row, and the worker's own row only when there is no other.
    */
  ghost predicate Selects(pool: iset<SelectableProxy>, req: Request, o: Outcome) {
    var eligible := iset p | p in pool && Eligible(p, req);
    var own := iset p | p in eligible && Holds(p, req);
    var others := eligible - own;
    if req.mode == Off || eligible == iset{} then
      o.selected == None && !o.sticky && !o.rotated && o.reason == Refused(RefusalReason(pool, req))
    else
      && o.selected.Some?
      && o.sticky == (exists p :: p in own && !RotationDue(p, req.now))
      && o.rotated == (!o.sticky && own != iset{})
      && (if o.sticky || others == iset{} then o.selected.value in own else Best(o.selected.value, others))
      && o.reason ==
         if o.sticky then Why.Sticky
         else if o.rotated then RotatedSchedule
         else if Assigned(o.selected.value) then Reassigned
         else LeastRecentlyRotated
  }

  lemma SelectedIsEligible(pool: iset<SelectableProxy>, req: Request, o: Outcome)
    requires Selects(pool, req, o) && o.selected.Some?
    ensures o.selected.value in pool && Eligible(o.selected.value, req)
  {
  }

  ghost function RefusalReason(pool: iset<SelectableProxy>, req: Request): Unavailable {
    var relevant := iset p | p in pool && Affine(p, req.providerCode);
    if req.mode == Off then PoolDisabled
    else if pool == iset{} then NoProxies
    else if relevant == iset{} then ProviderMismatch
    else if forall p :: p in relevant ==> !p.enabled then AllDisabled
    else if forall p :: p in relevant ==> p.status == Dead then AllDead
    else if forall p :: p in relevant ==> IsQuarantined(p, req.now) then AllQuarantined
    else if forall p :: p in relevant ==> p.healthScore < req.minHealthScore then AllUnhealthy
    else AllQuarantined
  }

  ghost function AsSet(s: seq<SelectableProxy>): iset<SelectableProxy> { iset p | p in s }

  lemma {:induction false} FindAssignedFinds(s: seq<SelectableProxy>, workerId: string)
    ensures
      var r := FindAssigned(s, workerId);
      if r.Some? then r.value in s && r.value.assignedWorkerId == Some(workerId)
      else forall p :: p in s ==> p.assignedWorkerId != Some(workerId)
  {
    if s == [] {
    } else {
      FindAssignedFinds(s[1..], workerId);
    }
  }

  lemma HeadOfSortedIsBest(s: seq<SelectableProxy>)
    requires s != []
    ensures Sorted(s) != [] && Best(Sorted(s)[0], AsSet(s))
  {
    var t := Sorted(s);
    SortedIsASort(s);
    assert |t| == |multiset(t)| == |multiset(s)| == |s|;
    assert t[0] in multiset(s);
    forall p | p in s ensures CompareCandidates(t[0], p) <= 0 {
      assert p in multiset(t);
      var i :| 0 <= i < |t| && t[i] == p;
    }
  }

  lemma RefusalMatches(s: seq<SelectableProxy>, req: Request)
    requires req.mode != Off && s != []
    ensures ClassifyUnavailable(s, req) == RefusalReason(AsSet(s), req)
  {
    var relevant := Filter(p => Affine(p, req.providerCode), s);
    var relevantSet := iset p | p in AsSet(s) && Affine(p, req.providerCode);
    assert s[0] in AsSet(s);
    assert forall p :: p in relevant <==> p in relevantSet;
    if relevant != [] { assert relevant[0] in relevantSet; }
  }

  /** The code implements the rule, for every catalogue whose ids and assignments are unique. */
  lemma SelectProxyFollowsTheRule(s: seq<SelectableProxy>, req: Request)
    requires UniqueIds(s) && OneRowPerWorker(s)
    ensures Selects(AsSet(s), req, SelectProxy(s, req))
  {
    var pool := AsSet(s);
    var eligible := Filter(p => Eligible(p, req), s);
    var eligibleSet := iset p | p in pool && Eligible(p, req);
    assert forall p :: p in eligible <==> p in eligibleSet;
    if req.mode != Off && s != [] {
      if eligible == [] {
        assert eligibleSet == iset{};
        RefusalMatches(s, req);
      } else {
        assert eligible[0] in eligibleSet;
        FindAssignedFinds(eligible, req.workerId);
        var sticky := if req.workerId != "" then FindAssigned(eligible, req.workerId) else None;
        var own := iset p | p in eligibleSet && Holds(p, req);
        assert own == if sticky.Some? then iset{sticky.value} else iset{};
        var candidates := Filter((p: SelectableProxy) => sticky.None? || p.id != sticky.value.id, eligible);
        assert AsSet(candidates) == eligibleSet - own;
        if candidates != [] {
          HeadOfSortedIsBest(candidates);
          assert candidates[0] in AsSet(candidates);
        }
      }
    }
  }

  /** The rule leaves no choice. */
  lemma RuleDeterminesOutcome(s: seq<SelectableProxy>, req: Request, o1: Outcome, o2: Outcome)
    requires UniqueIds(s) && OneRowPerWorker(s)
    requires Selects(AsSet(s), req, o1) && Selects(AsSet(s), req, o2)
    ensures o1 == o2
  {
    if o1.selected.Some? {
      var a, b := o1.selected.value, o2.selected.value;
      assert a in AsSet(s) && b in AsSet(s);
    }
  }

  /** The order in which the database returns the rows never matters, down to the reported reason. */
  lemma SelectionIgnoresRowOrder(s: seq<SelectableProxy>, t: seq<SelectableProxy>, req: Request)
    requires multiset(s) == multiset(t)
    requires UniqueIds(s) && OneRowPerWorker(s)
    ensures SelectProxy(s, req) == SelectProxy(t, req)
  {
    assert forall p :: p in s <==> p in multiset(s);
    assert forall p :: p in t <==> p in multiset(t);
    assert AsSet(s) == AsSet(t);
    SelectProxyFollowsTheRule(s, req);
    SelectProxyFollowsTheRule(t, req);
    RuleDeterminesOutcome(s, req, SelectProxy(s, req), SelectProxy(t, req));
  }

  /** A proxy is refused exactly when the mode is OFF or no row is eligible; what is granted is eligible. */
  lemma SelectionSucceedsIffEligible(s: seq<SelectableProxy>, req: Request)
    ensures SelectProxy(s, req).selected.Some? <==> req.mode != Off && exists p :: p in s && Eligible(p, req)
    ensures
      var o := SelectProxy(s, req);
      o.selected.Some? ==>
        && o.selected.value in s && Eligible(o.selected.value, req)
        && (o.reason == RotatedSchedule <==> o.rotated)
        && (o.sticky ==> Holds(o.selected.value, req))
        && (o.sticky || o.rotated ==>
              exists own :: own in s && Holds(own, req) && RotationDue(own, req.now) == o.rotated
                            && (o.sticky ==> own == o.selected.value))
  {
    var eligible := Filter(p => Eligible(p, req), s);
    FindAssignedFinds(eligible, req.workerId);
    var sticky := if req.workerId != "" then FindAssigned(eligible, req.workerId) else None;
    var candidates := Filter((p: SelectableProxy) => sticky.None? || p.id != sticky.value.id, eligible);
    if eligible != [] {
      assert eligible[0] in eligible && eligible[0] in s;
      assert sticky.Some? ==> sticky.value in s && Holds(sticky.value, req);
      assert sticky.None? ==> eligible[0] in candidates;
      if candidates != [] {
        HeadOfSortedIsBest(candidates);
      }
    }
  }

  // ------------------------------------------------- the same rule, read off the columns

  /** Fit for this request: switched on, ACTIVE, past any deadline, healthy enough, and of no other provider. */
  ghost predicate Serves(p: SelectableProxy, req: Request) {
    && p.enabled && p.status == Active
    && (p.quarantinedUntil.Some? ==> p.quarantinedUntil.value <= req.now)
    && req.minHealthScore <= p.healthScore
    && (p.providerCode.Some? && req.providerCode.Some? ==> p.providerCode.value == req.providerCode.value)
  }

  /** `p` comes before `q`: healthier; or as healthy and rotated earlier, where never means at time 0; or equal in
      both and of smaller id. */
  ghost predicate ComesBefore(p: SelectableProxy, q: SelectableProxy) {
    var pTime := if p.lastRotatedAt.None? then 0 else p.lastRotatedAt.value;
    var qTime := if q.lastRotatedAt.None? then 0 else q.lastRotatedAt.value;
    || q.healthScore < p.healthScore
    || (q.healthScore == p.healthScore && pTime < qTime)
    || (q.healthScore == p.healthScore && pTime == qTime && p.id < q.id)
  }

  /** Its rotation window is still open. */
  ghost predicate Settled(p: SelectableProxy, now: int) {
    p.lastRotatedAt.Some? && now < p.lastRotatedAt.value + 1000 * p.rotationSeconds
  }

  /** What is selected, and why: the worker's own row while its window is open; otherwise, of the other rows that
      serve, the one that comes before all of them; the worker's own again only if there is no other. */
  ghost predicate ChosenByColumns(pool: iset<SelectableProxy>, req: Request, o: Outcome) {
    if req.mode == Off || (forall p :: p in pool ==> !Serves(p, req)) then o.selected == None
    else
      && o.selected.Some? && o.selected.value in pool && Serves(o.selected.value, req)
      && var chosen := o.selected.value;
      && (o.sticky <==> exists p :: p in pool && Serves(p, req) && Holds(p, req) && Settled(p, req.now))
      && (o.rotated <==> !o.sticky && exists p :: p in pool && Serves(p, req) && Holds(p, req))
      && (o.sticky ==> Holds(chosen, req))
      && (!o.sticky && Holds(chosen, req) ==> forall q :: q in pool && Serves(q, req) ==> Holds(q, req))
      && (!o.sticky && !Holds(chosen, req) ==>
            forall q :: q in pool && q != chosen && Serves(q, req) && !Holds(q, req) ==> ComesBefore(chosen, q))
      && (o.reason == Why.Sticky <==> o.sticky)
      && (o.reason == RotatedSchedule <==> o.rotated)
      && (o.reason == Reassigned <==>
          !o.sticky && !o.rotated && chosen.assignedWorkerId.Some? && chosen.assignedWorkerId.value != "")
  }

  ghost predicate DistinctIds(pool: iset<SelectableProxy>) {
    forall p, q :: p in pool && q in pool && p.id == q.id ==> p == q
  }

  lemma EligibleIffServes(p: SelectableProxy, req: Request)
    ensures Eligible(p, req) <==> Serves(p, req)
  {
  }

  lemma BestComesBefore(best: SelectableProxy, s: iset<SelectableProxy>, q: SelectableProxy)
    requires Best(best, s) && q in s && q.id != best.id
    ensures ComesBefore(best, q)
  {
  }

  lemma BestOfOthers(others: iset<SelectableProxy>, chosen: SelectableProxy)
    requires Best(chosen, others) && DistinctIds(others)
    ensures chosen in others && forall q :: q in others && q != chosen ==> ComesBefore(chosen, q)
  {
    hide ComesBefore;
    forall q | q in others && q != chosen ensures ComesBefore(chosen, q) { BestComesBefore(chosen, others, q); }
  }

  lemma SettledIffNotDue(p: SelectableProxy, now: int)
    ensures Settled(p, now) <==> !RotationDue(p, now)
  {
  }

  lemma FlagsReadColumns(pool: iset<SelectableProxy>, req: Request, o: Outcome)
    requires Selects(pool, req, o) && o.selected.Some?
    ensures o.sticky <==> exists p :: p in pool && Serves(p, req) && Holds(p, req) && Settled(p, req.now)
    ensures o.rotated <==> !o.sticky && exists p :: p in pool && Serves(p, req) && Holds(p, req)
  {
    var eligible := iset p | p in pool && Eligible(p, req);
    var own := iset p | p in eligible && Holds(p, req);
    forall p ensures p in own <==> p in pool && Serves(p, req) && Holds(p, req) { EligibleIffServes(p, req); }
    forall p ensures Settled(p, req.now) <==> !RotationDue(p, req.now) { SettledIffNotDue(p, req.now); }
    hide Eligible, Serves, Best, Holds, RotationDue, Settled;
    assert o.sticky == exists p :: p in own && !RotationDue(p, req.now);
    if p :| p in pool && Serves(p, req) && Holds(p, req) && Settled(p, req.now) {
      assert p in own && !RotationDue(p, req.now);
    }
    if p :| p in pool && Serves(p, req) && Holds(p, req) { assert p in own; }
  }

  lemma ReasonReadsColumns(pool: iset<SelectableProxy>, req: Request, o: Outcome)
    requires Selects(pool, req, o) && o.selected.Some?
    ensures req.mode != Off
    ensures o.reason == Why.Sticky <==> o.sticky
    ensures o.reason == RotatedSchedule <==> o.rotated
    ensures
      var chosen := o.selected.value;
      o.reason == Reassigned <==>
        !o.sticky && !o.rotated && chosen.assignedWorkerId.Some? && chosen.assignedWorkerId.value != ""
  {
    hide Eligible, Best, Holds, RotationDue;
  }

  lemma RowReadsColumns(pool: iset<SelectableProxy>, req: Request, o: Outcome)
    requires DistinctIds(pool) && Selects(pool, req, o) && o.selected.Some?
    ensures
      var chosen := o.selected.value;
      && chosen in pool && Serves(chosen, req)
      && (o.sticky ==> Holds(chosen, req))
      && (!o.sticky && Holds(chosen, req) ==> forall q :: q in pool && Serves(q, req) ==> Holds(q, req))
      && (!o.sticky && !Holds(chosen, req) ==>
            forall q :: q in pool && q != chosen && Serves(q, req) && !Holds(q, req) ==> ComesBefore(chosen, q))
  {
    var eligible := iset p | p in pool && Eligible(p, req);
    var own := iset p | p in eligible && Holds(p, req);
    var others, chosen := eligible - own, o.selected.value;
    forall p ensures p in eligible <==> p in pool && Serves(p, req) { EligibleIffServes(p, req); }
    if Best(chosen, others) { BestOfOthers(others, chosen); }
    hide Eligible, Serves, Best, ComesBefore, Holds;
    assert if o.sticky || others == iset{} then chosen in own else chosen in others;
    forall q | others == iset{} && q in pool && Serves(q, req) ensures q in own {
      assert q in eligible && q !in others;
    }
  }

  lemma NothingServes(pool: iset<SelectableProxy>, req: Request, o: Outcome)
    requires Selects(pool, req, o)
    ensures o.selected.None? <==> req.mode == Off || forall p :: p in pool ==> !Serves(p, req)
  {
    var eligible := iset p | p in pool && Eligible(p, req);
    forall p ensures p in eligible <==> p in pool && Serves(p, req) { EligibleIffServes(p, req); }
    hide Eligible, Serves, Best, Holds, RotationDue;
    assert eligible != iset{} <==> exists p :: p in eligible;
    assert o.selected.None? <==> req.mode == Off || eligible == iset{};
  }

  lemma RuleReadsColumns(pool: iset<SelectableProxy>, req: Request, o: Outcome)
    requires DistinctIds(pool) && Selects(pool, req, o)
    ensures ChosenByColumns(pool, req, o)
  {
    hide Selects, Serves, ComesBefore, Holds, Settled;
    NothingServes(pool, req, o);
    if o.selected.Some? {
      FlagsReadColumns(pool, req, o);
      RowReadsColumns(pool, req, o);
      ReasonReadsColumns(pool, req, o);
    }
  }

  /** What `selectProxy` answers, in terms of the rows' columns alone. */
  lemma SelectionReadsColumns(s: seq<SelectableProxy>, req: Request)
    requires UniqueIds(s) && OneRowPerWorker(s)
    ensures ChosenByColumns(AsSet(s), req, SelectProxy(s, req))
  {
    SelectProxyFollowsTheRule(s, req);
    RuleReadsColumns(AsSet(s), req, SelectProxy(s, req));
  }

  predicate MayServe(p: SelectableProxy, req: Request) {
    p.providerCode.Some? && req.providerCode.Some? ==> p.providerCode == req.providerCode
  }

  /** Why nothing is selected: the first of these that describes every row of the provider. */
  ghost function RefusalByColumns(pool: iset<SelectableProxy>, req: Request): Unavailable {
    if req.mode == Off then PoolDisabled
    else if forall p :: p !in pool then NoProxies
    else if forall p :: p in pool ==> !MayServe(p, req) then ProviderMismatch
    else if forall p :: p in pool && MayServe(p, req) ==> !p.enabled then AllDisabled
    else if forall p :: p in pool && MayServe(p, req) ==> p.status == Dead then AllDead
    else if forall p :: p in pool && MayServe(p, req) ==>
      p.status == Quarantined || (p.quarantinedUntil.Some? && req.now < p.quarantinedUntil.value) then AllQuarantined
    else if forall p :: p in pool && MayServe(p, req) ==> p.healthScore < req.minHealthScore then AllUnhealthy
    else AllQuarantined
  }

  lemma RefusalReadsColumns(pool: iset<SelectableProxy>, req: Request)
    ensures RefusalReason(pool, req) == RefusalByColumns(pool, req)
  {
    var relevant := iset p | p in pool && Affine(p, req.providerCode);
    assert forall p :: p in relevant <==> p in pool && MayServe(p, req);
    assert pool == iset{} <==> forall p :: p !in pool;
    assert relevant == iset{} <==> forall p :: p !in relevant;
  }
}
