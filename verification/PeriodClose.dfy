/**
 The period-close protocol as a state machine over committed steps.

 Each step is one committed write of the attendance services: it either yields a new state or
 is refused and changes nothing. `guarded` says whether the database carries the write guard
 of migration 0011, which refuses any attendance row write inside a CLOSED period.
 */
module PeriodClose {
  import opened Basics
  import opened Domain
  import opened Derivation
  import opened Refresh
  import opened CloseSnapshot

  datatype CloseStatus = Draft | Submitted | CloseApproved | Closed | Reopened

  datatype Close = Close(
    scope: PeriodScope, version: nat, status: CloseStatus, previous: Option<nat>, key: string,
    snapshot: Snapshot, blockers: nat)

  datatype EventKind = Reconciled | DidSubmit | DidApprove | DidClose | DidReopen

  /** An audit event with the evidence it copies from the close version. */
  datatype Event = Event(close: nat, kind: EventKind, reason: string, status: CloseStatus, version: nat,
    snapshot: Snapshot)

  /** One tenant's attendance data. Table positions are primary keys. */
  datatype State = State(
    guarded: bool, entities: set<Id>, world: World, records: seq<Record>,
    regs: seq<Regularization>, closes: seq<Close>, events: seq<Event>)

  datatype Action = DoSubmit | DoApprove | DoClose | DoReopen | Unsupported(name: string)

  datatype BulkAction = Lock | Unlock | SetStatus(status: Status) | MarkRegularized | ClearRegularized

  datatype Step =
    | CreateRecord(record: Record)
    | EnsureDay(employee: Id, date: Date)
    | RefreshRow(row: nat, from: Date, to: Date)
    | Submit(row: nat, requestedStatus: Status, requestedIn: Option<int>, requestedOut: Option<int>, reason: string)
    | Resolve(reg: nat, approve: bool)
    | Reconcile(scope: PeriodScope, key: string)
    | Transition(close: nat, action: Action, note: string)
    | Configure(world: World)
    | BulkEdit(bulk: BulkAction, rows: set<nat>)
    | EditRow(row: nat, values: Record)

  datatype Refusal =
    | NoSuchRow | DuplicateDay | InactiveEmployee | PeriodIsClosed
    | RecordLocked | AlreadyPending | NotAllowed | ReasonRequired | AlreadyResolved
    | ForeignEntity | ActiveVersionExists | ReversedPeriod
    | UnsupportedAction | WrongStatus | HasBlockers | StaleEvidence

  /** `row` is the table position of the row the call returns. */
  datatype Outcome = Done(next: State, row: nat) | Refused(why: Refusal)

  // --------------------------------------------------------- the write guard

  predicate ClosedOver(w: World, c: Close, r: Record) {
    c.status.Closed? && InScope(w, r, c.scope)
  }

  /** The row lies in a period whose close version is CLOSED. */
  predicate Sealed(s: State, r: Record) {
    exists c :: 0 <= c < |s.closes| && ClosedOver(s.world, s.closes[c], r)
  }

  predicate WriteRefused(s: State, r: Record) {
    s.guarded && Sealed(s, r)
  }

  // ------------------------------------------------------------------ records

  predicate HasDay(records: seq<Record>, employee: Id, date: Date) {
    exists i :: 0 <= i < |records| && records[i].employee == employee && records[i].date == date
  }

  function Create(s: State, r: Record): Outcome {
    if WriteRefused(s, r) then Refused(PeriodIsClosed)
    else if HasDay(s.records, r.employee, r.date) then Refused(DuplicateDay)
    else Done(s.(records := s.records + [r.(locked := false, regularized := false)]), |s.records|)
  }

  function BlankRecord(employee: Id, date: Date): Record {
    Record(employee, date, Unknown, System, None, None, None, None, 0, 0, 0, 0, false, false)
  }

  function RowOfDay(records: seq<Record>, employee: Id, date: Date): (i: nat)
    requires HasDay(records, employee, date)
    ensures i < |records| && records[i].employee == employee && records[i].date == date
  {
    if records[0].employee == employee && records[0].date == date then 0
    else
      assert HasDay(records[1..], employee, date) by {
        var i :| 0 <= i < |records| && records[i].employee == employee && records[i].date == date;
        assert records[1..][i - 1] == records[i];
      }
      1 + RowOfDay(records[1..], employee, date)
  }

  /** Get or create one day's row; only a new row is derived. */
  function Ensure(s: State, employee: Id, date: Date): Outcome {
    if !Person(s.world, employee).active then Refused(InactiveEmployee)
    else if HasDay(s.records, employee, date) then Done(s, RowOfDay(s.records, employee, date))
    else Create(s, Rederive(s.world, BlankRecord(employee, date)))
  }

  function PutRecord(s: State, i: nat, r: Record): State
    requires i < |s.records|
  {
    s.(records := s.records[i := r])
  }

  function RefreshOne(s: State, i: nat, from: Date, to: Date): Outcome {
    if i >= |s.records| then Refused(NoSuchRow)
    else if !Refreshable(s.records[i], from, to) then Done(s, i)
    else if WriteRefused(s, s.records[i]) then Refused(PeriodIsClosed)
    else Done(PutRecord(s, i, Rederive(s.world, s.records[i])), i)
  }

  // ----------------------------------------------------------- regularization

  predicate HasPending(s: State, i: nat) {
    exists k :: 0 <= k < |s.regs| && s.regs[k].record == i && s.regs[k].status.RegPending?
  }

  function RecordPolicy(s: State, r: Record): Option<Policy> {
    PolicyFor(s.world, Person(s.world, r.employee), r.date)
  }

  function SubmitOutcome(
    s: State, i: nat, requestedStatus: Status, requestedIn: Option<int>, requestedOut: Option<int>,
      reason: string): Outcome
  {
    if i >= |s.records| then Refused(NoSuchRow)
    else
      var policy := RecordPolicy(s, s.records[i]);
      if s.records[i].locked then Refused(RecordLocked)
      else if HasPending(s, i) then Refused(AlreadyPending)
      else if policy.Some? && !policy.value.allowRegularization then Refused(NotAllowed)
      else if policy.Some? && policy.value.requireReason && IsBlank(reason) then Refused(ReasonRequired)
      else
        var request := Regularization(i, RegPending, requestedStatus, requestedIn, requestedOut, reason);
        Done(s.(regs := s.regs + [request]), |s.regs|)
  }

  function Preferred(requested: Option<int>, current: Option<int>): Option<int> {
    if requested.Some? then requested else current
  }

  /** The corrected row: requested punches and status, the shift already on the row kept if it exists. */
  function Corrected(w: World, r: Record, g: Regularization): Record {
    var checkIn, checkOut := Preferred(g.requestedIn, r.checkIn), Preferred(g.requestedOut, r.checkOut);
    var run := EvaluateRuntime(w, Person(w, r.employee), r.date, checkIn, checkOut,
      Some(g.requestedStatus), ShiftById(w, r.shift));
    WithRuntime(r, run).(checkIn := checkIn, checkOut := checkOut, regularized := true)
  }

  /** Resolution looks at the request's status only; the row's lock is not consulted. */
  function ResolveOutcome(s: State, k: nat, approve: bool): Outcome {
    if k >= |s.regs| then Refused(NoSuchRow)
    else
      var desired := if approve then RegApproved else RegRejected;
      var g := s.regs[k];
      if g.status == desired then Done(s, k)
      else if g.status.RegApproved? || g.status.RegRejected? then Refused(AlreadyResolved)
      else
        var resolved := s.(regs := s.regs[k := g.(status := desired)]);
        if !approve then Done(resolved, k)
        else if g.record >= |s.records| then Refused(NoSuchRow)
        else if WriteRefused(s, s.records[g.record]) then Refused(PeriodIsClosed)
        else Done(PutRecord(resolved, g.record, Corrected(s.world, s.records[g.record], g)), k)
  }

  // ------------------------------------------------------------- close versions

  function KeyOwner(closes: seq<Close>, key: string): Option<nat> {
    if closes == [] then None
    else
      var init := KeyOwner(closes[..|closes| - 1], key);
      if init.Some? then init
      else if closes[|closes| - 1].key == key then Some(|closes| - 1) else None
  }

  /** A version reconciled with blockers is still a draft. */
  predicate BlockersMeanDraft(c: Close) {
    c.blockers > 0 ==> c.status.Draft?
  }

  /** The version of the scope with the highest number. */
  function Latest(closes: seq<Close>, scope: PeriodScope): (l: Option<nat>)
    ensures l.Some? ==> l.value < |closes| && closes[l.value].scope == scope
  {
    if closes == [] then None
    else
      var n := |closes| - 1;
      var init := Latest(closes[..n], scope);
      if closes[n].scope == scope
         && (init.None? || closes[n].version > closes[init.value].version) then Some(n) else init
  }

  /** It is found whenever the scope has a version, and none of the scope's versions has a higher number. */
  lemma {:induction false} LatestIsHighest(closes: seq<Close>, scope: PeriodScope)
    ensures var l := Latest(closes, scope);
            && (l.None? <==> forall c :: 0 <= c < |closes| ==> closes[c].scope != scope)
            && (l.Some? ==> forall c :: 0 <= c < |closes| && closes[c].scope == scope ==>
                 closes[c].version <= closes[l.value].version)
  {
    if closes != [] {
      var init := closes[..|closes| - 1];
      LatestIsHighest(init, scope);
      assert forall c :: 0 <= c < |init| ==> closes[c] == init[c];
    }
  }

  function EventFor(c: nat, kind: EventKind, reason: string, close: Close): Event {
    Event(c, kind, reason, close.status, close.version, close.snapshot)
  }

  /** A key already used by the tenant returns its version, whatever scope is asked for. */
  function ReconcileOutcome(s: State, scope: PeriodScope, key: string): Outcome {
    var existing := KeyOwner(s.closes, key);
    if existing.Some? then Done(s, existing.value)
    else if scope.entity !in s.entities then Refused(ForeignEntity)
    else
      var previous := Latest(s.closes, scope);
      if previous.Some? && !s.closes[previous.value].status.Reopened? then Refused(ActiveVersionExists)
      else if scope.until < scope.from then Refused(ReversedPeriod)
      else
        var snapshot := SnapshotOf(s.world, s.records, s.regs, scope);
        var close := Close(scope, if previous.Some? then s.closes[previous.value].version + 1 else 1, Draft,
          previous, key, snapshot, Blockers(snapshot));
        Done(s.(closes := s.closes + [close], events := s.events + [EventFor(|s.closes|, Reconciled, "", close)]),
          |s.closes|)
  }

  function SourceStatus(a: Action): CloseStatus
    requires !a.Unsupported?
  {
    match a
    case DoSubmit => Draft
    case DoApprove => Submitted
    case DoClose => CloseApproved
    case DoReopen => Closed
  }

  function TargetStatus(a: Action): CloseStatus
    requires !a.Unsupported?
  {
    match a
    case DoSubmit => Submitted
    case DoApprove => CloseApproved
    case DoClose => Closed
    case DoReopen => Reopened
  }

  function KindFor(a: Action): EventKind
    requires !a.Unsupported?
  {
    match a
    case DoSubmit => DidSubmit
    case DoApprove => DidApprove
    case DoClose => DidClose
    case DoReopen => DidReopen
  }

  function LockScope(w: World, records: seq<Record>, p: PeriodScope, locked: bool): (after: seq<Record>)
    ensures |after| == |records|
    ensures forall i :: 0 <= i < |records| ==>
              after[i] == if InScope(w, records[i], p) then records[i].(locked := locked) else records[i]
  {
    seq(|records|, i requires 0 <= i < |records| =>
      if InScope(w, records[i], p) then records[i].(locked := locked) else records[i])
  }

  /** Some row of the scope lies in a period closed by a version other than `c`. */
  predicate SealedElsewhere(s: State, c: nat) {
    c < |s.closes|
    && exists i, o :: 0 <= i < |s.records| && 0 <= o < |s.closes| && o != c && SharesRow(s, i, c, o)
  }

  predicate SharesRow(s: State, i: nat, c: nat, o: nat)
    requires i < |s.records| && c < |s.closes| && o < |s.closes|
  {
    InScope(s.world, s.records[i], s.closes[c].scope) && ClosedOver(s.world, s.closes[o], s.records[i])
  }

  /** The state after version `c` moves by `a`, with its audit event. */
  function Moved(s: State, c: nat, a: Action, reason: string): State
    requires c < |s.closes| && !a.Unsupported?
  {
    var close := s.closes[c].(status := TargetStatus(a));
    s.(closes := s.closes[c := close],
       events := s.events + [EventFor(c, KindFor(a), reason, close)],
       records := if a.DoClose? || a.DoReopen? then LockScope(s.world, s.records, close.scope, a.DoClose?)
                  else s.records)
  }

  function TransitionOutcome(s: State, c: nat, a: Action, reason: string): Outcome {
    if c >= |s.closes| then Refused(NoSuchRow)
    else if a.Unsupported? then Refused(UnsupportedAction)
    else
      var close := s.closes[c];
      if close.status == TargetStatus(a) then Done(s, c)
      else if close.status != SourceStatus(a) then Refused(WrongStatus)
      else if !a.DoReopen? && close.blockers != 0 then Refused(HasBlockers)
      else if a.DoReopen? && IsBlank(reason) then Refused(ReasonRequired)
      else if a.DoClose? && SnapshotOf(s.world, s.records, s.regs, close.scope) != close.snapshot
        then Refused(StaleEvidence)
      else if (a.DoClose? || a.DoReopen?) && s.guarded && SealedElsewhere(s, c) then Refused(PeriodIsClosed)
      else Done(Moved(s, c, a, reason), c)
  }

  // --------------------------------------------------------- manual bulk edits

  function BulkEdited(b: BulkAction, r: Record): Record {
    match b
    case Lock => r.(locked := true)
    case Unlock => r.(locked := false)
    case SetStatus(status) => r.(status := status)
    case MarkRegularized => r.(regularized := true)
    case ClearRegularized => r.(regularized := false)
  }

  /** The whole batch is rolled back when the guard refuses one row. */
  function BulkOutcome(s: State, b: BulkAction, rows: set<nat>): Outcome {
    if exists i :: 0 <= i < |s.records| && i in rows && WriteRefused(s, s.records[i]) then Refused(PeriodIsClosed)
    else
      Done(s.(records := seq(|s.records|, i requires 0 <= i < |s.records| =>
        if i in rows then BulkEdited(b, s.records[i]) else s.records[i])), |s.records|)
  }

  /** The administrators' form for one row may write any values but the employee and the date. */
  function EditOutcome(s: State, i: nat, values: Record): Outcome {
    if i >= |s.records| then Refused(NoSuchRow)
    else if WriteRefused(s, s.records[i]) then Refused(PeriodIsClosed)
    else Done(PutRecord(s, i, values.(employee := s.records[i].employee, date := s.records[i].date)), i)
  }

  // ---------------------------------------------------------------------- runs

  function Apply(s: State, step: Step): Outcome {
    match step
    case CreateRecord(r) => Create(s, r)
    case EnsureDay(employee, date) => Ensure(s, employee, date)
    case RefreshRow(i, from, to) => RefreshOne(s, i, from, to)
    case Submit(i, status, checkIn, checkOut, reason) => SubmitOutcome(s, i, status, checkIn, checkOut, reason)
    case Resolve(k, approve) => ResolveOutcome(s, k, approve)
    case Reconcile(scope, key) => ReconcileOutcome(s, scope, key)
    case Transition(c, action, note) => TransitionOutcome(s, c, action, note)
    case Configure(world) => Done(s.(world := world), 0)
    case BulkEdit(bulk, rows) => BulkOutcome(s, bulk, rows)
    case EditRow(i, values) => EditOutcome(s, i, values)
  }

  function Next(s: State, step: Step): State {
    var outcome := Apply(s, step);
    if outcome.Done? then outcome.next else s
  }

  /** Configuration may change freely, but no employee changes legal entity during a run. */
  ghost predicate Allowed(s: State, step: Step) {
    step.Configure? ==> forall e: Id :: EntityOf(step.world, e) == EntityOf(s.world, e)
  }

  /** `states[k + 1]` is `states[k]` after `steps[k]`; any step may come at any point. */
  ghost predicate IsRun(states: seq<State>, steps: seq<Step>) {
    && |states| == |steps| + 1
    && forall k :: 0 <= k < |steps| ==> Allowed(states[k], steps[k]) && states[k + 1] == Next(states[k], steps[k])
  }

  /** Rows edited by an administrator rather than by the attendance services. */
  predicate ByHand(step: Step) {
    step.BulkEdit? || step.EditRow?
  }

  /** A run of the attendance services alone, without manual edits of rows. */
  ghost predicate IsServiceRun(states: seq<State>, steps: seq<Step>) {
    IsRun(states, steps) && forall k :: 0 <= k < |steps| ==> !ByHand(steps[k])
  }

  /** Nothing closed, nothing requested, nothing locked yet; any rows and any configuration. */
  ghost predicate Initial(s: State) {
    && s.regs == [] && s.closes == [] && s.events == []
    && forall i :: 0 <= i < |s.records| ==> !s.records[i].locked
  }
}
