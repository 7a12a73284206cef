/** Safety of every run of the period-close protocol: locks, corrections and frozen rows. */
module CloseSafety {
  import opened Basics
  import opened Domain
  import opened Derivation
  import opened Refresh
  import opened CloseSnapshot
  import opened PeriodClose

  // -------------------------------------------------------------- invariants

  /** Corrections are pending or settled, and none is pending on a locked row. */
  ghost predicate RegsSound(s: State) {
    forall k :: 0 <= k < |s.regs| ==> RegSound(s, s.regs[k])
  }

  predicate RegSound(s: State, g: Regularization) {
    && g.record < |s.records|
    && g.status in {RegPending, RegApproved, RegRejected}
    && (g.status.RegPending? ==> !s.records[g.record].locked)
  }

  /** A locked row lies in a CLOSED period. */
  ghost predicate LocksCovered(s: State) {
    forall i :: 0 <= i < |s.records| && s.records[i].locked ==> Sealed(s, s.records[i])
  }

  /** A row in a CLOSED period is locked. */
  ghost predicate SealsLocked(s: State) {
    forall i :: 0 <= i < |s.records| && Sealed(s, s.records[i]) ==> s.records[i].locked
  }

  /** Every row is locked exactly when some CLOSED version covers it. */
  ghost predicate LocksExact(s: State) {
    forall i :: 0 <= i < |s.records| ==> (s.records[i].locked <==> Sealed(s, s.records[i]))
  }

  /** A version's blocker count is its snapshot's, and a version with blockers is a draft. */
  ghost predicate ClosesSound(s: State) {
    forall c :: 0 <= c < |s.closes| ==> CloseSound(s.closes[c])
  }

  predicate CloseSound(c: Close) {
    c.snapshot.scope == c.scope && c.blockers == Blockers(c.snapshot) && BlockersMeanDraft(c)
  }

  ghost predicate Safe(s: State) {
    RegsSound(s) && LocksCovered(s) && ClosesSound(s)
  }

  lemma ExactIsSealsLocked(s: State)
    requires LocksCovered(s)
    ensures LocksExact(s) <==> SealsLocked(s)
  {
  }

  // -------------------------------------------------------------------- frames

  /** Rows keep their employee, date and lock; rows may be appended unlocked. */
  ghost predicate SameLocks(before: seq<Record>, after: seq<Record>) {
    && |before| <= |after|
    && (forall i :: 0 <= i < |before| ==>
         after[i].employee == before[i].employee && after[i].date == before[i].date
           && after[i].locked == before[i].locked)
    && (forall i :: |before| <= i < |after| ==> !after[i].locked)
  }

  lemma SealedByKey(s: State, t: State, r: Record, q: Record)
    requires s.closes == t.closes && s.world == t.world && r.employee == q.employee && r.date == q.date
    ensures Sealed(s, r) <==> Sealed(t, q)
  {
    assert forall c :: 0 <= c < |s.closes| ==>
      (ClosedOver(s.world, s.closes[c], r) <==> ClosedOver(t.world, t.closes[c], q));
  }

  /** Steps that leave locks, periods and settled corrections alone keep every invariant. */
  lemma FramedStepIsSafe(s: State, t: State)
    requires Safe(s)
    requires t.closes == s.closes && t.world == s.world
    requires SameLocks(s.records, t.records) && RegsSound(t)
    ensures Safe(t)
    ensures SealsLocked(s) ==>
              (SealsLocked(t) <==> forall i :: |s.records| <= i < |t.records| ==> !Sealed(t, t.records[i]))
  {
    forall i | 0 <= i < |s.records|
      ensures Sealed(s, s.records[i]) <==> Sealed(t, t.records[i])
    {
      SealedByKey(s, t, s.records[i], t.records[i]);
    }
  }

  lemma RederiveKeepsKey(w: World, r: Record)
    ensures var q := Rederive(w, r); q.employee == r.employee && q.date == r.date && q.locked == r.locked
  {
  }

  lemma CorrectedKeepsKey(w: World, r: Record, g: Regularization)
    ensures var q := Corrected(w, r, g); q.employee == r.employee && q.date == r.date && q.locked == r.locked
  {
  }

  // ------------------------------------------------------------ step by step

  lemma CreateIsSafe(s: State, r: Record)
    requires Safe(s) && Create(s, r).Done?
    ensures var t := Create(s, r).next;
            Safe(t) && (SealsLocked(s) ==> (SealsLocked(t) <==> !Sealed(s, r)))
  {
    var t := Create(s, r).next;
    SealedByKey(s, t, r, t.records[|s.records|]);
    FramedStepIsSafe(s, t);
  }

  lemma RefreshIsSafe(s: State, i: nat, from: Date, to: Date)
    requires Safe(s) && RefreshOne(s, i, from, to).Done?
    ensures var t := RefreshOne(s, i, from, to).next;
            Safe(t) && (SealsLocked(s) ==> SealsLocked(t))
  {
    RederiveKeepsKey(s.world, s.records[i]);
    FramedStepIsSafe(s, RefreshOne(s, i, from, to).next);
  }

  lemma SubmitIsSafe(s: State, i: nat, status: Status, checkIn: Option<int>, checkOut: Option<int>, reason: string)
    requires Safe(s) && SubmitOutcome(s, i, status, checkIn, checkOut, reason).Done?
    ensures var t := SubmitOutcome(s, i, status, checkIn, checkOut, reason).next;
            Safe(t) && (SealsLocked(s) ==> SealsLocked(t))
  {
    FramedStepIsSafe(s, SubmitOutcome(s, i, status, checkIn, checkOut, reason).next);
  }

  lemma ResolveIsSafe(s: State, k: nat, approve: bool)
    requires Safe(s) && ResolveOutcome(s, k, approve).Done?
    ensures var t := ResolveOutcome(s, k, approve).next;
            Safe(t) && (SealsLocked(s) ==> SealsLocked(t))
  {
    assert RegSound(s, s.regs[k]);
    CorrectedKeepsKey(s.world, s.records[s.regs[k].record], s.regs[k]);
    FramedStepIsSafe(s, ResolveOutcome(s, k, approve).next);
  }

  lemma ReconcileIsSafe(s: State, scope: PeriodScope, key: string)
    requires Safe(s) && ReconcileOutcome(s, scope, key).Done?
    ensures var t := ReconcileOutcome(s, scope, key).next;
            Safe(t) && (SealsLocked(s) ==> SealsLocked(t))
  {
    var t := ReconcileOutcome(s, scope, key).next;
    forall i | 0 <= i < |s.records|
      ensures Sealed(s, s.records[i]) <==> Sealed(t, t.records[i])
    {
      DraftsSealNothing(s, t, s.records[i]);
    }
    assert forall k :: 0 <= k < |s.regs| ==> RegSound(s, s.regs[k]);
  }

  lemma DraftsSealNothing(s: State, t: State, r: Record)
    requires t.world == s.world && |s.closes| <= |t.closes| <= |s.closes| + 1 && t.closes[..|s.closes|] == s.closes
    requires |t.closes| > |s.closes| ==> !t.closes[|s.closes|].status.Closed?
    ensures Sealed(s, r) <==> Sealed(t, r)
  {
    assert forall c :: 0 <= c < |s.closes| ==> t.closes[c] == s.closes[c];
  }

  lemma ConfigureIsSafe(s: State, w: World)
    requires Safe(s) && Allowed(s, Configure(w))
    ensures Safe(s.(world := w)) && (SealsLocked(s) ==> SealsLocked(s.(world := w)))
  {
    forall r: Record
      ensures Sealed(s, r) <==> Sealed(s.(world := w), r)
    {
      SealedUnderNewConfiguration(s, w, r);
    }
    assert forall k :: 0 <= k < |s.regs| ==> RegSound(s, s.regs[k]);
  }

  lemma SealedUnderNewConfiguration(s: State, w: World, r: Record)
    requires Allowed(s, Configure(w))
    ensures Sealed(s, r) <==> Sealed(s.(world := w), r)
  {
    assert EntityOf(w, r.employee) == EntityOf(s.world, r.employee);
    assert forall c :: 0 <= c < |s.closes| ==> (ClosedOver(s.world, s.closes[c], r) <==> ClosedOver(w, s.closes[c], r));
  }

  // ----------------------------------------------------------------- transitions

  /** What a committed close relies on: no blockers and unchanged evidence leave nothing open in the period. */
  lemma CloseFindsNothingOpen(s: State, c: nat, reason: string)
    requires ClosesSound(s) && c < |s.closes| && !s.closes[c].status.Closed?
    requires TransitionOutcome(s, c, DoClose, reason).Done?
    ensures forall i :: 0 <= i < |s.records| && InScope(s.world, s.records[i], s.closes[c].scope) ==>
              !s.records[i].status.Unknown?
    ensures forall k :: 0 <= k < |s.regs| ==> !PendingInScope(s.world, s.records, s.regs[k], s.closes[c].scope)
  {
    assert CloseSound(s.closes[c]);
    ZeroBlockersMeansResolved(s.world, s.records, s.regs, s.closes[c].scope);
  }

  /** Seals after a version moves: its own period's seal follows the new status, the others stay. */
  lemma SealsAfterMove(s: State, c: nat, a: Action, reason: string, i: nat)
    requires c < |s.closes| && !a.Unsupported? && i < |s.records|
    ensures var t := Moved(s, c, a, reason);
            Sealed(t, t.records[i]) <==>
              || (a.DoClose? && InScope(s.world, s.records[i], s.closes[c].scope))
              || (exists o :: 0 <= o < |s.closes| && o != c && ClosedOver(s.world, s.closes[o], s.records[i]))
  {
    var t := Moved(s, c, a, reason);
    var r, q := s.records[i], t.records[i];
    assert forall o :: 0 <= o < |s.closes| && o != c ==>
      (ClosedOver(t.world, t.closes[o], q) <==> ClosedOver(s.world, s.closes[o], r));
    assert ClosedOver(t.world, t.closes[c], q) <==> a.DoClose? && InScope(s.world, r, s.closes[c].scope);
  }

  lemma QuietMoveIsSafe(s: State, c: nat, a: Action, reason: string)
    requires Safe(s) && (a.DoSubmit? || a.DoApprove?) && c < |s.closes|
    requires s.closes[c].status == SourceStatus(a) && s.closes[c].blockers == 0
    ensures var t := Moved(s, c, a, reason);
            Safe(t) && (SealsLocked(s) ==> SealsLocked(t))
  {
    var t := Moved(s, c, a, reason);
    forall i | 0 <= i < |s.records|
      ensures Sealed(s, s.records[i]) <==> Sealed(t, t.records[i])
    {
      SealsAfterMove(s, c, a, reason, i);
      SealedBefore(s, c, i);
    }
    assert forall k :: 0 <= k < |s.regs| ==> RegSound(s, s.regs[k]);
  }

  lemma CloseMoveIsSafe(s: State, c: nat, reason: string)
    requires Safe(s) && c < |s.closes| && s.closes[c].status.CloseApproved?
    requires TransitionOutcome(s, c, DoClose, reason).Done?
    ensures var t := Moved(s, c, DoClose, reason);
            Safe(t) && (SealsLocked(s) ==> SealsLocked(t))
  {
    var t := Moved(s, c, DoClose, reason);
    CloseFindsNothingOpen(s, c, reason);
    forall i | 0 <= i < |s.records|
      ensures t.records[i].locked ==> Sealed(t, t.records[i])
      ensures SealsLocked(s) && Sealed(t, t.records[i]) ==> t.records[i].locked
    {
      SealsAfterMove(s, c, DoClose, reason, i);
      SealedBefore(s, c, i);
    }
    forall k | 0 <= k < |t.regs|
      ensures RegSound(t, t.regs[k])
    {
      assert RegSound(s, s.regs[k]) && !PendingInScope(s.world, s.records, s.regs[k], s.closes[c].scope);
    }
  }

  lemma SealedBefore(s: State, c: nat, i: nat)
    requires c < |s.closes| && i < |s.records|
    ensures Sealed(s, s.records[i]) <==>
              || ClosedOver(s.world, s.closes[c], s.records[i])
              || (exists o :: 0 <= o < |s.closes| && o != c && ClosedOver(s.world, s.closes[o], s.records[i]))
  {
  }

  /** After a reopen the row is unlocked in a still CLOSED period exactly when another version shares it. */
  lemma ReopenedRow(s: State, c: nat, reason: string, i: nat)
    requires Safe(s) && c < |s.closes| && s.closes[c].status.Closed? && i < |s.records|
    ensures var t := Moved(s, c, DoReopen, reason);
            && (t.records[i].locked ==> Sealed(t, t.records[i]))
            && (SealsLocked(s) ==>
                 (Sealed(t, t.records[i]) && !t.records[i].locked <==>
                   exists o :: 0 <= o < |s.closes| && o != c && SharesRow(s, i, c, o)))
  {
    SealsAfterMove(s, c, DoReopen, reason, i);
    SealedBefore(s, c, i);
    assert forall o :: 0 <= o < |s.closes| && InScope(s.world, s.records[i], s.closes[c].scope) ==>
      (SharesRow(s, i, c, o) <==> ClosedOver(s.world, s.closes[o], s.records[i]));
  }

  lemma ReopenMoveIsSafe(s: State, c: nat, reason: string)
    requires Safe(s) && c < |s.closes| && s.closes[c].status.Closed? && s.closes[c].blockers == 0
    ensures var t := Moved(s, c, DoReopen, reason);
            Safe(t) && (SealsLocked(s) ==> (SealsLocked(t) <==> !SealedElsewhere(s, c)))
  {
    var t := Moved(s, c, DoReopen, reason);
    forall i | 0 <= i < |s.records|
      ensures t.records[i].locked ==> Sealed(t, t.records[i])
      ensures SealsLocked(s) ==>
                (Sealed(t, t.records[i]) && !t.records[i].locked <==>
                  exists o :: 0 <= o < |s.closes| && o != c && SharesRow(s, i, c, o))
    {
      ReopenedRow(s, c, reason, i);
    }
    assert forall k :: 0 <= k < |s.regs| ==> RegSound(s, s.regs[k]);
  }

  lemma TransitionIsSafe(s: State, c: nat, a: Action, reason: string)
    requires Safe(s) && TransitionOutcome(s, c, a, reason).Done?
    ensures var t := TransitionOutcome(s, c, a, reason).next;
            && Safe(t)
            && (SealsLocked(s) ==>
                 (SealsLocked(t) <==> !(a.DoReopen? && s.closes[c].status.Closed? && SealedElsewhere(s, c))))
  {
    assert CloseSound(s.closes[c]);
    if s.closes[c].status != TargetStatus(a) {
      match a
      case DoSubmit => QuietMoveIsSafe(s, c, a, reason);
      case DoApprove => QuietMoveIsSafe(s, c, a, reason);
      case DoClose => CloseMoveIsSafe(s, c, reason);
      case DoReopen => ReopenMoveIsSafe(s, c, reason);
    }
  }

  /**
   The only service steps that can separate locks from CLOSED periods: a row created inside a
   CLOSED period, or a reopen of rows that another CLOSED version also covers.
   */
  predicate SeparatesLocks(s: State, step: Step) {
    Apply(s, step).Done? &&
    match step
    case CreateRecord(r) => Sealed(s, r)
    case EnsureDay(employee, date) => !HasDay(s.records, employee, date) && Sealed(s, BlankRecord(employee, date))
    case Transition(c, a, _) => a.DoReopen? && s.closes[c].status.Closed? && SealedElsewhere(s, c)
    case _ => false
  }

  lemma EnsureIsSafe(s: State, employee: Id, date: Date)
    requires Safe(s) && Ensure(s, employee, date).Done?
    ensures var t := Ensure(s, employee, date).next;
            && Safe(t)
            && (SealsLocked(s) ==>
                 (SealsLocked(t) <==> HasDay(s.records, employee, date) || !Sealed(s, BlankRecord(employee, date))))
  {
    var blank := BlankRecord(employee, date);
    if !HasDay(s.records, employee, date) {
      RederiveKeepsKey(s.world, blank);
      SealedByKey(s, s, blank, Rederive(s.world, blank));
      CreateIsSafe(s, Rederive(s.world, blank));
    }
  }

  /** Every service step keeps the invariants, and keeps locks exact precisely when it does not separate them. */
  lemma StepIsSafe(s: State, step: Step)
    requires Safe(s) && Allowed(s, step) && !ByHand(step)
    ensures Safe(Next(s, step))
    ensures SealsLocked(s) ==> (SealsLocked(Next(s, step)) <==> !SeparatesLocks(s, step))
  {
    if Apply(s, step).Done? {
      match step
      case CreateRecord(r) => CreateIsSafe(s, r);
      case EnsureDay(employee, date) => EnsureIsSafe(s, employee, date);
      case RefreshRow(i, from, to) => RefreshIsSafe(s, i, from, to);
      case Submit(i, status, checkIn, checkOut, reason) => SubmitIsSafe(s, i, status, checkIn, checkOut, reason);
      case Resolve(k, approve) => ResolveIsSafe(s, k, approve);
      case Reconcile(scope, key) => ReconcileIsSafe(s, scope, key);
      case Transition(c, action, note) => TransitionIsSafe(s, c, action, note);
      case Configure(world) => ConfigureIsSafe(s, world);
    }
  }

  lemma GuardIsConstant(s: State, step: Step)
    ensures Next(s, step).guarded == s.guarded
  {
  }

  /** The guard refuses both separating steps. */
  lemma GuardPreventsSeparation(s: State, step: Step)
    requires s.guarded
    ensures !SeparatesLocks(s, step)
  {
    if step.EnsureDay? {
      var blank := BlankRecord(step.employee, step.date);
      RederiveKeepsKey(s.world, blank);
      SealedByKey(s, s, blank, Rederive(s.world, blank));
    }
  }

  lemma {:induction false} RunIsSafe(states: seq<State>, steps: seq<Step>, k: nat)
    requires IsServiceRun(states, steps) && Initial(states[0]) && k < |states|
    ensures Safe(states[k]) && states[k].guarded == states[0].guarded
    ensures states[0].guarded ==> SealsLocked(states[k])
    decreases k
  {
    hide Next;
    if k > 0 {
      RunIsSafe(states, steps, k - 1);
      StepIsSafe(states[k - 1], steps[k - 1]);
      GuardIsConstant(states[k - 1], steps[k - 1]);
      if states[0].guarded {
        GuardPreventsSeparation(states[k - 1], steps[k - 1]);
      }
    }
  }

  // -------------------------------------------------------------- main results

  /** In every reachable state no locked row has a pending correction. */
  lemma LockedRowsAwaitNothing(states: seq<State>, steps: seq<Step>, n: nat, i: nat)
    requires IsServiceRun(states, steps) && Initial(states[0]) && n < |states|
    requires i < |states[n].records| && states[n].records[i].locked
    ensures !HasPending(states[n], i)
  {
    RunIsSafe(states, steps, n);
    assert forall k :: 0 <= k < |states[n].regs| ==> RegSound(states[n], states[n].regs[k]);
  }

  /** Although resolution never looks at the lock, it never writes a locked row in a reachable state. */
  lemma ResolveNeverWritesALockedRow(states: seq<State>, steps: seq<Step>, n: nat, k: nat, approve: bool, i: nat)
    requires IsServiceRun(states, steps) && Initial(states[0]) && n < |states|
    requires i < |states[n].records| && states[n].records[i].locked
    ensures Next(states[n], Resolve(k, approve)).records[i] == states[n].records[i]
  {
    RunIsSafe(states, steps, n);
    var s := states[n];
    if k < |s.regs| {
      assert RegSound(s, s.regs[k]);
    }
  }

  /**
   In any state at all, approval writes the row, locked or not, exactly when the request is
   unsettled (a draft or cancelled one included) and no guard refuses.
   */
  lemma WhenResolveWrites(s: State, k: nat)
    requires k < |s.regs| && s.regs[k].record < |s.records|
    ensures var i := s.regs[k].record;
            var unsettled := s.regs[k].status in {RegDraft, RegPending, RegCancelled};
            Next(s, Resolve(k, true)).records
              == if unsettled && !WriteRefused(s, s.records[i])
                 then s.records[i := Corrected(s.world, s.records[i], s.regs[k])] else s.records
    ensures Next(s, Resolve(k, false)).records == s.records
  {
  }

  /** Every locked row is covered by a version currently CLOSED, in all runs, overlapping periods included. */
  lemma LockedRowsAreCovered(states: seq<State>, steps: seq<Step>, n: nat, i: nat)
    requires IsServiceRun(states, steps) && Initial(states[0]) && n < |states|
    requires i < |states[n].records| && states[n].records[i].locked
    ensures exists c :: 0 <= c < |states[n].closes|
              && ClosedOver(states[n].world, states[n].closes[c], states[n].records[i])
  {
    RunIsSafe(states, steps, n);
  }

  /** With the database guard, a row is locked exactly when a CLOSED version covers it, in all runs. */
  lemma GuardedLocksAreExact(states: seq<State>, steps: seq<Step>, n: nat, i: nat)
    requires IsServiceRun(states, steps) && Initial(states[0]) && n < |states| && states[0].guarded
    requires i < |states[n].records|
    ensures states[n].records[i].locked <==> Sealed(states[n], states[n].records[i])
  {
    RunIsSafe(states, steps, n);
  }

  /** At the moment a version closes, no row it locks is unresolved or awaits a correction. */
  lemma ClosedRowsAreResolved(states: seq<State>, steps: seq<Step>, n: nat, c: nat, reason: string, i: nat)
    requires IsServiceRun(states, steps) && Initial(states[0]) && n < |states|
    requires var s := states[n];
             && c < |s.closes| && i < |s.records| && InScope(s.world, s.records[i], s.closes[c].scope)
             && !s.closes[c].status.Closed? && TransitionOutcome(s, c, DoClose, reason).Done?
    ensures var t := Next(states[n], Transition(c, DoClose, reason));
            && t.records[i] == states[n].records[i].(locked := true)
            && !t.records[i].status.Unknown? && !HasPending(t, i)
            && t.closes[c].status.Closed?
  {
    hide IsServiceRun, Initial;
    var s := states[n];
    RunIsSafe(states, steps, n);
    hide LocksCovered, RegsSound;
    CloseFindsNothingOpen(s, c, reason);
    assert forall k :: 0 <= k < |s.regs| ==> !PendingInScope(s.world, s.records, s.regs[k], s.closes[c].scope);
  }

  // ---------------------------------------------------------------- frozen rows

  /** The step reopens a CLOSED version covering the row. */
  predicate ReopensOver(s: State, step: Step, i: nat) {
    && i < |s.records|
    && step.Transition? && step.action.DoReopen? && step.close < |s.closes|
    && ClosedOver(s.world, s.closes[step.close], s.records[i])
  }

  lemma LockedRowSurvivesStep(s: State, step: Step, i: nat)
    requires Safe(s) && !ByHand(step) && i < |s.records| && s.records[i].locked
    requires !ReopensOver(s, step, i)
    ensures i < |Next(s, step).records| && Next(s, step).records[i] == s.records[i]
  {
    match step
    case Resolve(k, approve) =>
      if k < |s.regs| {
        assert RegSound(s, s.regs[k]);
      }
    case _ =>
  }

  /**
   From any point at which a row is locked until a reopen covering it, no service step changes
   the row in any way: status, punches, hours, shift and lock all stay.
   */
  lemma {:induction false} LockedRowsAreFrozen(states: seq<State>, steps: seq<Step>, n: nat, m: nat, i: nat)
    requires IsServiceRun(states, steps) && Initial(states[0]) && n <= m < |states|
    requires i < |states[n].records| && states[n].records[i].locked
    requires forall t :: n <= t < m ==> !ReopensOver(states[t], steps[t], i)
    ensures i < |states[m].records| && states[m].records[i] == states[n].records[i]
    decreases m
  {
    hide Next;
    if n < m {
      LockedRowsAreFrozen(states, steps, n, m - 1, i);
      RunIsSafe(states, steps, m - 1);
      LockedRowSurvivesStep(states[m - 1], steps[m - 1], i);
    }
  }

  // ---------------------------------------------------- corrections are kept

  /** The step approves a correction request about the row. */
  predicate ApprovesAbout(s: State, step: Step, i: nat) {
    step.Resolve? && step.approve && step.reg < |s.regs| && s.regs[step.reg].record == i
  }

  lemma RegularizedRowSurvivesStep(s: State, step: Step, i: nat)
    requires !ByHand(step) && i < |s.records| && s.records[i].regularized && !ApprovesAbout(s, step, i)
    ensures var t := Next(s, step);
            i < |t.records| && t.records[i] == s.records[i].(locked := t.records[i].locked)
  {
  }

  /**
   A row once regularized keeps its corrected status, punches and hours through every service
   step, refreshes of any scope included, until another correction about it is approved.
   */
  lemma {:induction false} CorrectionsStick(states: seq<State>, steps: seq<Step>, n: nat, m: nat, i: nat)
    requires IsServiceRun(states, steps) && n <= m < |states|
    requires i < |states[n].records| && states[n].records[i].regularized
    requires forall t :: n <= t < m ==> !ApprovesAbout(states[t], steps[t], i)
    ensures i < |states[m].records|
              && states[m].records[i] == states[n].records[i].(locked := states[m].records[i].locked)
    decreases m
  {
    hide Next;
    if n < m {
      CorrectionsStick(states, steps, n, m - 1, i);
      RegularizedRowSurvivesStep(states[m - 1], steps[m - 1], i);
    }
  }

  lemma ApprovalEffect(s: State, k: nat)
    requires k < |s.regs| && s.regs[k].status.RegPending? && s.regs[k].record < |s.records|
    requires !WriteRefused(s, s.records[s.regs[k].record])
    ensures var g := s.regs[k];
            Next(s, Resolve(k, true))
              == s.(regs := s.regs[k := g.(status := RegApproved)],
                    records := s.records[g.record := Corrected(s.world, s.records[g.record], g)])
  {
    hide Corrected, Sealed;
  }

  lemma CorrectedFields(w: World, r: Record, g: Regularization)
    ensures var q := Corrected(w, r, g);
            && q.regularized && q.locked == r.locked
            && q.checkIn == (if g.requestedIn.Some? then g.requestedIn else r.checkIn)
            && q.checkOut == (if g.requestedOut.Some? then g.requestedOut else r.checkOut)
            && q.worked == WorkedHours(q.checkIn, q.checkOut)
            && (r.shift.Some? && r.shift.value in w.shifts ==> q.shift == Some(w.shifts[r.shift.value].id))
            && (g.requestedStatus in {Remote, OnLeave} ==> q.status == g.requestedStatus)
  {
    hide PolicyFor, HolidayFor, ShiftFor;
  }

  /** What is derived on a corrected row follows from its new punches, the requested status and the kept shift. */
  lemma CorrectedDerives(w: World, r: Record, g: Regularization)
    ensures var q, e := Corrected(w, r, g), Person(w, r.employee);
            var policy := PolicyFor(w, e, r.date);
            var holiday := HolidayFor(w, e, r.date, policy);
            var shift := if r.shift.Some? && r.shift.value in w.shifts then Some(w.shifts[r.shift.value])
                         else ShiftFor(w, e, r.date, policy);
            var run := Evaluate(r.date, q.checkIn, q.checkOut, Some(g.requestedStatus), policy, shift, holiday);
            && (q.status, q.shift, q.holiday) == (run.status, run.shift, run.holiday)
            && (q.worked, q.overtime, q.lateMinutes, q.earlyMinutes) == (run.worked, run.overtime, run.late, run.early)
            && (q.employee, q.date, q.source, q.locked) == (r.employee, r.date, r.source, r.locked)
  {
    hide PolicyFor, ShiftFor, HolidayFor, Evaluate;
  }

  /** Approval puts the requested punches on the row where given, keeps the others, and marks it regularized. */
  lemma ApprovedCorrection(s: State, k: nat)
    requires k < |s.regs| && s.regs[k].status.RegPending? && s.regs[k].record < |s.records|
    requires !WriteRefused(s, s.records[s.regs[k].record])
    ensures var g := s.regs[k];
            var r := s.records[g.record];
            var t := Next(s, Resolve(k, true));
            var q := t.records[g.record];
            && t.regs[k] == g.(status := RegApproved) && q.regularized && q.locked == r.locked
            && q.checkIn == (if g.requestedIn.Some? then g.requestedIn else r.checkIn)
            && q.checkOut == (if g.requestedOut.Some? then g.requestedOut else r.checkOut)
            && q.worked == WorkedHours(q.checkIn, q.checkOut)
            && (r.shift.Some? && r.shift.value in s.world.shifts ==> q.shift == Some(s.world.shifts[r.shift.value].id))
            && (g.requestedStatus in {Remote, OnLeave} ==> q.status == g.requestedStatus)
            && forall j :: 0 <= j < |s.records| && j != g.record ==> t.records[j] == s.records[j]
  {
    hide Next, Corrected, WriteRefused;
    ApprovalEffect(s, k);
    CorrectedFields(s.world, s.records[s.regs[k].record], s.regs[k]);
  }

  // ------------------------------------- the guard alone, manual edits included

  lemma SealedRowSurvivesMove(s: State, c: nat, a: Action, note: string, i: nat, o: nat)
    requires s.guarded && i < |s.records| && o < |s.closes| && ClosedOver(s.world, s.closes[o], s.records[i])
    requires c < |s.closes| && !a.Unsupported? && s.closes[c].status == SourceStatus(a)
    requires a.DoClose? || a.DoReopen? ==> !SealedElsewhere(s, c)
    requires !ReopensOver(s, Transition(c, a, note), i)
    ensures Moved(s, c, a, note).records[i] == s.records[i] && Sealed(Moved(s, c, a, note), s.records[i])
  {
    var t := Moved(s, c, a, note);
    if a.DoClose? || a.DoReopen? {
      assert o != c ==> !SharesRow(s, i, c, o);
    }
    assert ClosedOver(t.world, t.closes[o], s.records[i]);
  }

  lemma SealedRowSurvivesStep(s: State, step: Step, i: nat)
    requires s.guarded && Allowed(s, step) && i < |s.records| && Sealed(s, s.records[i])
    requires !ReopensOver(s, step, i)
    ensures i < |Next(s, step).records| && Next(s, step).records[i] == s.records[i]
    ensures Next(s, step).guarded && Sealed(Next(s, step), s.records[i])
  {
    match step
    case Transition(c, a, note) =>
      if Apply(s, step).Done? && s.closes[c].status != TargetStatus(a) {
        var o :| 0 <= o < |s.closes| && ClosedOver(s.world, s.closes[o], s.records[i]);
        SealedRowSurvivesMove(s, c, a, note, i, o);
      }
    case Configure(w) => SealedUnderNewConfiguration(s, w, s.records[i]);
    case _ => SealedRowSurvivesWrite(s, step, i);
  }

  /** Every other step leaves the existing versions alone and is refused if it would write the row. */
  lemma SealedRowSurvivesWrite(s: State, step: Step, i: nat)
    requires s.guarded && i < |s.records| && Sealed(s, s.records[i])
    requires !step.Transition? && !step.Configure?
    ensures i < |Next(s, step).records| && Next(s, step).records[i] == s.records[i]
    ensures Next(s, step).guarded && Sealed(Next(s, step), s.records[i])
  {
    var t := Next(s, step);
    var o :| 0 <= o < |s.closes| && ClosedOver(s.world, s.closes[o], s.records[i]);
    assert t.world == s.world && |s.closes| <= |t.closes| && t.closes[o] == s.closes[o];
    assert ClosedOver(t.world, t.closes[o], s.records[i]);
  }

  /**
   With the guard, a row in a CLOSED period is frozen until a reopen covering it whatever the
   run does, manual bulk edits included and from any starting state.
   */
  lemma {:induction false} GuardFreezesClosedPeriods(states: seq<State>, steps: seq<Step>, n: nat, m: nat, i: nat)
    requires IsRun(states, steps) && n <= m < |states| && states[n].guarded
    requires i < |states[n].records| && Sealed(states[n], states[n].records[i])
    requires forall t :: n <= t < m ==> !ReopensOver(states[t], steps[t], i)
    ensures i < |states[m].records| && states[m].records[i] == states[n].records[i]
    ensures states[m].guarded && Sealed(states[m], states[m].records[i])
    decreases m
  {
    hide Next;
    if n < m {
      GuardFreezesClosedPeriods(states, steps, n, m - 1, i);
      SealedRowSurvivesStep(states[m - 1], steps[m - 1], i);
    }
  }

  // ------------------------------------------ what is lost without guard or care

  /**
   With or without the guard: in every reachable state where a row is locked exactly when a
   CLOSED version covers it, one more service step keeps that so if and only if it is not one of
   the two separating steps.
   */
  lemma ExactLocksStepByStep(states: seq<State>, steps: seq<Step>, n: nat, step: Step)
    requires IsServiceRun(states, steps) && Initial(states[0]) && n < |states|
    requires Allowed(states[n], step) && !ByHand(step)
    requires LocksExact(states[n])
    ensures LocksExact(Next(states[n], step)) <==> !SeparatesLocks(states[n], step)
  {
    RunIsSafe(states, steps, n);
    StepIsSafe(states[n], step);
    ExactIsSealsLocked(states[n]);
    ExactIsSealsLocked(Next(states[n], step));
    hide Next, SeparatesLocks;
  }

  /**
   Manual locking of rows is what can break the first result: exactly when it locks a row with a
   pending correction.
   */
  lemma BulkEditAndPendingCorrections(s: State, bulk: BulkAction, rows: set<nat>)
    requires RegsSound(s) && BulkOutcome(s, bulk, rows).Done?
    ensures var locksPending := bulk.Lock?
              && exists k :: 0 <= k < |s.regs| && s.regs[k].status.RegPending? && s.regs[k].record in rows;
            RegsSound(BulkOutcome(s, bulk, rows).next) <==> !locksPending
  {
    var t := BulkOutcome(s, bulk, rows).next;
    assert forall k :: 0 <= k < |s.regs| ==> RegSound(s, s.regs[k]);
    if bulk.Lock? && exists k :: 0 <= k < |s.regs| && s.regs[k].status.RegPending? && s.regs[k].record in rows {
      var k :| 0 <= k < |s.regs| && s.regs[k].status.RegPending? && s.regs[k].record in rows;
      assert !RegSound(t, t.regs[k]);
    }
  }

  /** The form for one row breaks it exactly when it leaves the row locked while a correction is pending. */
  lemma EditRowAndPendingCorrections(s: State, i: nat, values: Record)
    requires RegsSound(s) && EditOutcome(s, i, values).Done?
    ensures RegsSound(EditOutcome(s, i, values).next) <==> !(values.locked && HasPending(s, i))
  {
    var t := EditOutcome(s, i, values).next;
    assert forall k :: 0 <= k < |s.regs| ==> RegSound(s, s.regs[k]);
    if values.locked && HasPending(s, i) {
      var k :| 0 <= k < |s.regs| && s.regs[k].record == i && s.regs[k].status.RegPending?;
      assert !RegSound(t, t.regs[k]);
    }
  }

  /** A bulk edit that is carried out sets one field of the selected rows and nothing else. */
  lemma BulkEditMeaning(s: State, bulk: BulkAction, rows: set<nat>, i: nat)
    requires i < |s.records| && BulkOutcome(s, bulk, rows).Done?
    ensures var t, r := BulkOutcome(s, bulk, rows).next, s.records[i];
            && t == s.(records := t.records) && |t.records| == |s.records|
            && (i !in rows ==> t.records[i] == r)
            && (i in rows ==>
                 && (bulk.Lock? ==> t.records[i] == r.(locked := true))
                 && (bulk.Unlock? ==> t.records[i] == r.(locked := false))
                 && (bulk.SetStatus? ==> t.records[i] == r.(status := bulk.status))
                 && (bulk.MarkRegularized? ==> t.records[i] == r.(regularized := true))
                 && (bulk.ClearRegularized? ==> t.records[i] == r.(regularized := false)))
  {
  }

  /** A created row is stored as given, unlocked and not regularized, when its day is free and no guard refuses. */
  lemma WhatCreationStores(s: State, r: Record)
    ensures var o := Create(s, r);
            && (o == Refused(PeriodIsClosed) <==> s.guarded && Sealed(s, r))
            && (o == Refused(DuplicateDay) <==> !(s.guarded && Sealed(s, r)) && HasDay(s.records, r.employee, r.date))
            && (o.Refused? ==> o.why in {PeriodIsClosed, DuplicateDay})
            && (o.Done? ==>
                 && o.row == |s.records| && o.next == s.(records := o.next.records)
                 && o.next.records == s.records + [r.(locked := false, regularized := false)])
  {
  }

  /** Ensuring a day answers with that employee's row of that day, for active employees only. */
  lemma WhatEnsuringAnswers(s: State, employee: Id, date: Date)
    ensures var o := Ensure(s, employee, date);
            && (o == Refused(InactiveEmployee) <==> !Person(s.world, employee).active)
            && (o.Done? ==>
                 && o.row < |o.next.records|
                 && o.next.records[o.row].employee == employee && o.next.records[o.row].date == date)
            && (o.Done? && HasDay(s.records, employee, date) ==> o.next == s)
            && (o.Done? && !HasDay(s.records, employee, date) ==>
                 var q := o.next.records[o.row];
                 && o.row == |s.records| && o.next.records[..o.row] == s.records
                 && q.source.System? && q.checkIn.None? && q.checkOut.None? && !q.locked && !q.regularized)
  {
    RederiveKeepsKey(s.world, BlankRecord(employee, date));
  }
}
