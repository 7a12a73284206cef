/** The life of correction requests over every run, manual edits of rows included. */
module RequestLife {
  import opened Basics
  import opened Domain
  import opened Derivation
  import opened CloseSnapshot
  import opened PeriodClose
  import opened CloseSafety
  import opened CloseVersions
  import opened CloseExactness

  // ------------------------------------------------------------ what steps do to requests

  predicate Unsettled(g: Regularization) {
    !g.status.RegApproved? && !g.status.RegRejected?
  }

  ghost predicate RequestAdded(s: State, t: State) {
    && |t.regs| == |s.regs| + 1 && t.regs[..|s.regs|] == s.regs
    && t.regs[|s.regs|].status.RegPending? && !HasPending(s, t.regs[|s.regs|].record)
  }

  ghost predicate RequestSettled(s: State, t: State, k: nat) {
    && k < |s.regs| == |t.regs| && Unsettled(s.regs[k])
    && t.regs == s.regs[k := s.regs[k].(status := t.regs[k].status)] && !Unsettled(t.regs[k])
  }

  /** A step leaves the requests alone, adds one about a row that has none pending, or settles one. */
  lemma RequestsAfterStep(s: State, step: Step)
    ensures var t := Next(s, step);
            t.regs == s.regs || RequestAdded(s, t) || (step.Resolve? && RequestSettled(s, t, step.reg))
  {
  }

  ghost predicate OnePendingPerRow(s: State) {
    forall j, k :: 0 <= j < k < |s.regs| && s.regs[j].status.RegPending? && s.regs[k].status.RegPending? ==>
      s.regs[j].record != s.regs[k].record
  }

  lemma StepKeepsOnePending(s: State, step: Step)
    requires OnePendingPerRow(s)
    ensures OnePendingPerRow(Next(s, step))
  {
    RequestsAfterStep(s, step);
    hide Next;
    var t := Next(s, step);
    if RequestAdded(s, t) {
      assert forall j :: 0 <= j < |s.regs| ==> t.regs[j] == s.regs[j];
    }
  }

  /** In every run at most one request per row is pending. */
  lemma {:induction false} AtMostOnePending(states: seq<State>, steps: seq<Step>, n: nat)
    requires IsRun(states, steps) && Initial(states[0]) && n < |states|
    ensures OnePendingPerRow(states[n])
    decreases n
  {
    hide Next;
    if n > 0 {
      AtMostOnePending(states, steps, n - 1);
      StepKeepsOnePending(states[n - 1], steps[n - 1]);
    }
  }

  /** Requests are never dropped, change in nothing but their status, and once settled not even in that. */
  ghost predicate RequestsKept(before: seq<Regularization>, after: seq<Regularization>) {
    && |before| <= |after|
    && forall k :: 0 <= k < |before| ==> RequestKept(before[k], after[k])
  }

  predicate RequestKept(g: Regularization, h: Regularization) {
    h == g.(status := h.status) && (!Unsettled(g) ==> h == g)
  }

  lemma StepKeepsRequests(s: State, step: Step)
    ensures RequestsKept(s.regs, Next(s, step).regs)
  {
    RequestsAfterStep(s, step);
    hide Next;
    var t := Next(s, step);
    if RequestAdded(s, t) {
      assert forall k :: 0 <= k < |s.regs| ==> t.regs[k] == s.regs[k];
    }
  }

  lemma {:induction false} SettledRequestsStay(states: seq<State>, steps: seq<Step>, n: nat, m: nat)
    requires IsRun(states, steps) && n <= m < |states|
    ensures RequestsKept(states[n].regs, states[m].regs)
    decreases m
  {
    hide Next;
    if n < m {
      SettledRequestsStay(states, steps, n, m - 1);
      StepKeepsRequests(states[m - 1], steps[m - 1]);
      KeptTwice(states[n].regs, states[m - 1].regs, states[m].regs);
    }
  }

  lemma KeptTwice(before: seq<Regularization>, between: seq<Regularization>, after: seq<Regularization>)
    requires RequestsKept(before, between) && RequestsKept(between, after)
    ensures RequestsKept(before, after)
  {
    forall k | 0 <= k < |before|
      ensures RequestKept(before[k], after[k])
    {
      assert RequestKept(before[k], between[k]) && RequestKept(between[k], after[k]);
    }
  }

  // ------------------------------------------------ from the submission to the corrected row

  /** What the caller of a submission asked for is what the appended request holds; nothing else changes. */
  lemma SubmissionIsStored(
    s: State, i: nat, status: Status, checkIn: Option<int>, checkOut: Option<int>, reason: string)
    requires Apply(s, Submit(i, status, checkIn, checkOut, reason)).Done?
    ensures var o := Apply(s, Submit(i, status, checkIn, checkOut, reason));
            var n := |s.regs|;
            && o.row == n && |o.next.regs| == n + 1 && o.next.regs[..n] == s.regs
            && o.next.regs[n].record == i < |s.records|
            && o.next.regs[n].status == RegPending && o.next.regs[n].requestedStatus == status
            && o.next.regs[n].requestedIn == checkIn && o.next.regs[n].requestedOut == checkOut
            && o.next.regs[n].reason == reason
            && o.next == s.(regs := o.next.regs)
  {
  }

  /** Each refusal of a submission has its own reason, and the first that applies is given. */
  lemma WhySubmissionsAreRefused(
    s: State, i: nat, status: Status, checkIn: Option<int>, checkOut: Option<int>, reason: string)
    requires i < |s.records|
    ensures var o := Apply(s, Submit(i, status, checkIn, checkOut, reason));
            var policy := RecordPolicy(s, s.records[i]);
            var forbidden := policy.Some? && !policy.value.allowRegularization;
            && (o == Refused(RecordLocked) <==> s.records[i].locked)
            && (o == Refused(AlreadyPending) <==> !s.records[i].locked && HasPending(s, i))
            && (o == Refused(NotAllowed) <==> !s.records[i].locked && !HasPending(s, i) && forbidden)
            && (o == Refused(ReasonRequired) <==>
                 && !s.records[i].locked && !HasPending(s, i) && !forbidden
                 && policy.Some? && policy.value.requireReason && IsBlank(reason))
            && (o.Refused? ==> o.why in {RecordLocked, AlreadyPending, NotAllowed, ReasonRequired})
  {
  }

  /** Settling again the same way is accepted and changes nothing; settling the other way is refused. */
  lemma SettledOnce(s: State, k: nat, approve: bool)
    requires k < |s.regs| && s.regs[k].record < |s.records|
    ensures var o := Apply(s, Resolve(k, approve));
            var settled := if approve then RegApproved else RegRejected;
            && (s.regs[k].status == settled ==> o == Done(s, k))
            && (o == Refused(AlreadyResolved) <==> !Unsettled(s.regs[k]) && s.regs[k].status != settled)
            && (o == Refused(PeriodIsClosed) <==>
                 Unsettled(s.regs[k]) && approve && s.guarded && Sealed(s, s.records[s.regs[k].record]))
            && (o.Done? ==> o.row == k && o.next.regs[k].status == settled)
            && (o.Refused? ==> o.why in {AlreadyResolved, PeriodIsClosed})
  {
  }

  predicate SamePunches(r: Record, q: Record) {
    r.checkIn == q.checkIn && r.checkOut == q.checkOut
  }

  lemma PunchesSurviveStep(s: State, step: Step, i: nat)
    requires !ByHand(step) && i < |s.records| && !ApprovesAbout(s, step, i)
    ensures i < |Next(s, step).records| && SamePunches(s.records[i], Next(s, step).records[i])
  {
    hide SnapshotOf, Sealed, RecordPolicy, HasDay;
  }

  lemma {:induction false} PunchesSurvive(states: seq<State>, steps: seq<Step>, n: nat, m: nat, i: nat)
    requires IsServiceRun(states, steps) && n <= m < |states| && i < |states[n].records|
    requires forall t :: n <= t < m ==> !ApprovesAbout(states[t], steps[t], i)
    ensures i < |states[m].records| && SamePunches(states[n].records[i], states[m].records[i])
    decreases m
  {
    hide Next, ApprovesAbout, SamePunches;
    if n < m {
      PunchesSurvive(states, steps, n, m - 1, i);
      PunchesSurviveStep(states[m - 1], steps[m - 1], i);
      SamePunchesTwice(states[n].records[i], states[m - 1].records[i], states[m].records[i]);
    } else {
      SamePunchesTwice(states[n].records[i], states[n].records[i], states[n].records[i]);
    }
  }

  lemma SamePunchesTwice(a: Record, b: Record, c: Record)
    ensures SamePunches(a, b) && SamePunches(b, c) ==> SamePunches(a, c)
    ensures SamePunches(a, a)
  {
  }

  /** A step that approves the pending request `k` and is carried out. */
  predicate Approves(s: State, step: Step, k: nat) {
    && step == Resolve(k, true) && k < |s.regs| && s.regs[k].status.RegPending? && s.regs[k].record < |s.records|
    && !WriteRefused(s, s.records[s.regs[k].record])
  }

  /** The step submits the request and is accepted. */
  predicate Submits(s: State, step: Step, i: nat, checkIn: Option<int>, checkOut: Option<int>) {
    && step.Submit? && step.row == i && step.requestedIn == checkIn && step.requestedOut == checkOut
    && Apply(s, step).Done?
  }

  /**
   Over every run, manual edits included: when the request submitted by step `n` is approved by step
   `m`, the row gets the punches passed to the submission where given, and keeps its own at that
   moment where not.
   */
  lemma SubmittedPunchesArrive(
    states: seq<State>, steps: seq<Step>, n: nat, m: nat, i: nat, checkIn: Option<int>, checkOut: Option<int>)
    requires IsRun(states, steps) && Initial(states[0]) && n < m < |steps|
    requires Submits(states[n], steps[n], i, checkIn, checkOut)
    requires Approves(states[m], steps[m], |states[n].regs|)
    ensures i < |states[m].records| && i < |states[m + 1].records|
    ensures var before, after := states[m].records[i], states[m + 1].records[i];
            && after.checkIn == (if checkIn.Some? then checkIn else before.checkIn)
            && after.checkOut == (if checkOut.Some? then checkOut else before.checkOut)
            && after.worked == WorkedHours(after.checkIn, after.checkOut) && after.regularized
  {
    var k := |states[n].regs|;
    SubmissionIsStored(states[n], i, steps[n].requestedStatus, checkIn, checkOut, steps[n].reason);
    var stored := states[n + 1].regs[k];
    SettledRequestsStay(states, steps, n + 1, m);
    assert RequestKept(stored, states[m].regs[k]);
    ApprovedCorrection(states[m], k);
    hide Next;
  }

  /** Without another correction in between, a service run keeps the row's own punches as they were at the submission. */
  lemma SubmittedPunchesAreFinal(
    states: seq<State>, steps: seq<Step>, n: nat, m: nat, i: nat, checkIn: Option<int>, checkOut: Option<int>)
    requires IsServiceRun(states, steps) && Initial(states[0]) && n < m < |steps|
    requires Submits(states[n], steps[n], i, checkIn, checkOut)
    requires Approves(states[m], steps[m], |states[n].regs|)
    requires forall t :: n <= t < m ==> !ApprovesAbout(states[t], steps[t], i)
    ensures i < |states[n].records| && i < |states[m + 1].records|
    ensures var submitted, after := states[n].records[i], states[m + 1].records[i];
            && after.checkIn == (if checkIn.Some? then checkIn else submitted.checkIn)
            && after.checkOut == (if checkOut.Some? then checkOut else submitted.checkOut)
  {
    SubmissionIsStored(states[n], i, steps[n].requestedStatus, checkIn, checkOut, steps[n].reason);
    SubmittedPunchesArrive(states, steps, n, m, i, checkIn, checkOut);
    hide Next;
    PunchesSurvive(states, steps, n, m, i);
  }

  // ------------------------------------------------------- locked rows under manual edits

  /** No locked row has a pending request. */
  ghost predicate LockedRowsSettled(s: State) {
    forall i :: 0 <= i < |s.records| && s.records[i].locked ==> !HasPending(s, i)
  }

  /** Every request is about a row and was submitted. */
  ghost predicate RequestsFormed(s: State) {
    forall k :: 0 <= k < |s.regs| ==>
      s.regs[k].record < |s.records| && s.regs[k].status in {RegPending, RegApproved, RegRejected}
  }

  lemma SoundIsSettled(s: State)
    ensures RegsSound(s) <==> RequestsFormed(s) && LockedRowsSettled(s)
  {
    if RegsSound(s) {
      assert forall k :: 0 <= k < |s.regs| ==> RegSound(s, s.regs[k]);
    }
    if RequestsFormed(s) && LockedRowsSettled(s) {
      forall k | 0 <= k < |s.regs|
        ensures RegSound(s, s.regs[k])
      {
        assert s.regs[k].status.RegPending? ==> HasPending(s, s.regs[k].record);
      }
    }
  }

  /** A manual edit that is carried out and leaves a row with a pending request locked. */
  predicate LocksAwaited(s: State, step: Step) {
    Apply(s, step).Done? &&
    match step
    case BulkEdit(bulk, rows) =>
      bulk.Lock? && exists k :: 0 <= k < |s.regs| && s.regs[k].status.RegPending? && s.regs[k].record in rows
    case EditRow(i, values) => values.locked && HasPending(s, i)
    case _ => false
  }

  lemma RowsAfterStep(s: State, step: Step)
    ensures |s.records| <= |Next(s, step).records|
  {
  }

  lemma StepKeepsForm(s: State, step: Step)
    requires RequestsFormed(s)
    ensures RequestsFormed(Next(s, step))
  {
    RequestsAfterStep(s, step);
    RowsAfterStep(s, step);
    NewRequestHasRow(s, step);
    hide Next;
    var t := Next(s, step);
    if RequestAdded(s, t) {
      assert forall k :: 0 <= k < |s.regs| ==> t.regs[k] == s.regs[k];
    }
  }

  lemma NewRequestHasRow(s: State, step: Step)
    ensures var t := Next(s, step);
            |t.regs| > |s.regs| ==> t.regs[|s.regs|].record < |t.records|
  {
  }

  lemma StepKeepsCloses(s: State, step: Step)
    requires ClosesSound(s)
    ensures ClosesSound(Next(s, step))
  {
    if step.Reconcile? {
      assert forall c :: 0 <= c < |s.closes| ==> CloseSound(s.closes[c]);
    } else if step.Transition? {
      TransitionKeepsCloses(s, step.close, step.action, step.note);
    } else {
      OtherStepsAreQuiet(s, step);
      hide Next;
      assert forall c :: 0 <= c < |s.closes| ==> CloseSound(s.closes[c]);
    }
  }

  lemma TransitionKeepsCloses(s: State, c: nat, a: Action, note: string)
    requires ClosesSound(s)
    ensures ClosesSound(Next(s, Transition(c, a, note)))
  {
    hide SnapshotOf, Blockers, LockScope, SealedElsewhere;
    assert forall o :: 0 <= o < |s.closes| ==> CloseSound(s.closes[o]);
  }

  lemma TransitionKeepsSettled(s: State, c: nat, a: Action, note: string)
    requires RegsSound(s) && ClosesSound(s) && TransitionOutcome(s, c, a, note).Done?
    ensures RegsSound(TransitionOutcome(s, c, a, note).next)
  {
    var t := TransitionOutcome(s, c, a, note).next;
    if a.DoClose? && !s.closes[c].status.Closed? {
      CloseFindsNothingOpen(s, c, note);
    }
    forall k | 0 <= k < |t.regs|
      ensures RegSound(t, t.regs[k])
    {
      assert RegSound(s, s.regs[k]);
      assert a.DoClose? && !s.closes[c].status.Closed? ==>
        !PendingInScope(s.world, s.records, s.regs[k], s.closes[c].scope);
    }
  }

  lemma RowStepKeepsSettled(s: State, step: Step)
    requires RegsSound(s) && !ByHand(step) && !step.Transition?
    ensures RegsSound(Next(s, step))
  {
    RequestsAfterStep(s, step);
    LocksAfterStep(s, step);
    NewRequestIsOpen(s, step);
    hide Next;
    var t := Next(s, step);
    forall k | 0 <= k < |t.regs|
      ensures RegSound(t, t.regs[k])
    {
      assert k < |s.regs| ==> RegSound(s, s.regs[k]);
      assert RequestAdded(s, t) && k < |s.regs| ==> t.regs[k] == s.regs[k];
    }
  }

  lemma LocksAfterStep(s: State, step: Step)
    requires !ByHand(step) && !step.Transition?
    ensures var t := Next(s, step);
            && |s.records| <= |t.records|
            && forall i :: 0 <= i < |s.records| ==> t.records[i].locked == s.records[i].locked
  {
    if step.Resolve? && step.reg < |s.regs| && s.regs[step.reg].record < |s.records| {
      CorrectedKeepsKey(s.world, s.records[s.regs[step.reg].record], s.regs[step.reg]);
    }
  }

  lemma NewRequestIsOpen(s: State, step: Step)
    ensures var t := Next(s, step);
            |t.regs| > |s.regs| ==>
              var i := t.regs[|s.regs|].record; i < |t.records| && !t.records[i].locked
  {
  }

  /** One step of any kind from a sound state. */
  lemma SettledStep(s: State, step: Step)
    requires RegsSound(s) && ClosesSound(s)
    ensures RegsSound(Next(s, step)) <==> !LocksAwaited(s, step)
  {
    match step
    case Transition(c, a, note) =>
      if Apply(s, step).Done? {
        TransitionKeepsSettled(s, c, a, note);
      }
    case BulkEdit(bulk, rows) =>
      if Apply(s, step).Done? {
        BulkEditAndPendingCorrections(s, bulk, rows);
      }
    case EditRow(i, values) =>
      if Apply(s, step).Done? {
        EditRowAndPendingCorrections(s, i, values);
      }
    case _ => RowStepKeepsSettled(s, step);
  }

  lemma {:induction false} RunKeepsForm(states: seq<State>, steps: seq<Step>, n: nat)
    requires IsRun(states, steps) && Initial(states[0]) && n < |states|
    ensures RequestsFormed(states[n]) && ClosesSound(states[n])
    decreases n
  {
    hide Next;
    if n > 0 {
      RunKeepsForm(states, steps, n - 1);
      StepKeepsForm(states[n - 1], steps[n - 1]);
      StepKeepsCloses(states[n - 1], steps[n - 1]);
    }
  }

  ghost predicate SettledThrough(states: seq<State>, n: nat) {
    forall k :: 0 <= k <= n && k < |states| ==> LockedRowsSettled(states[k])
  }

  ghost predicate NeverLocksAwaited(states: seq<State>, steps: seq<Step>, n: nat) {
    forall k :: 0 <= k < n && k < |steps| && k < |states| ==> !LocksAwaited(states[k], steps[k])
  }

  /**
   Over every run, manual edits included: no locked row awaits a correction in any state up to a
   point if and only if no manual edit before it leaves a row with a pending request locked.
   */
  lemma {:induction false} LockedRowsStaySettled(states: seq<State>, steps: seq<Step>, n: nat)
    requires IsRun(states, steps) && Initial(states[0]) && n < |states|
    ensures SettledThrough(states, n) <==> NeverLocksAwaited(states, steps, n)
    decreases n
  {
    hide Next, LocksAwaited, LockedRowsSettled, RegsSound, RequestsFormed, ClosesSound;
    RunKeepsForm(states, steps, n);
    SoundIsSettled(states[n]);
    if n == 0 {
      NothingRequestedAtFirst(states[0]);
    } else {
      LockedRowsStaySettled(states, steps, n - 1);
      RunKeepsForm(states, steps, n - 1);
      SoundIsSettled(states[n - 1]);
      assert SettledThrough(states, n) <==> SettledThrough(states, n - 1) && LockedRowsSettled(states[n]);
      assert NeverLocksAwaited(states, steps, n)
        <==> NeverLocksAwaited(states, steps, n - 1) && !LocksAwaited(states[n - 1], steps[n - 1]);
      assert SettledThrough(states, n - 1) ==> LockedRowsSettled(states[n - 1]);
      if SettledThrough(states, n - 1) {
        SettledStep(states[n - 1], steps[n - 1]);
      }
    }
  }

  lemma NothingRequestedAtFirst(s: State)
    requires Initial(s)
    ensures LockedRowsSettled(s)
  {
  }

  // ------------------------------------------------------------------ a manual lock

  lemma SubmittedOnSite(r: Record)
    requires r.employee == 7 && !r.locked
    ensures var request := Regularization(0, RegPending, Present, None, None, "late train");
            Next(Opening([r]), Submit(0, Present, None, None, "late train")) == Opening([r]).(regs := [request])
  {
    var s := Opening([r]);
    assert RecordPolicy(s, r).None?;
  }

  lemma LockedOnSite(s: State)
    requires !s.guarded && |s.records| == 1
    ensures Next(s, BulkEdit(Lock, {0})).records == [s.records[0].(locked := true)]
    ensures Next(s, BulkEdit(Lock, {0})).regs == s.regs
  {
  }

  /** A submission followed by a manual lock leaves a locked row with a pending request. */
  lemma ManualLockStrandsARequest() returns (states: seq<State>, steps: seq<Step>)
    ensures IsRun(states, steps) && Initial(states[0])
    ensures |steps| == 2 && steps[0].Submit? && steps[1] == BulkEdit(Lock, {0})
    ensures var s := states[2];
            |s.records| == 1 && s.records[0].locked && HasPending(s, 0)
  {
    hide Next;
    var s, r := Opening([RowWith(Absent)]), RowWith(Absent);
    steps := [Submit(0, Present, None, None, "late train"), BulkEdit(Lock, {0})];
    var t := Next(s, steps[0]);
    states := [s, t, Next(t, steps[1])];
    SubmittedOnSite(r);
    LockedOnSite(t);
    assert states[2].regs[0].record == 0 && states[2].regs[0].status.RegPending?;
  }
}
