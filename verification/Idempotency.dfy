/** Keyed at-most-once execution of HTTP mutations, with replay, retry and expiry. */
module Idempotency {
  import opened Basics

  datatype MutationStatus = InProgress | Succeeded | Failed

  /** The stored record of a key. Equal fingerprints mean equal payloads. */
  datatype Stored = Stored(
    tenant: Id, actor: Id, action: string, fingerprint: string, status: MutationStatus,
    code: nat, payload: string, attempts: nat, retryable: bool, expiresAt: int)

  datatype Request = Request(header: string, tenant: Id, actor: Id, action: string, fingerprint: string, now: int)

  /** What the wrapped operation does if it is run. */
  datatype Attempt = Raises | Returns(code: nat, payload: string)

  datatype Response =
    | Raised | Executed(code: nat, payload: string) | Replayed(code: nat, payload: string)
    | InvalidKey | ForeignScope | DifferentPayload | Expired | StillInProgress

  /** An operation whose effects were committed, by key and outcome; the empty key is a request without one. */
  datatype Execution = Execution(key: string, code: nat)

  datatype State = State(store: map<string, Stored>, journal: seq<Execution>)

  datatype Effect = Effect(next: State, response: Response)

  predicate SameRequester(r: Stored, q: Request) {
    r.tenant == q.tenant && r.actor == q.actor && r.action == q.action
  }

  /** The record after an execution of the operation, the first one or a retry. */
  function Completed(q: Request, retention: int, previous: Option<Stored>, code: nat, payload: string): Stored {
    Stored(q.tenant, q.actor, q.action, q.fingerprint,
      if code < 400 then Succeeded else Failed, code, payload,
      if previous.Some? then previous.value.attempts + 1 else 1, code >= 500,
      if previous.Some? then previous.value.expiresAt else q.now + retention)
  }

  /** Runs the operation in the transaction: a raise rolls everything back. */
  function Run(s: State, q: Request, retention: int, previous: Option<Stored>, attempt: Attempt): Effect {
    if attempt.Raises? then Effect(s, Raised)
    else
      var key := Strip(q.header);
      Effect(
        State(s.store[key := Completed(q, retention, previous, attempt.code, attempt.payload)],
          s.journal + [Execution(key, attempt.code)]),
        Executed(attempt.code, attempt.payload))
  }

  function Execute(s: State, q: Request, retention: int, attempt: Attempt): Effect {
    var key := Strip(q.header);
    if key == "" then
      if attempt.Raises? then Effect(s, Raised)
      else Effect(s.(journal := s.journal + [Execution("", attempt.code)]), Executed(attempt.code, attempt.payload))
    else if |key| < 16 || |key| > 160 then Effect(s, InvalidKey)
    else if key !in s.store then Run(s, q, retention, None, attempt)
    else
      var r := s.store[key];
      if !SameRequester(r, q) then Effect(s, ForeignScope)
      else if r.fingerprint != q.fingerprint then Effect(s, DifferentPayload)
      else if r.expiresAt <= q.now then Effect(s, Expired)
      else if r.status.InProgress? then Effect(s, StillInProgress)
      else if r.status.Succeeded? || !r.retryable then Effect(s, Replayed(r.code, r.payload))
      else Run(s, q, retention, Some(r), attempt)
  }

  /** The mutation store, updated in place inside one transaction per request. */
  class MutationStore {
    var store: map<string, Stored>
    var journal: seq<Execution>

    ghost function Value(): State
      reads this
    {
      State(store, journal)
    }

    constructor ()
      ensures Value() == State(map[], [])
    {
      store, journal := map[], [];
    }

    method ExecuteIdempotentMutation(q: Request, retention: int, attempt: Attempt) returns (response: Response)
      modifies this
      ensures Effect(Value(), response) == Execute(old(Value()), q, retention, attempt)
    {
      var key := Strip(q.header);
      if key == "" {
        if attempt.Raises? {
          return Raised;
        }
        journal := journal + [Execution("", attempt.code)];
        return Executed(attempt.code, attempt.payload);
      }
      if |key| < 16 || |key| > 160 {
        return InvalidKey;
      }
      var checkpoint := store;
      var record: Stored;
      if key in store {
        record := store[key];
        if record.tenant != q.tenant || record.actor != q.actor || record.action != q.action {
          return ForeignScope;
        }
        if record.fingerprint != q.fingerprint {
          return DifferentPayload;
        }
        if record.expiresAt <= q.now {
          return Expired;
        }
        if record.status.InProgress? {
          return StillInProgress;
        }
        if record.status.Succeeded? || !record.retryable {
          return Replayed(record.code, record.payload);
        }
        record := record.(status := InProgress, attempts := record.attempts + 1);
      } else {
        record := Stored(q.tenant, q.actor, q.action, q.fingerprint, InProgress, 0, "", 1, false, q.now + retention);
      }
      store := store[key := record];
      if attempt.Raises? {
        store := checkpoint;
        return Raised;
      }
      record := record.(code := attempt.code, payload := attempt.payload,
        status := if attempt.code < 400 then Succeeded else Failed, retryable := attempt.code >= 500);
      store := store[key := record];
      assert store == checkpoint[key := record];
      journal := journal + [Execution(key, attempt.code)];
      return Executed(attempt.code, attempt.payload);
    }
  }

  // ---------------------------------------------------------------------- runs

  datatype Call = Call(request: Request, retention: int, attempt: Attempt)

  ghost predicate IsRun(states: seq<State>, calls: seq<Call>) {
    && |states| == |calls| + 1 && states[0] == State(map[], [])
    && forall k :: 0 <= k < |calls| ==>
         states[k + 1] == Execute(states[k], calls[k].request, calls[k].retention, calls[k].attempt).next
  }

  /** Outcomes of the committed executions of a key, oldest first. */
  function CodesOf(journal: seq<Execution>, key: string): seq<nat> {
    if journal == [] then []
    else
      var init := CodesOf(journal[..|journal| - 1], key);
      var last := journal[|journal| - 1];
      if last.key == key then init + [last.code] else init
  }

  /**
   A stored record tells its key's history: how often it ran, that every earlier run failed with 5xx,
   and the last outcome.
   */
  ghost predicate TellsHistory(r: Stored, codes: seq<nat>) {
    && r.attempts == |codes| >= 1
    && r.code == codes[|codes| - 1]
    && (forall i :: 0 <= i < |codes| - 1 ==> codes[i] >= 500)
    && !r.status.InProgress?
    && (r.status.Succeeded? <==> r.code < 400)
    && (r.retryable <==> r.code >= 500)
  }

  ghost predicate Consistent(s: State) {
    && (forall key :: key in s.store ==> key != "" && TellsHistory(s.store[key], CodesOf(s.journal, key)))
    && (forall key :: key != "" && key !in s.store ==> CodesOf(s.journal, key) == [])
  }

  lemma CodesAfter(journal: seq<Execution>, e: Execution, key: string)
    ensures CodesOf(journal + [e], key) == CodesOf(journal, key) + (if e.key == key then [e.code] else [])
  {
    assert (journal + [e])[..|journal|] == journal;
  }

  lemma KeylessIsConsistent(s: State, t: State, code: nat)
    requires Consistent(s) && t == s.(journal := s.journal + [Execution("", code)])
    ensures Consistent(t)
  {
    OtherKeysKeepHistory(s, t, Execution("", code));
  }

  lemma CompletedIsConsistent(
    s: State, t: State, q: Request, retention: int, previous: Option<Stored>, code: nat, payload: string)
    requires Consistent(s)
    requires var key := Strip(q.header);
             && key != "" && previous == (if key in s.store then Some(s.store[key]) else None)
             && (previous.Some? ==> previous.value.retryable)
             && t == State(s.store[key := Completed(q, retention, previous, code, payload)],
                  s.journal + [Execution(key, code)])
    ensures Consistent(t)
  {
    hide Strip;
    var key := Strip(q.header);
    CodesAfter(s.journal, Execution(key, code), key);
    OtherKeysKeepHistory(s, t, Execution(key, code));
  }

  lemma StepIsConsistent(s: State, q: Request, retention: int, attempt: Attempt)
    requires Consistent(s)
    ensures Consistent(Execute(s, q, retention, attempt).next)
  {
    var t := Execute(s, q, retention, attempt).next;
    var key := Strip(q.header);
    if t.journal != s.journal {
      hide Strip, Consistent;
      if key == "" {
        KeylessIsConsistent(s, t, attempt.code);
      } else {
        var previous := if key in s.store then Some(s.store[key]) else None;
        CompletedIsConsistent(s, t, q, retention, previous, attempt.code, attempt.payload);
      }
    }
  }

  lemma OtherKeysKeepHistory(s: State, t: State, e: Execution)
    requires t.journal == s.journal + [e]
    ensures forall key :: key != e.key ==> CodesOf(t.journal, key) == CodesOf(s.journal, key)
  {
    forall key | key != e.key
      ensures CodesOf(t.journal, key) == CodesOf(s.journal, key)
    {
      CodesAfter(s.journal, e, key);
    }
  }

  lemma {:induction false} RunIsConsistent(states: seq<State>, calls: seq<Call>, k: nat)
    requires IsRun(states, calls) && k < |states|
    ensures Consistent(states[k])
    decreases k
  {
    if k > 0 {
      RunIsConsistent(states, calls, k - 1);
      StepIsConsistent(states[k - 1], calls[k - 1].request, calls[k - 1].retention, calls[k - 1].attempt);
    }
  }

  /**
   Over all runs: no committed record is in progress, and a key has run once plus once for each 5xx
   outcome before the last.
   */
  lemma ExecutionsAreCounted(states: seq<State>, calls: seq<Call>, n: nat, key: string)
    requires IsRun(states, calls) && n < |states| && key in states[n].store
    ensures var codes := CodesOf(states[n].journal, key);
            && states[n].store[key].attempts == |codes| >= 1
            && states[n].store[key].code == codes[|codes| - 1]
            && (forall i :: 0 <= i < |codes| - 1 ==> codes[i] >= 500)
            && !states[n].store[key].status.InProgress?
  {
    RunIsConsistent(states, calls, n);
  }

  lemma SettledStep(s: State, q: Request, retention: int, attempt: Attempt, key: string)
    requires Consistent(s) && key in s.store && s.store[key].code < 500
    ensures var t := Execute(s, q, retention, attempt).next;
            key in t.store && t.store[key] == s.store[key] && CodesOf(t.journal, key) == CodesOf(s.journal, key)
  {
    var t := Execute(s, q, retention, attempt).next;
    if t.journal != s.journal {
      CodesAfter(s.journal, t.journal[|s.journal|], key);
    }
  }

  /**
   Once an execution of a key commits below 500, no later request with that key runs the
   operation again, whoever sends it, whatever it carries and whenever it comes, and the stored
   response never changes.
   */
  lemma {:induction false} AtMostOneSettledExecution(states: seq<State>, calls: seq<Call>, n: nat, m: nat, key: string)
    requires IsRun(states, calls) && n <= m < |states|
    requires key in states[n].store && states[n].store[key].code < 500
    ensures key in states[m].store && states[m].store[key] == states[n].store[key]
    ensures CodesOf(states[m].journal, key) == CodesOf(states[n].journal, key)
    decreases m
  {
    if n < m {
      AtMostOneSettledExecution(states, calls, n, m - 1, key);
      RunIsConsistent(states, calls, m - 1);
      var c := calls[m - 1];
      SettledStep(states[m - 1], c.request, c.retention, c.attempt, key);
    }
  }

  /**
   A keyed request runs its operation exactly when the key is well formed and either new, or held
   by the same requester and payload, unexpired and last answered with a 5xx. A raise, like every
   refusal and replay, leaves the state as it was.
   */
  lemma WhenTheOperationRuns(states: seq<State>, calls: seq<Call>, n: nat, q: Request, retention: int, attempt: Attempt)
    requires IsRun(states, calls) && n < |states| && Strip(q.header) != ""
    ensures var s := states[n];
            var key := Strip(q.header);
            var effect := Execute(s, q, retention, attempt);
            && (effect.response.Executed? || effect.response.Raised? <==>
                 && 16 <= |key| <= 160
                 && (key in s.store ==>
                      && SameRequester(s.store[key], q) && s.store[key].fingerprint == q.fingerprint
                      && q.now < s.store[key].expiresAt && s.store[key].code >= 500))
            && (!effect.response.Executed? ==> effect.next == s)
            && (effect.response.Executed? ==>
                 !attempt.Raises? && effect.next.journal == s.journal + [Execution(key, attempt.code)])
            && (effect.response.Replayed? ==>
                 key in s.store && effect.response == Replayed(s.store[key].code, s.store[key].payload))
  {
    RunIsConsistent(states, calls, n);
  }

  // ------------------------------------------------------ what later requests are answered

  function EffectOf(states: seq<State>, calls: seq<Call>, k: nat): Effect
    requires k < |calls| && k < |states|
  {
    Execute(states[k], calls[k].request, calls[k].retention, calls[k].attempt)
  }

  function KeyOf(c: Call): string {
    Strip(c.request.header)
  }

  /** Call `f` is the first with the key to have its operation committed. */
  predicate FirstCommit(states: seq<State>, calls: seq<Call>, f: nat, key: string) {
    && f < |calls| && f < |states| && key != "" && KeyOf(calls[f]) == key
    && key !in states[f].store && EffectOf(states, calls, f).response.Executed?
  }

  /** The record belongs to the requester and payload of call `c` and expires a retention after it. */
  predicate OpenedBy(r: Stored, c: Call) {
    && r.tenant == c.request.tenant && r.actor == c.request.actor && r.action == c.request.action
    && r.fingerprint == c.request.fingerprint && r.expiresAt == c.request.now + c.retention
  }

  lemma OpenedByFirst(s: State, c: Call)
    requires KeyOf(c) != "" && KeyOf(c) !in s.store
    requires Execute(s, c.request, c.retention, c.attempt).response.Executed?
    ensures var t := Execute(s, c.request, c.retention, c.attempt).next;
            KeyOf(c) in t.store && OpenedBy(t.store[KeyOf(c)], c)
  {
  }

  lemma StaysOpened(s: State, q: Request, retention: int, attempt: Attempt, key: string, c: Call)
    requires key in s.store && OpenedBy(s.store[key], c)
    ensures var t := Execute(s, q, retention, attempt).next;
            key in t.store && OpenedBy(t.store[key], c)
  {
  }

  lemma {:induction false} OpenedForGood(states: seq<State>, calls: seq<Call>, f: nat, m: nat, key: string)
    requires IsRun(states, calls) && f < m < |states| && FirstCommit(states, calls, f, key)
    ensures key in states[m].store && OpenedBy(states[m].store[key], calls[f])
    decreases m
  {
    hide Execute, Strip, OpenedBy;
    if m == f + 1 {
      OpenedByFirst(states[f], calls[f]);
    } else {
      OpenedForGood(states, calls, f, m - 1, key);
      var c := calls[m - 1];
      StaysOpened(states[m - 1], c.request, c.retention, c.attempt, key, calls[f]);
    }
  }

  lemma AnswerIsStored(s: State, c: Call, code: nat, payload: string)
    requires KeyOf(c) != "" && Execute(s, c.request, c.retention, c.attempt).response == Executed(code, payload)
    ensures c.attempt == Returns(code, payload)
    ensures var t := Execute(s, c.request, c.retention, c.attempt).next;
            KeyOf(c) in t.store && t.store[KeyOf(c)].code == code && t.store[KeyOf(c)].payload == payload
  {
  }

  /** The answer to a request whose key already has a settled record, from the record. */
  lemma SettledAnswer(s: State, q: Request, retention: int, attempt: Attempt, c: Call, code: nat, payload: string)
    requires Consistent(s) && Strip(q.header) in s.store && 16 <= |Strip(q.header)| <= 160
    requires var r := s.store[Strip(q.header)]; OpenedBy(r, c) && r.code == code && r.payload == payload && code < 500
    ensures var first := c.request;
            var sameRequester := q.tenant == first.tenant && q.actor == first.actor && q.action == first.action;
            Execute(s, q, retention, attempt)
              == Effect(s,
                   if !sameRequester then ForeignScope
                   else if q.fingerprint != c.request.fingerprint then DifferentPayload
                   else if q.now >= c.request.now + c.retention then Expired
                   else Replayed(code, payload))
  {
    assert TellsHistory(s.store[Strip(q.header)], CodesOf(s.journal, Strip(q.header)));
  }

  lemma CommittedKeyIsWellFormed(s: State, c: Call)
    requires KeyOf(c) != "" && Execute(s, c.request, c.retention, c.attempt).response.Executed?
    ensures 16 <= |KeyOf(c)| <= 160
  {
  }

  /**
   Over every run: once call `l` with a key is answered Executed(code, payload) below 500, every later
   request with the key, until the first committed call of the key is a retention old, is answered
   Replayed(code, payload) if it comes from that call's requester with its payload; from anyone else,
   with anything else, or later, it is refused. None of them changes the state.
   */
  lemma SettledCallsReplay(
    states: seq<State>, calls: seq<Call>, f: nat, l: nat, m: nat, key: string, code: nat, payload: string,
    q: Request, retention: int, attempt: Attempt)
    requires IsRun(states, calls) && f <= l < m < |states| && FirstCommit(states, calls, f, key)
    requires KeyOf(calls[l]) == key && EffectOf(states, calls, l).response == Executed(code, payload) && code < 500
    requires Strip(q.header) == key
    ensures var first := calls[f].request;
            var sameRequester := q.tenant == first.tenant && q.actor == first.actor && q.action == first.action;
            Execute(states[m], q, retention, attempt)
              == Effect(states[m],
                   if !sameRequester then ForeignScope
                   else if q.fingerprint != first.fingerprint then DifferentPayload
                   else if q.now >= first.now + calls[f].retention then Expired
                   else Replayed(code, payload))
  {
    hide Strip, Execute, Consistent;
    AnswerIsStored(states[l], calls[l], code, payload);
    CommittedKeyIsWellFormed(states[l], calls[l]);
    AtMostOneSettledExecution(states, calls, l + 1, m, key);
    OpenedForGood(states, calls, f, m, key);
    RunIsConsistent(states, calls, m);
    SettledAnswer(states[m], q, retention, attempt, calls[f], code, payload);
  }

  lemma {:induction false} FirstCommitExists(states: seq<State>, calls: seq<Call>, n: nat, key: string) returns (f: nat)
    requires IsRun(states, calls) && n < |states| && key in states[n].store
    ensures f < n && FirstCommit(states, calls, f, key)
    decreases n
  {
    hide Strip;
    RunIsConsistent(states, calls, n);
    if key in states[n - 1].store {
      f := FirstCommitExists(states, calls, n - 1, key);
    } else {
      f := n - 1;
    }
  }

  /** A key that is stored has a first committed call, so the answers above cover every settled key. */
  lemma EverySettledKeyIsCovered(states: seq<State>, calls: seq<Call>, n: nat, key: string)
    requires IsRun(states, calls) && n < |states|
    ensures key in states[n].store <==> exists f :: 0 <= f < n && FirstCommit(states, calls, f, key)
  {
    if key in states[n].store {
      var f := FirstCommitExists(states, calls, n, key);
    }
    if exists f :: 0 <= f < n && FirstCommit(states, calls, f, key) {
      var f :| 0 <= f < n && FirstCommit(states, calls, f, key);
      OpenedForGood(states, calls, f, n, key);
    }
  }

  /** A request without a key runs its operation every time and stores nothing. */
  lemma KeylessRunsEveryTime(s: State, q: Request, retention: int, attempt: Attempt)
    requires Strip(q.header) == ""
    ensures var effect := Execute(s, q, retention, attempt);
            && effect.next.store == s.store
            && effect.response == (if attempt.Raises? then Raised else Executed(attempt.code, attempt.payload))
            && (attempt.Returns? ==> |effect.next.journal| == |s.journal| + 1)
  {
  }
}
