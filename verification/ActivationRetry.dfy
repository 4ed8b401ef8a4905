/**
 The queue of workflows whose activation is retried (active-workflow-manager.ts): timers, retries and the growing delay.
 A retry spans several steps, since `add` is asynchronous; the workflow may be queued again or removed meanwhile.
 */
module ActivationRetry {
  type WorkflowId = nat

  const INITIAL_TIMEOUT: nat := 1000

  const MAX_TIMEOUT: nat := 86400000

  datatype Phase = Pending | Cleared | Fired

  datatype Timer = Timer(workflow: WorkflowId, delay: nat, phase: Phase)

  /** An entry of the queue; `failures` counts those of its retries that failed other than by an isolate error. */
  datatype Entry = Entry(lastTimeout: nat, timer: nat, failures: nat)

  datatype Retry = Retry(workflow: WorkflowId, running: bool)

  datatype State = State(queue: map<WorkflowId, Entry>, timers: seq<Timer>, retries: seq<Retry>)

  const EMPTY: State := State(map[], [], [])

  // ---------- the steps ----------

  function Clear(timers: seq<Timer>, t: nat): seq<Timer> {
    if t < |timers| && timers[t].phase == Pending then timers[t := timers[t].(phase := Cleared)] else timers
  }

  /** `removeQueuedWorkflowActivation`: on a stop, on a successful activation, and before queueing. */
  function RemoveOutcome(s: State, w: WorkflowId): State {
    if w !in s.queue then s else State(s.queue - {w}, Clear(s.timers, s.queue[w].timer), s.retries)
  }

  function EnqueueOutcome(s: State, w: WorkflowId): State {
    var removed := RemoveOutcome(s, w);
    State(removed.queue[w := Entry(INITIAL_TIMEOUT, |s.timers|, 0)],
          removed.timers + [Timer(w, INITIAL_TIMEOUT, Pending)], s.retries)
  }

  predicate TimerOfEntry(queue: map<WorkflowId, Entry>, t: nat) {
    exists w :: w in queue && queue[w].timer == t
  }

  function RemoveAllOutcome(s: State): State {
    State(map[],
          seq(|s.timers|, t requires 0 <= t < |s.timers| =>
            if s.timers[t].phase == Pending && TimerOfEntry(s.queue, t)
            then s.timers[t].(phase := Cleared) else s.timers[t]),
          s.retries)
  }

  /** The timer calls the retry function, which calls `add`. */
  function FireOutcome(s: State, t: nat): State {
    if t < |s.timers| && s.timers[t].phase == Pending
    then s.(timers := s.timers[t := s.timers[t].(phase := Fired)],
            retries := s.retries + [Retry(s.timers[t].workflow, true)])
    else s
  }

  /** `add` has activated the workflow and takes it off the queue; it may still fail after that. */
  function RetryRemovesOutcome(s: State, r: nat): State {
    if r < |s.retries| && s.retries[r].running then RemoveOutcome(s, s.retries[r].workflow) else s
  }

  datatype Result = Returned | Failed(isolate: bool)

  function NextTimeout(last: nat, isolate: bool): nat {
    if !isolate && last < MAX_TIMEOUT then (if last * 2 < MAX_TIMEOUT then last * 2 else MAX_TIMEOUT) else last
  }

  function Rearmed(e: Entry, isolate: bool, timer: nat): Entry {
    Entry(NextTimeout(e.lastTimeout, isolate), timer, if isolate then e.failures else e.failures + 1)
  }

  /** A failure arms a new timer for the entry the workflow has by now; without an entry the retry just dies. */
  function RetryEndsOutcome(s: State, r: nat, result: Result): State {
    if r >= |s.retries| || !s.retries[r].running then s else
      var w := s.retries[r].workflow;
      var ended := s.(retries := s.retries[r := Retry(w, false)]);
      if result == Returned || w !in s.queue then ended
      else
        var e := Rearmed(s.queue[w], result.isolate, |s.timers|);
        ended.(queue := s.queue[w := e], timers := s.timers + [Timer(w, e.lastTimeout, Pending)])
  }

  datatype Op =
    | Enqueue(w: WorkflowId)
    | Remove(w: WorkflowId)
    | RemoveAll
    | Fire(timer: nat)
    | RetryRemoves(retry: nat)
    | RetryEnds(retry: nat, result: Result)

  function Step(s: State, op: Op): State {
    match op
    case Enqueue(w) => EnqueueOutcome(s, w)
    case Remove(w) => RemoveOutcome(s, w)
    case RemoveAll => RemoveAllOutcome(s)
    case Fire(t) => FireOutcome(s, t)
    case RetryRemoves(r) => RetryRemovesOutcome(s, r)
    case RetryEnds(r, result) => RetryEndsOutcome(s, r, result)
  }

  function Run(s: State, ops: seq<Op>): State
    decreases |ops|
  {
    if ops == [] then s else Run(Step(s, ops[0]), ops[1..])
  }

  // ---------- the service ----------

  class ActiveWorkflowManager {
    var queuedActivations: map<WorkflowId, Entry>
    var timers: seq<Timer>
    var retries: seq<Retry>

    constructor ()
      ensures Snapshot() == EMPTY
    {
      queuedActivations, timers, retries := map[], [], [];
    }

    function Snapshot(): State
      reads this
    {
      State(queuedActivations, timers, retries)
    }

    method RemoveQueuedWorkflowActivation(w: WorkflowId)
      modifies this
      ensures Snapshot() == RemoveOutcome(old(Snapshot()), w)
    {
      if w in queuedActivations {
        timers := Clear(timers, queuedActivations[w].timer);
        queuedActivations := queuedActivations - {w};
      }
    }

    method AddQueuedWorkflowActivation(w: WorkflowId)
      modifies this
      ensures Snapshot() == EnqueueOutcome(old(Snapshot()), w)
    {
      RemoveQueuedWorkflowActivation(w);
      queuedActivations := queuedActivations[w := Entry(INITIAL_TIMEOUT, |timers|, 0)];
      timers := timers + [Timer(w, INITIAL_TIMEOUT, Pending)];
    }

    method RemoveAllQueuedWorkflowActivations()
      modifies this
      ensures Snapshot() == RemoveAllOutcome(old(Snapshot()))
    {
      while queuedActivations != map[]
        invariant retries == old(retries) && |timers| == |old(timers)|
        invariant forall w :: w in queuedActivations ==> w in old(queuedActivations)
                                                         && queuedActivations[w] == old(queuedActivations)[w]
        invariant forall t :: 0 <= t < |timers| ==>
          timers[t] == if old(timers)[t].phase == Pending && ClearedSoFar(old(queuedActivations), t)
                       then old(timers)[t].(phase := Cleared) else old(timers)[t]
        decreases |queuedActivations.Keys|
      {
        var w :| w in queuedActivations;
        RemoveQueuedWorkflowActivation(w);
      }
    }

    ghost predicate ClearedSoFar(before: map<WorkflowId, Entry>, t: nat)
      reads this
    {
      exists w :: w in before && w !in queuedActivations && before[w].timer == t
    }

    method TimerFires(t: nat)
      modifies this
      ensures Snapshot() == FireOutcome(old(Snapshot()), t)
    {
      if t >= |timers| || timers[t].phase != Pending { return; }
      retries := retries + [Retry(timers[t].workflow, true)];
      timers := timers[t := timers[t].(phase := Fired)];
    }

    method RetryActivates(r: nat)
      modifies this
      ensures Snapshot() == RetryRemovesOutcome(old(Snapshot()), r)
    {
      if r < |retries| && retries[r].running { RemoveQueuedWorkflowActivation(retries[r].workflow); }
    }

    /** From where `add` returns or throws to the end of the retry function. */
    method RetryFinishes(r: nat, result: Result)
      modifies this
      ensures Snapshot() == RetryEndsOutcome(old(Snapshot()), r, result)
    {
      if r >= |retries| || !retries[r].running { return; }
      var w := retries[r].workflow;
      retries := retries[r := Retry(w, false)];
      if result == Returned || w !in queuedActivations { return; }
      var lastTimeout := queuedActivations[w].lastTimeout;
      var failures := queuedActivations[w].failures;
      if !result.isolate {
        failures := failures + 1;
        if lastTimeout < MAX_TIMEOUT {
          lastTimeout := if lastTimeout * 2 < MAX_TIMEOUT then lastTimeout * 2 else MAX_TIMEOUT;
        }
      }
      queuedActivations := queuedActivations[w := Entry(lastTimeout, |timers|, failures)];
      timers := timers + [Timer(w, lastTimeout, Pending)];
    }
  }

  // ---------- the delay ----------

  function Pow2(k: nat): nat { if k == 0 then 1 else 2 * Pow2(k - 1) }

  /** The delay after k failures. */
  function Backoff(k: nat): nat {
    if INITIAL_TIMEOUT * Pow2(k) < MAX_TIMEOUT then INITIAL_TIMEOUT * Pow2(k) else MAX_TIMEOUT
  }

  lemma {:induction false} Pow2Grows(j: nat, k: nat)
    requires j <= k
    ensures Pow2(j) <= Pow2(k)
    decreases k - j
  {
    if j < k { Pow2Grows(j, k - 1); }
  }

  /** The delay never shrinks, starts at a second, and stands at a day from the seventeenth failure on. */
  lemma BackoffShape(j: nat, k: nat)
    requires j <= k
    ensures Backoff(0) == 1000 && Backoff(j) <= Backoff(k)
    ensures Backoff(k) == 86400000 <==> k >= 17
  {
    Pow2Grows(j, k);
    assert Pow2(16) == 65536 && Pow2(17) == 131072 by {
      assert Pow2(4) == 16 && Pow2(8) == 256 && Pow2(12) == 4096 && Pow2(16) == 65536;
    }
    if k >= 17 { Pow2Grows(17, k); } else { Pow2Grows(k, 16); }
  }

  predicate EntryOk(s: State, w: WorkflowId)
    requires w in s.queue
  {
    && s.queue[w].lastTimeout == Backoff(s.queue[w].failures)
    && s.queue[w].timer < |s.timers|
    && s.timers[s.queue[w].timer].workflow == w && s.timers[s.queue[w].timer].delay == s.queue[w].lastTimeout
  }

  ghost predicate DelaysOk(s: State) { forall w :: w in s.queue ==> EntryOk(s, w) }

  lemma NextBackoff(k: nat)
    ensures NextTimeout(Backoff(k), false) == Backoff(k + 1) && NextTimeout(Backoff(k), true) == Backoff(k)
  {
  }

  lemma StepKeepsDelays(s: State, op: Op)
    requires DelaysOk(s)
    ensures DelaysOk(Step(s, op))
  {
    if op.RetryEnds? {
      RetryKeepsDelays(s, op.retry, op.result);
    } else {
      var after := Step(s, op);
      forall w | w in after.queue ensures EntryOk(after, w) {
        if w in s.queue { assert EntryOk(s, w); }
      }
    }
  }

  lemma RetryKeepsDelays(s: State, r: nat, result: Result)
    requires DelaysOk(s)
    ensures DelaysOk(RetryEndsOutcome(s, r, result))
  {
    var after := RetryEndsOutcome(s, r, result);
    forall w | w in after.queue ensures EntryOk(after, w) {
      assert EntryOk(s, w);
      NextBackoff(s.queue[w].failures);
    }
  }

  /**
   In every run, with retries overlapping in any way, an entry's timer waits the time its failures call for: isolate
   failures do not count.
   */
  lemma {:induction false} DelaysAlwaysOk(s: State, ops: seq<Op>)
    requires DelaysOk(s)
    ensures DelaysOk(Run(s, ops))
    decreases |ops|
  {
    if ops != [] {
      StepKeepsDelays(s, ops[0]);
      DelaysAlwaysOk(Step(s, ops[0]), ops[1..]);
    }
  }

  // ---------- one timer per workflow ----------

  /** A pending timer is the one its workflow's entry names. */
  predicate Named(s: State, t: nat)
    requires t < |s.timers|
  {
    s.timers[t].phase == Pending ==> s.timers[t].workflow in s.queue && s.queue[s.timers[t].workflow].timer == t
  }

  ghost predicate Tidy(s: State) {
    && (forall w :: w in s.queue ==> s.queue[w].timer < |s.timers| && s.timers[s.queue[w].timer].workflow == w)
    && (forall t :: 0 <= t < |s.timers| ==> Named(s, t))
  }

  lemma AtMostOneTimer(s: State, t: nat, u: nat)
    requires Tidy(s) && t < |s.timers| && u < |s.timers|
    requires s.timers[t].phase == Pending && s.timers[u].phase == Pending
             && s.timers[t].workflow == s.timers[u].workflow
    ensures t == u
  {
    assert Named(s, t) && Named(s, u);
  }

  /** A failing retry finds an entry that is waiting already: the workflow was queued again while the retry ran. */
  predicate Overtaken(s: State, op: Op) {
    && op.RetryEnds? && op.retry < |s.retries| && s.retries[op.retry].running && op.result.Failed?
    && s.retries[op.retry].workflow in s.queue
    && s.queue[s.retries[op.retry].workflow].timer < |s.timers|
    && s.timers[s.queue[s.retries[op.retry].workflow].timer].phase == Pending
  }

  lemma RemoveKeepsTidy(s: State, w: WorkflowId)
    requires Tidy(s)
    ensures Tidy(RemoveOutcome(s, w))
  {
    var after := RemoveOutcome(s, w);
    forall t | 0 <= t < |after.timers| ensures Named(after, t) { assert Named(s, t); }
  }

  lemma EnqueueKeepsTidy(s: State, w: WorkflowId)
    requires Tidy(s)
    ensures Tidy(EnqueueOutcome(s, w))
  {
    RemoveKeepsTidy(s, w);
    var removed, after := RemoveOutcome(s, w), EnqueueOutcome(s, w);
    forall t | 0 <= t < |after.timers| ensures Named(after, t) {
      if t < |s.timers| { assert Named(removed, t); }
    }
  }

  lemma RetryEndsTidy(s: State, r: nat, result: Result)
    requires Tidy(s)
    ensures Tidy(RetryEndsOutcome(s, r, result)) <==> !Overtaken(s, RetryEnds(r, result))
  {
    var after := RetryEndsOutcome(s, r, result);
    if Overtaken(s, RetryEnds(r, result)) {
      assert !Named(after, s.queue[s.retries[r].workflow].timer);
    } else {
      forall t | 0 <= t < |after.timers| ensures Named(after, t) {
        if t < |s.timers| { assert Named(s, t); }
      }
    }
  }

  /** Exactly the failure of an overtaken retry leaves a second timer running. */
  lemma TidyExactly(s: State, op: Op)
    requires Tidy(s)
    ensures Tidy(Step(s, op)) <==> !Overtaken(s, op)
  {
    match op
    case Enqueue(w) => EnqueueKeepsTidy(s, w);
    case Remove(w) => RemoveKeepsTidy(s, w);
    case RetryRemoves(r) => if r < |s.retries| { RemoveKeepsTidy(s, s.retries[r].workflow); }
    case RetryEnds(r, result) => RetryEndsTidy(s, r, result);
    case _ =>
      var after := Step(s, op);
      forall t | 0 <= t < |after.timers| ensures Named(after, t) { assert Named(s, t); }
  }

  // ---------- what the queue operations do ----------

  /** A pending timer of the workflow has been cleared; any other timer is as it was. */
  predicate ClearedFor(w: WorkflowId, before: Timer, after: Timer) {
    if before.workflow == w && before.phase == Pending then after == Timer(w, before.delay, Cleared)
      else after == before
  }

  /** Queueing starts over: a delay of a second, no failures, and no other timer pending for the workflow. */
  lemma EnqueueStartsOver(s: State, w: WorkflowId)
    requires Tidy(s)
    ensures var t, n := Step(s, Enqueue(w)), |s.timers|;
      && t.queue == s.queue[w := Entry(1000, n, 0)] && t.retries == s.retries
      && |t.timers| == n + 1 && t.timers[n] == Timer(w, 1000, Pending)
      && forall j :: 0 <= j < n ==> ClearedFor(w, s.timers[j], t.timers[j])
  {
    var t := Step(s, Enqueue(w));
    forall j | 0 <= j < |s.timers| ensures ClearedFor(w, s.timers[j], t.timers[j]) { assert Named(s, j); }
  }

  /** Taking a workflow off the queue clears its pending timer, and no other one. */
  lemma RemoveClearsTimer(s: State, w: WorkflowId)
    requires Tidy(s)
    ensures var t := Step(s, Remove(w));
      && t.queue == s.queue - {w} && t.retries == s.retries && |t.timers| == |s.timers|
      && forall j :: 0 <= j < |s.timers| ==> ClearedFor(w, s.timers[j], t.timers[j])
  {
    var t := Step(s, Remove(w));
    forall j | 0 <= j < |s.timers| ensures ClearedFor(w, s.timers[j], t.timers[j]) { assert Named(s, j); }
    assert w !in s.queue ==> s.queue - {w} == s.queue;
  }

  lemma RemoveAllClearsTimers(s: State)
    requires Tidy(s)
    ensures var t := Step(s, RemoveAll);
      && t.queue == map[] && t.retries == s.retries && |t.timers| == |s.timers|
      && forall j :: 0 <= j < |s.timers| ==>
           t.timers[j].phase != Pending && (s.timers[j].phase != Pending ==> t.timers[j] == s.timers[j])
  {
    var t := Step(s, RemoveAll);
    forall j | 0 <= j < |s.timers|
      ensures t.timers[j].phase != Pending && (s.timers[j].phase != Pending ==> t.timers[j] == s.timers[j])
    {
      assert Named(s, j);
      if s.timers[j].phase == Pending { assert s.queue[s.timers[j].workflow].timer == j; }
    }
  }

  /** A pending timer starts a retry of its workflow, once. */
  lemma FireStartsRetry(s: State, t: nat)
    ensures var u := Step(s, Fire(t));
      if t < |s.timers| && s.timers[t].phase == Pending then
        && u.queue == s.queue && u.retries == s.retries + [Retry(s.timers[t].workflow, true)]
        && |u.timers| == |s.timers| && u.timers[t] == Timer(s.timers[t].workflow, s.timers[t].delay, Fired)
        && forall j :: 0 <= j < |s.timers| && j != t ==> u.timers[j] == s.timers[j]
      else u == s
  {
  }

  // ---------- whole runs ----------

  predicate SameWorkflowPending(s: State, t: nat, u: nat) {
    && t < |s.timers| && u < |s.timers| && s.timers[t].workflow == s.timers[u].workflow
    && s.timers[t].phase == Pending && s.timers[u].phase == Pending
  }

  /** No workflow has two retry timers waiting. */
  ghost predicate OneTimerEach(s: State) {
    forall t: nat, u: nat :: SameWorkflowPending(s, t, u) ==> t == u
  }

  /** No workflow has two at any point of the run. */
  ghost predicate OneTimerThroughout(s: State, ops: seq<Op>)
    decreases |ops|
  {
    OneTimerEach(s) && (ops == [] || OneTimerThroughout(Step(s, ops[0]), ops[1..]))
  }

  ghost predicate NeverOvertaken(s: State, ops: seq<Op>)
    decreases |ops|
  {
    ops == [] || (!Overtaken(s, ops[0]) && NeverOvertaken(Step(s, ops[0]), ops[1..]))
  }

  lemma TidyHasOneEach(s: State)
    requires Tidy(s)
    ensures OneTimerEach(s)
  {
    forall t: nat, u: nat | SameWorkflowPending(s, t, u) ensures t == u { AtMostOneTimer(s, t, u); }
  }

  lemma OvertakenHasTwo(s: State, op: Op)
    requires Tidy(s) && Overtaken(s, op)
    ensures !OneTimerEach(Step(s, op))
  {
    var earlier := s.queue[s.retries[op.retry].workflow].timer;
    assert SameWorkflowPending(Step(s, op), earlier, |s.timers|);
  }

  lemma {:induction false} OneTimerExactly(s: State, ops: seq<Op>)
    requires Tidy(s)
    ensures OneTimerThroughout(s, ops) <==> NeverOvertaken(s, ops)
    decreases |ops|
  {
    TidyHasOneEach(s);
    if ops != [] {
      TidyExactly(s, ops[0]);
      if Overtaken(s, ops[0]) {
        OvertakenHasTwo(s, ops[0]);
      } else {
        OneTimerExactly(Step(s, ops[0]), ops[1..]);
      }
    }
  }

  /**
   From the empty queue on, no workflow ever has two retry timers if and only if no retry fails after its workflow was
   queued again.
   */
  lemma RunsKeepOneTimerExactly(ops: seq<Op>)
    ensures OneTimerThroughout(EMPTY, ops) <==> NeverOvertaken(EMPTY, ops)
  {
    OneTimerExactly(EMPTY, ops);
  }

  // ---------- retries as single events ----------

  datatype Outcome = Activated | Skipped | FailedBefore(isolate: bool) | FailedAfter(isolate: bool)

  datatype Event = Queue(w: WorkflowId) | Unqueue(w: WorkflowId) | UnqueueAll | RetryOnce(timer: nat, outcome: Outcome)

  /** The steps of an event, with nothing in between; r is the number the retry gets. */
  function Steps(e: Event, r: nat): seq<Op> {
    match e
    case Queue(w) => [Enqueue(w)]
    case Unqueue(w) => [Remove(w)]
    case UnqueueAll => [RemoveAll]
    case RetryOnce(t, outcome) =>
      match outcome
      case Activated => [Fire(t), RetryRemoves(r), RetryEnds(r, Returned)]
      case Skipped => [Fire(t), RetryEnds(r, Returned)]
      case FailedBefore(isolate) => [Fire(t), RetryEnds(r, Failed(isolate))]
      case FailedAfter(isolate) => [Fire(t), RetryRemoves(r), RetryEnds(r, Failed(isolate))]
  }

  predicate Enabled(s: State, e: Event) {
    e.RetryOnce? ==> e.timer < |s.timers| && s.timers[e.timer].phase == Pending
  }

  function Happen(s: State, e: Event): State {
    if Enabled(s, e) then Run(s, Steps(e, |s.retries|)) else s
  }

  function HappenAll(s: State, events: seq<Event>): State
    decreases |events|
  {
    if events == [] then s else HappenAll(Happen(s, events[0]), events[1..])
  }

  lemma RunOne(s: State, a: Op)
    ensures Run(s, [a]) == Step(s, a)
  {
    assert [a][1..] == [];
  }

  lemma RunTwo(s: State, a: Op, b: Op)
    ensures Run(s, [a, b]) == Step(Step(s, a), b)
  {
    assert [a, b][1..] == [b];
    RunOne(Step(s, a), b);
  }

  lemma RunThree(s: State, a: Op, b: Op, c: Op)
    ensures Run(s, [a, b, c]) == Step(Step(Step(s, a), b), c)
  {
    assert [a, b, c][1..] == [b, c];
    RunTwo(Step(s, a), b, c);
  }

  lemma EventKeepsTidy(s: State, e: Event)
    requires Tidy(s) && DelaysOk(s) && Enabled(s, e)
    ensures Tidy(Happen(s, e)) && DelaysOk(Happen(s, e))
  {
    var r := |s.retries|;
    DelaysAlwaysOk(s, Steps(e, r));
    match e
    case Queue(w) => RunOne(s, Enqueue(w)); TidyExactly(s, Enqueue(w));
    case Unqueue(w) => RunOne(s, Remove(w)); TidyExactly(s, Remove(w));
    case UnqueueAll => RunOne(s, RemoveAll); TidyExactly(s, RemoveAll);
    case RetryOnce(t, outcome) =>
      assert Named(s, t);
      TidyExactly(s, Fire(t));
      var fired := Step(s, Fire(t));
      var w := s.timers[t].workflow;
      assert fired.retries[r] == Retry(w, true) && fired.timers[fired.queue[w].timer].phase == Fired;
      TidyExactly(fired, RetryRemoves(r));
      var removed := Step(fired, RetryRemoves(r));
      match outcome
      case Activated =>
        RunThree(s, Fire(t), RetryRemoves(r), RetryEnds(r, Returned));
        TidyExactly(removed, RetryEnds(r, Returned));
      case Skipped =>
        RunTwo(s, Fire(t), RetryEnds(r, Returned));
        TidyExactly(fired, RetryEnds(r, Returned));
      case FailedBefore(isolate) =>
        RunTwo(s, Fire(t), RetryEnds(r, Failed(isolate)));
        TidyExactly(fired, RetryEnds(r, Failed(isolate)));
      case FailedAfter(isolate) =>
        RunThree(s, Fire(t), RetryRemoves(r), RetryEnds(r, Failed(isolate)));
        TidyExactly(removed, RetryEnds(r, Failed(isolate)));
  }

  /**
   With each retry one event, no workflow ever has two retry timers, and each waits for what its failures call for.
   */
  lemma {:induction false} EventsKeepTidy(s: State, events: seq<Event>)
    requires Tidy(s) && DelaysOk(s)
    ensures Tidy(HappenAll(s, events)) && DelaysOk(HappenAll(s, events))
    decreases |events|
  {
    if events != [] {
      if Enabled(s, events[0]) { EventKeepsTidy(s, events[0]); }
      EventsKeepTidy(Happen(s, events[0]), events[1..]);
    }
  }

  /** What a retry does to the queue: its entry goes, stays without a timer, or waits longer. */
  lemma RetryOutcomes(s: State, t: nat, outcome: Outcome)
    requires Tidy(s) && DelaysOk(s) && Enabled(s, RetryOnce(t, outcome)) && s.timers[t].workflow in s.queue
    ensures var after, w := Happen(s, RetryOnce(t, outcome)), s.timers[t].workflow;
      && (outcome.Activated? || outcome.FailedAfter? ==> w !in after.queue)
      && (outcome.Skipped? ==> w in after.queue && after.queue[w] == s.queue[w]
                               && after.queue[w].timer < |after.timers|
                               && after.timers[after.queue[w].timer].phase == Fired)
      && (outcome.FailedBefore? ==>
            && w in after.queue && after.queue[w].timer == |s.timers|
            && after.queue[w].lastTimeout == (if outcome.isolate then s.queue[w].lastTimeout
                                              else if s.queue[w].lastTimeout * 2 < 86400000
                                              then s.queue[w].lastTimeout * 2 else 86400000)
            && after.queue[w].failures == s.queue[w].failures + (if outcome.isolate then 0 else 1)
            && after.queue[w].timer < |after.timers|
            && after.timers[after.queue[w].timer] == Timer(w, after.queue[w].lastTimeout, Pending))
  {
    var r := |s.retries|;
    assert Named(s, t);
    match outcome
    case Activated => RunThree(s, Fire(t), RetryRemoves(r), RetryEnds(r, Returned));
    case Skipped => RunTwo(s, Fire(t), RetryEnds(r, Returned));
    case FailedBefore(isolate) => RunTwo(s, Fire(t), RetryEnds(r, Failed(isolate)));
    case FailedAfter(isolate) => RunThree(s, Fire(t), RetryRemoves(r), RetryEnds(r, Failed(isolate)));
  }

  /** A workflow is queued, and its retry fails k times, each time when the timer of its entry fires. */
  ghost function FailTimes(s: State, w: WorkflowId, k: nat): State
    decreases k
  {
    if k == 0 then Happen(s, Queue(w)) else
      var before := FailTimes(s, w, k - 1);
      if w in before.queue then Happen(before, RetryOnce(before.queue[w].timer, FailedBefore(false))) else before
  }

  /** The next retry then waits a second doubled k times, but a day at most. */
  lemma {:induction false} DelayAfterFailures(s: State, w: WorkflowId, k: nat)
    requires Tidy(s) && DelaysOk(s)
    ensures var t := FailTimes(s, w, k);
      && Tidy(t) && DelaysOk(t) && w in t.queue && t.queue[w].failures == k && t.queue[w].timer < |t.timers|
      && t.timers[t.queue[w].timer]
         == Timer(w, if 1000 * Pow2(k) < 86400000 then 1000 * Pow2(k) else 86400000, Pending)
    decreases k
  {
    if k == 0 {
      EventKeepsTidy(s, Queue(w));
      RunOne(s, Enqueue(w));
      EnqueueStartsOver(s, w);
    } else {
      DelayAfterFailures(s, w, k - 1);
      var before := FailTimes(s, w, k - 1);
      var retry := RetryOnce(before.queue[w].timer, FailedBefore(false));
      RetryOutcomes(before, before.queue[w].timer, FailedBefore(false));
      EventKeepsTidy(before, retry);
      assert EntryOk(Happen(before, retry), w);
    }
  }

  /** A workflow that is queued again while its retry runs ends up with two timers when that retry fails. */
  lemma OvertakenRetryDoubles(w: WorkflowId)
    ensures var s := Run(EMPTY, [Enqueue(w), Fire(0), Enqueue(w), RetryEnds(0, Failed(false))]);
      |s.timers| == 3 && s.timers[1] == Timer(w, 1000, Pending) && s.timers[2] == Timer(w, 2000, Pending)
  {
    var ops := [Enqueue(w), Fire(0), Enqueue(w), RetryEnds(0, Failed(false))];
    assert ops[1..] == [Fire(0), Enqueue(w), RetryEnds(0, Failed(false))];
    RunThree(Step(EMPTY, Enqueue(w)), Fire(0), Enqueue(w), RetryEnds(0, Failed(false)));
    var fired := Step(Step(EMPTY, Enqueue(w)), Fire(0));
    assert fired.timers == [Timer(w, 1000, Fired)] && fired.retries == [Retry(w, true)];
    var again := Step(fired, Enqueue(w));
    assert again.timers == [Timer(w, 1000, Fired), Timer(w, 1000, Pending)];
  }
}
