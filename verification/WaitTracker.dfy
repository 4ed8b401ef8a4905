/**
 The tracker that resumes executions when their wait is over (wait-tracker.ts). Each operation is one stretch between
 two `await`s, so a run interleaves polls, timers, resumes, stops and changes of leadership in any order.
 */
module WaitTracker {
  import opened Wrappers

  type Id = nat

  /** A row a poll returned. */
  datatype Row = Row(id: Id, waitTill: Option<int>)

  datatype TimerPhase = Pending | Cleared | Fired(start: nat, at: int)

  /** A timer, armed at `armedAt` on the database clock by a poll that took the database time to be `dbTime`. */
  datatype Timer = Timer(id: Id, waitTill: int, armedAt: int, dbTime: int, due: int, phase: TimerPhase)

  /** A call of `startExecution`, running until its `finally` block. */
  datatype Start = Start(id: Id, running: bool)

  /** `waiting` leads from an id to its timer; `now` is the time on the database clock. */
  datatype State = State(waiting: map<Id, nat>, timers: seq<Timer>, starts: seq<Start>, polls: nat, isPolling: bool,
                         mainTimer: bool, now: int)

  // ---------- the steps ----------

  function Max(a: int, b: int): int { if a < b then b else a }

  /** A poll asks the database, unless one is under way. */
  function PollBeginsOutcome(s: State): State {
    if s.isPolling then s else s.(isPolling := true, polls := s.polls + 1)
  }

  function Untracked(waiting: map<Id, nat>, rows: seq<Row>): seq<Row> {
    if rows == [] then [] else
      (if rows[0].id in waiting then [] else [rows[0]]) + Untracked(waiting, rows[1..])
  }

  function NewTimer(s: State, row: Row, dbTime: int): Timer
    requires row.waitTill.Some?
  {
    Timer(row.id, row.waitTill.value, s.now, dbTime, s.now + Max(row.waitTill.value - dbTime, 0), Pending)
  }

  /** A row without a time is reported and skipped. */
  function ArmOne(s: State, row: Row, dbTime: int): State {
    if row.waitTill.None? then s
    else s.(timers := s.timers + [NewTimer(s, row, dbTime)], waiting := s.waiting[row.id := |s.timers|])
  }

  function ArmAll(s: State, rows: seq<Row>, dbTime: int): State
    decreases |rows|
  {
    if rows == [] then s else ArmAll(ArmOne(s, rows[0], dbTime), rows[1..], dbTime)
  }

  /** The answer arrives, or `None` when the query fails. */
  function PollReturnsOutcome(s: State, rows: Option<seq<Row>>, dbTime: int): State {
    if s.polls == 0 then s else
      var armed := match rows case Some(rs) => ArmAll(s, Untracked(s.waiting, rs), dbTime) case None => s;
      armed.(isPolling := false, polls := s.polls - 1)
  }

  /** The timer fires once it is due, and starts its execution. */
  function FireOutcome(s: State, t: nat): State {
    if t < |s.timers| && s.timers[t].phase == Pending && s.timers[t].due <= s.now
    then s.(timers := s.timers[t := s.timers[t].(phase := Fired(|s.starts|, s.now))],
            starts := s.starts + [Start(s.timers[t].id, true)])
    else s
  }

  /** A finished child starts its parent, without a timer. */
  function StartOutcome(s: State, id: Id): State { s.(starts := s.starts + [Start(id, true)]) }

  /** The `finally` block: the entry goes, its timer is not cleared. */
  function StartEndsOutcome(s: State, k: nat): State {
    if k < |s.starts| && s.starts[k].running
    then s.(starts := s.starts[k := s.starts[k].(running := false)], waiting := s.waiting - {s.starts[k].id})
    else s
  }

  function ClearTimer(timers: seq<Timer>, t: nat): seq<Timer> {
    if t < |timers| && timers[t].phase == Pending then timers[t := timers[t].(phase := Cleared)] else timers
  }

  function StopOutcome(s: State, id: Id): State {
    if id !in s.waiting then s
    else s.(timers := ClearTimer(s.timers, s.waiting[id]), waiting := s.waiting - {id})
  }

  function StartTrackingOutcome(s: State): State { PollBeginsOutcome(s.(mainTimer := true)) }

  /** The timers of all entries are cleared; the entries stay. */
  function StopTrackingOutcome(s: State): State {
    if !s.mainTimer then s
    else s.(timers := seq(|s.timers|, t requires 0 <= t < |s.timers| =>
              if s.timers[t].phase == Pending && t in s.waiting.Values
              then s.timers[t].(phase := Cleared) else s.timers[t]))
  }

  datatype Op =
    | StartTracking
    | StopTracking
    | Poll
    | PollReturns(rows: Option<seq<Row>>, dbTime: int)
    | Fire(timer: nat)
    | StartOther(id: Id)
    | StartEnds(start: nat)
    | Stop(id: Id)
    | Advance(ms: nat)

  function Step(s: State, op: Op): State {
    match op
    case StartTracking => StartTrackingOutcome(s)
    case StopTracking => StopTrackingOutcome(s)
    case Poll => PollBeginsOutcome(s)
    case PollReturns(rows, dbTime) => PollReturnsOutcome(s, rows, dbTime)
    case Fire(t) => FireOutcome(s, t)
    case StartOther(id) => StartOutcome(s, id)
    case StartEnds(k) => StartEndsOutcome(s, k)
    case Stop(id) => StopOutcome(s, id)
    case Advance(ms) => s.(now := s.now + ms)
  }

  function Run(s: State, ops: seq<Op>): State
    decreases |ops|
  {
    if ops == [] then s else Run(Step(s, ops[0]), ops[1..])
  }

  // ---------- the service ----------

  class WaitTracker {
    var waitingExecutions: map<Id, nat>
    var timers: seq<Timer>
    var starts: seq<Start>
    var polls: nat
    var isPolling: bool
    var mainTimer: bool
    var now: int

    constructor (now: int)
      ensures Snapshot() == State(map[], [], [], 0, false, false, now)
    {
      waitingExecutions, timers, starts, polls, isPolling, mainTimer, this.now := map[], [], [], 0, false, false, now;
    }

    function Snapshot(): State
      reads this
    {
      State(waitingExecutions, timers, starts, polls, isPolling, mainTimer, now)
    }

    predicate Has(id: Id)
      reads this
    {
      id in waitingExecutions
    }

    method BeginTracking()
      modifies this
      ensures Snapshot() == StartTrackingOutcome(old(Snapshot()))
    {
      mainTimer := true;
      GetWaitingExecutions();
    }

    /** Up to the first `await`. */
    method GetWaitingExecutions()
      modifies this
      ensures Snapshot() == PollBeginsOutcome(old(Snapshot()))
    {
      if isPolling { return; }
      isPolling := true;
      polls := polls + 1;
    }

    /** From the answer of the database on. */
    method GotWaitingExecutions(rows: Option<seq<Row>>, dbTime: int)
      modifies this
      ensures Snapshot() == PollReturnsOutcome(old(Snapshot()), rows, dbTime)
    {
      if polls == 0 { return; }
      match rows {
        case None =>
        case Some(executions) =>
          var newExecutions := Untracked(waitingExecutions, executions);
          for i := 0 to |newExecutions|
            invariant ArmAll(old(Snapshot()), newExecutions, dbTime) == ArmAll(Snapshot(), newExecutions[i..], dbTime)
            invariant polls == old(polls)
          {
            assert newExecutions[i..][0] == newExecutions[i] && newExecutions[i..][1..] == newExecutions[i + 1..];
            var execution := newExecutions[i];
            if execution.waitTill.None? { continue; }
            var timer := NewTimer(Snapshot(), execution, dbTime);
            waitingExecutions := waitingExecutions[execution.id := |timers|];
            timers := timers + [timer];
          }
      }
      isPolling := false;
      polls := polls - 1;
    }

    method StopExecution(id: Id)
      modifies this
      ensures Snapshot() == StopOutcome(old(Snapshot()), id)
    {
      if !Has(id) { return; }
      timers := ClearTimer(timers, waitingExecutions[id]);
      waitingExecutions := waitingExecutions - {id};
    }

    /** A due timer calls `startExecution`. */
    method TimerFires(t: nat)
      modifies this
      ensures Snapshot() == FireOutcome(old(Snapshot()), t)
    {
      if t >= |timers| || timers[t].phase != Pending || timers[t].due > now { return; }
      timers := timers[t := timers[t].(phase := Fired(|starts|, now))];
      starts := starts + [Start(timers[t].id, true)];
    }

    method StartExecution(id: Id)
      modifies this
      ensures Snapshot() == StartOutcome(old(Snapshot()), id)
    {
      starts := starts + [Start(id, true)];
    }

    method StartExecutionEnds(k: nat)
      modifies this
      ensures Snapshot() == StartEndsOutcome(old(Snapshot()), k)
    {
      if k >= |starts| || !starts[k].running { return; }
      waitingExecutions := waitingExecutions - {starts[k].id};
      starts := starts[k := starts[k].(running := false)];
    }

    method EndTracking()
      modifies this
      ensures Snapshot() == StopTrackingOutcome(old(Snapshot()))
    {
      if !mainTimer { return; }
      ghost var before := timers;
      var rest := waitingExecutions.Keys;
      while rest != {}
        invariant rest <= waitingExecutions.Keys && |timers| == |before|
        invariant waitingExecutions == old(waitingExecutions) && starts == old(starts) && polls == old(polls)
        invariant isPolling == old(isPolling) && mainTimer == old(mainTimer) && now == old(now)
        invariant forall t :: 0 <= t < |before| ==>
          timers[t] == if ClearedSoFar(t, rest) && before[t].phase == Pending
                       then before[t].(phase := Cleared) else before[t]
        decreases |rest|
      {
        var id :| id in rest;
        rest := rest - {id};
        timers := ClearTimer(timers, waitingExecutions[id]);
      }
    }

    ghost predicate ClearedSoFar(t: nat, rest: set<Id>)
      reads this
    {
      exists id :: id in waitingExecutions && id !in rest && waitingExecutions[id] == t
    }
  }

  // ---------- polls ----------

  /** `isPolling` is set exactly while a poll is under way, and there is never more than one. */
  predicate PollsApart(s: State) { s.polls == (if s.isPolling then 1 else 0) }

  lemma {:induction false} ArmAllKeeps(s: State, rows: seq<Row>, dbTime: int)
    ensures var t := ArmAll(s, rows, dbTime);
      && t.starts == s.starts && t.now == s.now && t.polls == s.polls && t.isPolling == s.isPolling
      && t.mainTimer == s.mainTimer && s.timers <= t.timers
    decreases |rows|
  {
    if rows != [] { ArmAllKeeps(ArmOne(s, rows[0], dbTime), rows[1..], dbTime); }
  }

  lemma {:induction false} PollsNeverOverlap(s: State, ops: seq<Op>)
    requires PollsApart(s)
    ensures PollsApart(Run(s, ops))
    decreases |ops|
  {
    if ops != [] { PollsNeverOverlap(Step(s, ops[0]), ops[1..]); }
  }

  lemma {:induction false} UntrackedAre(waiting: map<Id, nat>, rows: seq<Row>, i: nat)
    requires i < |Untracked(waiting, rows)|
    ensures Untracked(waiting, rows)[i].id !in waiting && Untracked(waiting, rows)[i] in rows
  {
    var first: seq<Row> := if rows[0].id in waiting then [] else [rows[0]];
    if i >= |first| { UntrackedAre(waiting, rows[1..], i - |first|); }
  }

  /** A poll leaves every tracked id alone: same entry, and no timer is armed for it. */
  lemma {:induction false} ArmAllLeavesOthers(s: State, rows: seq<Row>, dbTime: int, id: Id)
    requires forall i :: 0 <= i < |rows| ==> rows[i].id != id
    ensures var t := ArmAll(s, rows, dbTime);
      && (id in t.waiting <==> id in s.waiting) && (id in s.waiting ==> t.waiting[id] == s.waiting[id])
      && s.timers <= t.timers && forall j :: |s.timers| <= j < |t.timers| ==> t.timers[j].id != id
    decreases |rows|
  {
    if rows != [] { ArmAllLeavesOthers(ArmOne(s, rows[0], dbTime), rows[1..], dbTime, id); }
  }

  lemma PollLeavesTrackedAlone(s: State, rows: seq<Row>, dbTime: int, id: Id)
    requires id in s.waiting
    ensures var t := PollReturnsOutcome(s, Some(rows), dbTime);
      && id in t.waiting && t.waiting[id] == s.waiting[id]
      && forall j :: |s.timers| <= j < |t.timers| ==> t.timers[j].id != id
  {
    var untracked := Untracked(s.waiting, rows);
    forall i | 0 <= i < |untracked| ensures untracked[i].id != id { UntrackedAre(s.waiting, rows, i); }
    ArmAllLeavesOthers(s, untracked, dbTime, id);
  }

  /** The id is tracked and its timer is pending. */
  predicate Armed(s: State, id: Id) {
    && id in s.waiting && s.waiting[id] < |s.timers|
    && s.timers[s.waiting[id]].id == id && s.timers[s.waiting[id]].phase == Pending
  }

  lemma {:induction false} ArmAllArms(s: State, rows: seq<Row>, dbTime: int, id: Id)
    requires Armed(s, id) || exists i :: 0 <= i < |rows| && rows[i].id == id && rows[i].waitTill.Some?
    ensures Armed(ArmAll(s, rows, dbTime), id)
    decreases |rows|
  {
    if rows != [] { ArmAllArms(ArmOne(s, rows[0], dbTime), rows[1..], dbTime, id); }
  }

  lemma {:induction false} UntrackedKeeps(waiting: map<Id, nat>, rows: seq<Row>, i: nat) returns (j: nat)
    requires i < |rows| && rows[i].id !in waiting
    ensures j < |Untracked(waiting, rows)| && Untracked(waiting, rows)[j] == rows[i]
  {
    var first: seq<Row> := if rows[0].id in waiting then [] else [rows[0]];
    if i == 0 { j := 0; } else {
      j := UntrackedKeeps(waiting, rows[1..], i - 1);
      j := j + |first|;
    }
  }

  /** Every row the poll returned with a time is tracked afterwards, by a new timer if it was not tracked before. */
  lemma PollTracksItsRows(s: State, rows: seq<Row>, dbTime: int, i: nat)
    requires s.polls > 0 && i < |rows| && rows[i].waitTill.Some?
    ensures var after, id := PollReturnsOutcome(s, Some(rows), dbTime), rows[i].id;
      id in after.waiting && (id !in s.waiting ==> Armed(after, id))
  {
    if rows[i].id in s.waiting {
      PollLeavesTrackedAlone(s, rows, dbTime, rows[i].id);
    } else {
      var j := UntrackedKeeps(s.waiting, rows, i);
      ArmAllArms(s, Untracked(s.waiting, rows), dbTime, rows[i].id);
    }
  }

  /** A poll that is under way when the instance steps down still arms its timers. */
  lemma PollOutlivesStepdown(s: State, rows: seq<Row>, dbTime: int, i: nat)
    requires s.polls > 0 && i < |rows| && rows[i].waitTill.Some? && rows[i].id !in s.waiting
    ensures Armed(PollReturnsOutcome(StopTrackingOutcome(s), Some(rows), dbTime), rows[i].id)
  {
    PollTracksItsRows(StopTrackingOutcome(s), rows, dbTime, i);
  }

  // ---------- one term of leadership ----------

  predicate TimerOk(s: State, t: nat)
    requires t < |s.timers|
  {
    match s.timers[t].phase
    case Fired(k, at) => k < |s.starts| && s.starts[k].id == s.timers[t].id && s.timers[t].due <= at <= s.now
    case _ => true
  }

  predicate EntryOk(s: State, id: Id)
    requires id in s.waiting
  {
    s.waiting[id] < |s.timers| && s.timers[s.waiting[id]].id == id
  }

  ghost predicate Valid(s: State) {
    (forall t :: 0 <= t < |s.timers| ==> TimerOk(s, t)) && forall id :: id in s.waiting ==> EntryOk(s, id)
  }

  /** The entry's timer will fire, or has fired and the start it launched is still running. */
  predicate Alive(s: State, id: Id)
    requires id in s.waiting && EntryOk(s, id)
  {
    match s.timers[s.waiting[id]].phase
    case Pending => true
    case Cleared => false
    case Fired(k, _) => k < |s.starts| && s.starts[k].running
  }

  ghost predicate AllAlive(s: State)
    requires Valid(s)
  {
    forall id :: id in s.waiting ==> Alive(s, id)
  }

  lemma ArmOneKeepsValid(s: State, row: Row, dbTime: int)
    requires Valid(s)
    ensures Valid(ArmOne(s, row, dbTime))
    ensures AllAlive(s) ==> AllAlive(ArmOne(s, row, dbTime))
  {
    var after := ArmOne(s, row, dbTime);
    forall t | 0 <= t < |after.timers| ensures TimerOk(after, t) {
      if t < |s.timers| { assert TimerOk(s, t); }
    }
    forall id | id in after.waiting ensures EntryOk(after, id) {
      if id in s.waiting { assert EntryOk(s, id); }
    }
    if AllAlive(s) {
      forall id | id in after.waiting ensures Alive(after, id) {
        if id in s.waiting { assert EntryOk(s, id) && Alive(s, id); }
      }
    }
  }

  lemma {:induction false} ArmAllKeepsValid(s: State, rows: seq<Row>, dbTime: int)
    requires Valid(s)
    ensures Valid(ArmAll(s, rows, dbTime))
    ensures AllAlive(s) ==> AllAlive(ArmAll(s, rows, dbTime))
    decreases |rows|
  {
    if rows != [] {
      ArmOneKeepsValid(s, rows[0], dbTime);
      ArmAllKeepsValid(ArmOne(s, rows[0], dbTime), rows[1..], dbTime);
    }
  }

  lemma StepKeepsValid(s: State, op: Op)
    requires Valid(s)
    ensures Valid(Step(s, op))
  {
    var after := Step(s, op);
    if op.PollReturns? {
      if op.rows.Some? && s.polls > 0 {
        var armed := ArmAll(s, Untracked(s.waiting, op.rows.value), op.dbTime);
        ArmAllKeepsValid(s, Untracked(s.waiting, op.rows.value), op.dbTime);
        ChangedFlagsKeep(armed, after);
      } else {
        ChangedFlagsKeep(s, after);
      }
    } else {
      forall t | 0 <= t < |after.timers| ensures TimerOk(after, t) { StepKeepsTimer(s, op, t); }
      forall id | id in after.waiting ensures EntryOk(after, id) { assert EntryOk(s, id); }
    }
  }

  lemma StepKeepsTimer(s: State, op: Op, t: nat)
    requires Valid(s) && !op.PollReturns? && t < |Step(s, op).timers|
    ensures TimerOk(Step(s, op), t)
  {
    assert TimerOk(s, t);
  }

  lemma ChangedFlagsKeep(s: State, t: State)
    requires Valid(s) && t.timers == s.timers && t.waiting == s.waiting && t.starts == s.starts && t.now == s.now
    ensures Valid(t) && (AllAlive(s) ==> AllAlive(t))
  {
    forall i | 0 <= i < |t.timers| ensures TimerOk(t, i) { assert TimerOk(s, i); }
    forall id | id in t.waiting ensures EntryOk(t, id) { assert EntryOk(s, id); }
    if AllAlive(s) {
      forall id | id in t.waiting ensures Alive(t, id) { assert Alive(s, id); }
    }
  }

  lemma StepKeepsEntryAlive(s: State, op: Op, id: Id)
    requires Valid(s) && id in s.waiting && EntryOk(s, id) && Alive(s, id) && op != StopTracking && !op.PollReturns?
    requires id in Step(s, op).waiting && EntryOk(Step(s, op), id)
    ensures Alive(Step(s, op), id)
  {
    assert TimerOk(s, s.waiting[id]);
    if op.Stop? && op.id in s.waiting { assert EntryOk(s, op.id); }
  }

  /** Only stepping down takes the life out of an entry. */
  lemma StepKeepsAlive(s: State, op: Op)
    requires Valid(s) && AllAlive(s) && Valid(Step(s, op)) && op != StopTracking
    ensures AllAlive(Step(s, op))
  {
    var after := Step(s, op);
    if op.PollReturns? {
      if op.rows.Some? && s.polls > 0 {
        var armed := ArmAll(s, Untracked(s.waiting, op.rows.value), op.dbTime);
        ArmAllKeepsValid(s, Untracked(s.waiting, op.rows.value), op.dbTime);
        ChangedFlagsKeep(armed, after);
      } else {
        ChangedFlagsKeep(s, after);
      }
    } else {
      forall id | id in after.waiting ensures Alive(after, id) {
        assert id in s.waiting && EntryOk(s, id);
        StepKeepsEntryAlive(s, op, id);
      }
    }
  }

  /**
   In a term of leadership that began with an empty table every tracked execution has a timer that will fire or is
   being resumed by one that did.
   */
  lemma {:induction false} TrackedStaysAlive(s: State, ops: seq<Op>)
    requires Valid(s) && AllAlive(s) && forall i :: 0 <= i < |ops| ==> ops[i] != StopTracking
    ensures Valid(Run(s, ops)) && AllAlive(Run(s, ops))
    decreases |ops|
  {
    if ops != [] {
      StepKeepsValid(s, ops[0]);
      StepKeepsAlive(s, ops[0]);
      TrackedStaysAlive(Step(s, ops[0]), ops[1..]);
    }
  }

  lemma {:induction false} RunKeepsValid(s: State, ops: seq<Op>)
    requires Valid(s)
    ensures Valid(Run(s, ops))
    decreases |ops|
  {
    if ops != [] {
      StepKeepsValid(s, ops[0]);
      RunKeepsValid(Step(s, ops[0]), ops[1..]);
    }
  }

  // ---------- timers and the clock ----------

  /** A timer is due before the time its poll read exactly when the poll's idea of the database time ran ahead. */
  predicate DueOk(t: Timer) {
    t.due < t.waitTill <==> t.armedAt < t.dbTime && t.armedAt < t.waitTill
  }

  ghost predicate TimersDueOk(s: State) { forall t :: 0 <= t < |s.timers| ==> DueOk(s.timers[t]) }

  lemma {:induction false} ArmAllDueOk(s: State, rows: seq<Row>, dbTime: int)
    requires TimersDueOk(s)
    ensures TimersDueOk(ArmAll(s, rows, dbTime))
    decreases |rows|
  {
    if rows != [] { ArmAllDueOk(ArmOne(s, rows[0], dbTime), rows[1..], dbTime); }
  }

  lemma {:induction false} RunDueOk(s: State, ops: seq<Op>)
    requires TimersDueOk(s)
    ensures TimersDueOk(Run(s, ops))
    decreases |ops|
  {
    if ops != [] {
      if ops[0].PollReturns? && ops[0].rows.Some? {
        ArmAllDueOk(s, Untracked(s.waiting, ops[0].rows.value), ops[0].dbTime);
      }
      RunDueOk(Step(s, ops[0]), ops[1..]);
    }
  }

  /** No timer fires before the time its poll read, unless that poll took the database clock to be ahead of itself. */
  lemma NoTimerFiresEarly(s: State, ops: seq<Op>, t: nat)
    requires Valid(s) && TimersDueOk(s)
    ensures var timers := Run(s, ops).timers;
      t < |timers| && timers[t].phase.Fired? && timers[t].dbTime <= timers[t].armedAt
      ==> timers[t].waitTill <= timers[t].phase.at
  {
    RunKeepsValid(s, ops);
    RunDueOk(s, ops);
    if t < |Run(s, ops).timers| { assert TimerOk(Run(s, ops), t); }
  }

  // ---------- from the poll to the resume ----------

  /** A pending timer that is due fires: it starts its execution, once, at that time. Otherwise nothing happens. */
  lemma FireExact(s: State, t: nat)
    ensures var u := Step(s, Fire(t));
      if t < |s.timers| && s.timers[t].phase == Pending && s.timers[t].due <= s.now then
        && u.starts == s.starts + [Start(s.timers[t].id, true)]
        && |u.timers| == |s.timers| && u.timers[t].phase == Fired(|s.starts|, s.now) && u.timers[t].id == s.timers[t].id
        && (forall j :: 0 <= j < |s.timers| && j != t ==> u.timers[j] == s.timers[j])
        && u.waiting == s.waiting && u.now == s.now && u.polls == s.polls && u.isPolling == s.isPolling
      else u == s
  {
  }

  /** The timer was armed by this poll for this row: it is due when the wait is over, or at once if it is over. */
  predicate ArmedFor(s: State, timer: Timer, row: Row, dbTime: int) {
    && row.waitTill.Some? && timer.id == row.id && timer.waitTill == row.waitTill.value && timer.phase == Pending
    && timer.due == s.now + if row.waitTill.value > dbTime then row.waitTill.value - dbTime else 0
  }

  lemma {:induction false} ArmAllArmsFor(s: State, rows: seq<Row>, dbTime: int, j: nat)
    requires |s.timers| <= j < |ArmAll(s, rows, dbTime).timers|
    ensures exists i :: 0 <= i < |rows| && ArmedFor(s, ArmAll(s, rows, dbTime).timers[j], rows[i], dbTime)
    decreases |rows|
  {
    var next := ArmOne(s, rows[0], dbTime);
    ArmAllKeeps(next, rows[1..], dbTime);
    if j < |next.timers| {
      assert ArmedFor(s, next.timers[j], rows[0], dbTime);
      assert ArmAll(s, rows, dbTime).timers[j] == next.timers[j];
    } else {
      ArmAllArmsFor(next, rows[1..], dbTime, j);
      var i :| 0 <= i < |rows[1..]| && ArmedFor(next, ArmAll(s, rows, dbTime).timers[j], rows[1..][i], dbTime);
      assert rows[1..][i] == rows[i + 1];
    }
  }

  lemma {:induction false} NewEntriesNewTimers(s: State, rows: seq<Row>, dbTime: int, id: Id)
    requires id !in s.waiting || s.waiting[id] >= |s.timers|
    ensures var t := ArmAll(s, rows, dbTime);
      id in t.waiting ==> (id in s.waiting && t.waiting[id] == s.waiting[id]) || t.waiting[id] >= |s.timers|
    decreases |rows|
  {
    if rows != [] {
      var next := ArmOne(s, rows[0], dbTime);
      if id in next.waiting && next.waiting[id] < |next.timers| {
        EntryOnlyMovesUp(next, rows[1..], dbTime, id);
      } else {
        NewEntriesNewTimers(next, rows[1..], dbTime, id);
      }
    }
  }

  lemma {:induction false} EntryOnlyMovesUp(s: State, rows: seq<Row>, dbTime: int, id: Id)
    requires id in s.waiting && s.waiting[id] < |s.timers|
    ensures var t := ArmAll(s, rows, dbTime);
      id in t.waiting && t.waiting[id] >= s.waiting[id]
    decreases |rows|
  {
    if rows != [] { EntryOnlyMovesUp(ArmOne(s, rows[0], dbTime), rows[1..], dbTime, id); }
  }

  /** The primary key of the rows. */
  predicate DistinctRows(rows: seq<Row>) {
    forall i, j :: 0 <= i < j < |rows| ==> rows[i].id != rows[j].id
  }

  /** The timer that tracks an execution the poll has found new is the one armed for its row. */
  lemma PollArmsFor(s: State, rows: seq<Row>, dbTime: int, i: nat)
    requires s.polls > 0 && i < |rows| && rows[i].waitTill.Some? && rows[i].id !in s.waiting && DistinctRows(rows)
    ensures var t, id := PollReturnsOutcome(s, Some(rows), dbTime), rows[i].id;
      && id in t.waiting && t.waiting[id] < |t.timers| && ArmedFor(s, t.timers[t.waiting[id]], rows[i], dbTime)
      && t.starts == s.starts && t.now == s.now
  {
    var untracked := Untracked(s.waiting, rows);
    var t, id := PollReturnsOutcome(s, Some(rows), dbTime), rows[i].id;
    PollTracksItsRows(s, rows, dbTime, i);
    ArmAllKeeps(s, untracked, dbTime);
    NewEntriesNewTimers(s, untracked, dbTime, id);
    ArmAllArmsFor(s, untracked, dbTime, t.waiting[id]);
    var j :| 0 <= j < |untracked| && ArmedFor(s, t.timers[t.waiting[id]], untracked[j], dbTime);
    UntrackedAre(s.waiting, rows, j);
    var k :| 0 <= k < |rows| && rows[k] == untracked[j];
    assert k == i;
  }

  /**
   A waiting execution that a poll finds is resumed by its timer once the time from the poll to the end of its wait has
   passed, and not before.
   */
  lemma RowIsResumed(s: State, rows: seq<Row>, dbTime: int, i: nat, ms: nat)
    requires s.polls > 0 && i < |rows| && rows[i].waitTill.Some? && rows[i].id !in s.waiting && DistinctRows(rows)
    ensures var polled, id := Step(s, PollReturns(Some(rows), dbTime)), rows[i].id;
      && id in polled.waiting
      && var u := Run(polled, [Advance(ms), Fire(polled.waiting[id])]);
         if ms >= rows[i].waitTill.value - dbTime then u.starts == s.starts + [Start(id, true)]
         else u.starts == s.starts
  {
    PollArmsFor(s, rows, dbTime, i);
    var polled := Step(s, PollReturns(Some(rows), dbTime));
    var t := polled.waiting[rows[i].id];
    assert [Advance(ms), Fire(t)][1..] == [Fire(t)] && [Fire(t)][1..] == [];
    var later := Step(polled, Advance(ms));
    assert Run(later, [Fire(t)]) == Step(later, Fire(t));
    FireExact(later, t);
  }

  /** A finished child starts its parent at once; the entry of a start goes when it ends, and its timers stay. */
  lemma StartsExact(s: State, id: Id, k: nat)
    ensures Step(s, StartOther(id)) == s.(starts := s.starts + [Start(id, true)])
    ensures var u := Step(s, StartEnds(k));
      if k < |s.starts| && s.starts[k].running then
        && u.waiting == s.waiting - {s.starts[k].id} && u.timers == s.timers && |u.starts| == |s.starts|
        && !u.starts[k].running && u.starts[k].id == s.starts[k].id
        && forall j :: 0 <= j < |s.starts| && j != k ==> u.starts[j] == s.starts[j]
      else u == s
  {
  }

  /** A poll that answers, or fails, makes room for the next one; a poll that fails changes nothing else. */
  lemma PollMakesRoom(s: State, rows: Option<seq<Row>>, dbTime: int)
    requires PollsApart(s) && s.isPolling
    ensures var t := Step(s, PollReturns(rows, dbTime));
      && !t.isPolling && t.polls == 0 && (rows == None ==> t == s.(isPolling := false, polls := 0))
      && Step(t, Poll) == t.(isPolling := true, polls := 1) && Step(s, Poll) == s
  {
    if rows.Some? { ArmAllKeeps(s, Untracked(s.waiting, rows.value), dbTime); }
  }

  /** Taking over starts the interval and, unless one is still under way, a first poll. */
  lemma TakeoverPolls(s: State)
    requires PollsApart(s)
    ensures Step(s, StartTracking) == s.(mainTimer := true, isPolling := true, polls := 1)
  {
  }

  lemma {:induction false} ClearedForGood(s: State, t: nat, ops: seq<Op>)
    requires t < |s.timers| && s.timers[t].phase == Cleared
    ensures t < |Run(s, ops).timers| && Run(s, ops).timers[t].phase == Cleared
    decreases |ops|
  {
    if ops != [] {
      if ops[0].PollReturns? && ops[0].rows.Some? {
        ArmAllKeeps(s, Untracked(s.waiting, ops[0].rows.value), ops[0].dbTime);
      }
      ClearedForGood(Step(s, ops[0]), t, ops[1..]);
    }
  }

  /** A stopped execution is not tracked any more, and the timer it had never fires, whatever happens. */
  lemma StoppedNeverFires(s: State, id: Id, ops: seq<Op>)
    requires Valid(s) && id in s.waiting && s.timers[s.waiting[id]].phase == Pending
    ensures var t, stopped := s.waiting[id], Step(s, Stop(id));
      && id !in stopped.waiting && stopped.starts == s.starts && |stopped.timers| == |s.timers|
      && (forall j :: 0 <= j < |s.timers| && j != t ==> stopped.timers[j] == s.timers[j])
      && t < |Run(stopped, ops).timers| && Run(stopped, ops).timers[t].phase == Cleared
  {
    assert EntryOk(s, id);
    ClearedForGood(Step(s, Stop(id)), s.waiting[id], ops);
  }

  /** Stepping down clears exactly the timers that an entry leads to, and keeps every entry and every start. */
  lemma StepdownClears(s: State)
    requires s.mainTimer
    ensures var t := Step(s, StopTracking);
      && t.waiting == s.waiting && t.starts == s.starts && t.polls == s.polls && t.isPolling == s.isPolling
      && |t.timers| == |s.timers|
      && forall j :: 0 <= j < |s.timers| ==>
           if s.timers[j].phase == Pending && (exists id :: id in s.waiting && s.waiting[id] == j)
           then t.timers[j].phase == Cleared && t.timers[j].id == s.timers[j].id
           else t.timers[j] == s.timers[j]
  {
  }

  // ---------- after stepping down ----------

  /** The id is tracked, and nothing will come of it. */
  predicate Stuck(s: State, id: Id) {
    id in s.waiting && s.waiting[id] < |s.timers| && s.timers[s.waiting[id]].phase == Cleared
  }

  /** The entry goes: the execution is stopped, or some start of it ends. */
  predicate Frees(s: State, op: Op, id: Id) {
    || op == Stop(id)
    || (op.StartEnds? && op.start < |s.starts| && s.starts[op.start] == Start(id, true))
  }

  /** Stepping down leaves stuck exactly the ids whose timer was still pending. */
  lemma StepdownSticks(s: State, id: Id)
    requires Valid(s) && s.mainTimer && id in s.waiting
    ensures Stuck(StopTrackingOutcome(s), id) <==> s.timers[s.waiting[id]].phase in {Pending, Cleared}
  {
    assert EntryOk(s, id) && s.waiting[id] in s.waiting.Values;
  }

  lemma StuckUntilFreed(s: State, op: Op, id: Id)
    requires Valid(s) && Stuck(s, id)
    ensures Frees(s, op, id) ==> id !in Step(s, op).waiting
    ensures !Frees(s, op, id) ==> Stuck(Step(s, op), id) && Step(s, op).waiting[id] == s.waiting[id]
  {
    if op.PollReturns? && op.rows.Some? && s.polls > 0 {
      PollLeavesTrackedAlone(s, op.rows.value, op.dbTime, id);
      ArmAllKeeps(s, Untracked(s.waiting, op.rows.value), op.dbTime);
      assert Step(s, op).timers[s.waiting[id]] == s.timers[s.waiting[id]];
    } else if op.Stop? && op.id in s.waiting {
      assert EntryOk(s, op.id) && EntryOk(s, id);
    }
  }

  ghost predicate FreedDuring(s: State, ops: seq<Op>, id: Id)
    decreases |ops|
  {
    ops != [] && (Frees(s, ops[0], id) || FreedDuring(Step(s, ops[0]), ops[1..], id))
  }

  /**
   What stepping down left behind is not picked up in any later term: as long as the execution is neither stopped nor
   started from elsewhere, no poll arms a timer for it.
   */
  lemma {:induction false} StuckAcrossTerms(s: State, ops: seq<Op>, id: Id)
    requires Valid(s) && Stuck(s, id) && !FreedDuring(s, ops, id)
    ensures Stuck(Run(s, ops), id)
    ensures forall t :: |s.timers| <= t < |Run(s, ops).timers| ==> Run(s, ops).timers[t].id != id
    ensures |Run(s, ops).timers| >= |s.timers|
    decreases |ops|
  {
    if ops != [] {
      var next := Step(s, ops[0]);
      StepKeepsValid(s, ops[0]);
      StuckUntilFreed(s, ops[0], id);
      NewTimersElsewhere(s, ops[0], id);
      StuckAcrossTerms(next, ops[1..], id);
      LaterTimersKeepIds(next, ops[1..]);
    }
  }

  lemma NewTimersElsewhere(s: State, op: Op, id: Id)
    requires Valid(s) && id in s.waiting
    ensures var t := Step(s, op);
      |t.timers| >= |s.timers| && forall j :: |s.timers| <= j < |t.timers| ==> t.timers[j].id != id
  {
    if op.PollReturns? && op.rows.Some? {
      PollLeavesTrackedAlone(s, op.rows.value, op.dbTime, id);
      ArmAllKeeps(s, Untracked(s.waiting, op.rows.value), op.dbTime);
    }
  }

  lemma {:induction false} LaterTimersKeepIds(s: State, ops: seq<Op>)
    ensures var t := Run(s, ops);
      |t.timers| >= |s.timers| && forall j :: 0 <= j < |s.timers| ==> t.timers[j].id == s.timers[j].id
    decreases |ops|
  {
    if ops != [] {
      var next := Step(s, ops[0]);
      if ops[0].PollReturns? && ops[0].rows.Some? {
        ArmAllKeeps(s, Untracked(s.waiting, ops[0].rows.value), ops[0].dbTime);
      }
      assert |next.timers| >= |s.timers| && forall j :: 0 <= j < |s.timers| ==> next.timers[j].id == s.timers[j].id;
      LaterTimersKeepIds(next, ops[1..]);
    }
  }

  // ---------- a run in which it happens ----------

  const START: State := State(map[], [], [], 0, false, false, 0)

  /** What the poll returns: execution 1 waits until time 50. */
  const ROWS: Option<seq<Row>> := Some([Row(1, Some(50))])

  /** Execution 1 with its timer cleared, and no poll under way. */
  function SteppedDown(): State {
    START.(waiting := map[1 := 0], timers := [Timer(1, 50, 0, 0, 50, Cleared)], mainTimer := true)
  }

  lemma FirstTerm()
    ensures Run(START, [StartTracking, PollReturns(ROWS, 0), StopTracking]) == SteppedDown()
  {
    var polled := Step(START, StartTracking);
    var row := Row(1, Some(50));
    assert Untracked(polled.waiting, [row]) == [row] by { assert [row][1..] == []; }
    var armed := ArmAll(polled, [row], 0);
    assert armed == ArmOne(polled, row, 0) by { assert [row][1..] == []; }
    var tracked := Step(polled, PollReturns(ROWS, 0));
    assert tracked.timers == [Timer(1, 50, 0, 0, 50, Pending)] && tracked.waiting[1] == 0;
    assert 0 in tracked.waiting.Values;
    assert Step(tracked, StopTracking).timers == SteppedDown().timers;
    RunOfThree(START, StartTracking, PollReturns(ROWS, 0), StopTracking);
  }

  /** The next poll finds execution 1 tracked, so it arms nothing, and the old timer no longer fires. */
  lemma SecondTerm()
    ensures Run(SteppedDown(), [StartTracking, PollReturns(ROWS, 60), Fire(0)]) == SteppedDown()
  {
    var s := SteppedDown();
    var polled := Step(s, StartTracking);
    var row := Row(1, Some(50));
    assert Untracked(polled.waiting, [row]) == [] by { assert [row][1..] == []; }
    assert Step(polled, PollReturns(ROWS, 60)) == s;
    RunOfThree(s, StartTracking, PollReturns(ROWS, 60), Fire(0));
  }

  lemma RunOfThree(s: State, a: Op, b: Op, c: Op)
    ensures Run(s, [a, b, c]) == Step(Step(Step(s, a), b), c)
  {
    var s1 := Step(s, a);
    var s2 := Step(s1, b);
    assert [a, b, c][1..] == [b, c] && [b, c][1..] == [c] && [c][1..] == [];
    assert Run(s2, [c]) == Step(s2, c);
    assert Run(s1, [b, c]) == Run(s2, [c]);
  }

  /**
   An instance that tracks execution 1, steps down and takes over again never resumes it, however long it leads, unless
   the execution is stopped or started from elsewhere.
   */
  lemma SecondTermNeverResumes(more: seq<Op>)
    ensures Run(START, [StartTracking, PollReturns(ROWS, 0), StopTracking]) == SteppedDown()
    ensures Run(SteppedDown(), [StartTracking, PollReturns(ROWS, 60), Fire(0)]) == SteppedDown()
    ensures !FreedDuring(SteppedDown(), more, 1) ==>
      var t := Run(SteppedDown(), more);
      Stuck(t, 1) && forall j :: 1 <= j < |t.timers| ==> t.timers[j].id != 1
  {
    FirstTerm();
    SecondTerm();
    if !FreedDuring(SteppedDown(), more, 1) {
      StuckAcrossTerms(SteppedDown(), more, 1);
    }
  }
}
