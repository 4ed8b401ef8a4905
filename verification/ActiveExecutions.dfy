/**
 The executions active in one process (active-executions.ts) and the capacity they hold. Each operation is one stretch
 between two `await`s, so a run is any interleaving of any number of calls of `add` with stops, status changes,
 settling and cleaning up.
 */
module ActiveExecutions {
  import opened Wrappers

  type Id = nat

  datatype Status = New | Running | Waiting | Ended

  /** A capacity reservation; releasing one that is not held does nothing. */
  datatype Reservation = Idle | Held | Released

  /** How far a call of `add` has come. */
  datatype Phase =
    | Creating
    | Reserving(id: Id)
    | Updating(id: Id)
    | Failed(alreadyResuming: bool)
    | Installed(exec: nat)

  datatype Call = Call(resuming: bool, phase: Phase, reservation: Reservation)

  /** An entry, with its post-execute promise: whether that has settled, and whether the cleanup behind it has run. */
  datatype Execution = Execution(id: Id, call: nat, status: Status, startedAt: int, response: Option<nat>,
                                 attached: bool, settled: bool, cleaned: bool)

  /** Entries live in `execs`; `table` says which of them is current for an id. */
  datatype State = State(calls: seq<Call>, execs: seq<Execution>, table: map<Id, nat>, responseModes: map<Id, nat>,
                         acquired: nat, released: nat)

  datatype UpdateOutcome = Updated | NoRow | Threw

  const EMPTY: State := State([], [], map[], map[], 0, 0)

  // ---------- the steps of add ----------

  function SetPhase(s: State, c: nat, phase: Phase): State
    requires c < |s.calls|
  {
    s.(calls := s.calls[c := s.calls[c].(phase := phase)])
  }

  function ReleaseOutcome(s: State, c: nat): State
    requires c < |s.calls|
  {
    if s.calls[c].reservation != Held then s
    else s.(calls := s.calls[c := s.calls[c].(reservation := Released)], released := s.released + 1)
  }

  /** The catch path: release, then the error reaches the caller. */
  function FailOutcome(s: State, c: nat, alreadyResuming: bool): State
    requires c < |s.calls|
  {
    SetPhase(ReleaseOutcome(s, c), c, Failed(alreadyResuming))
  }

  /** The new entry takes over the start time and the response promise of the entry it replaces. */
  function NewExecution(s: State, c: nat, id: Id, now: int): Execution {
    if id in s.table && s.table[id] < |s.execs|
    then Execution(id, c, Running, s.execs[s.table[id]].startedAt, s.execs[s.table[id]].response, false, false, false)
    else Execution(id, c, Running, now, None, false, false, false)
  }

  function InstallOutcome(s: State, c: nat, id: Id, now: int): State
    requires c < |s.calls|
  {
    var e := |s.execs|;
    SetPhase(s, c, Installed(e)).(execs := s.execs + [NewExecution(s, c, id, now)], table := s.table[id := e])
  }

  function AddOutcome(s: State, id: Option<Id>): State {
    var phase := match id case Some(i) => Reserving(i) case None => Creating;
    s.(calls := s.calls + [Call(id.Some?, phase, Idle)])
  }

  /** The execution row is created, or creating it throws. */
  function CreatedOutcome(s: State, c: nat, id: Option<Id>): State {
    if c < |s.calls| && s.calls[c].phase.Creating?
    then (match id case Some(i) => SetPhase(s, c, Reserving(i)) case None => FailOutcome(s, c, false))
    else s
  }

  /** Capacity is granted, or asking for it throws. In queue mode a new execution needs no further update. */
  function ReservedOutcome(s: State, regular: bool, c: nat, granted: bool, now: int): State {
    if c < |s.calls| && s.calls[c].phase.Reserving? then
      var id := s.calls[c].phase.id;
      if !granted then FailOutcome(s, c, false)
      else
        var held := s.(calls := s.calls[c := s.calls[c].(phase := Updating(id), reservation := Held)],
                       acquired := s.acquired + 1);
        if !s.calls[c].resuming && !regular then InstallOutcome(held, c, id, now) else held
    else s
  }

  /** The database update returns. A resuming call that matched no row lost the race for the execution. */
  function UpdatedOutcome(s: State, c: nat, outcome: UpdateOutcome, now: int): State {
    if c < |s.calls| && s.calls[c].phase.Updating? then
      if outcome == Threw then FailOutcome(s, c, false)
      else if s.calls[c].resuming && outcome == NoRow then FailOutcome(s, c, true)
      else InstallOutcome(s, c, s.calls[c].phase.id, now)
    else s
  }

  // ---------- the other operations ----------

  function SetExecution(s: State, e: nat, x: Execution): State
    requires e < |s.execs|
  {
    s.(execs := s.execs[e := x])
  }

  /** The current entry for an id. */
  function Current(s: State, id: Id): Option<nat> {
    if id in s.table && s.table[id] < |s.execs| then Some(s.table[id]) else None
  }

  function Forget(s: State, id: Id): State {
    s.(table := s.table - {id}, responseModes := s.responseModes - {id})
  }

  /** A waiting entry is dropped, any other one has its promise rejected. */
  function StopOutcome(s: State, id: Id): State {
    match Current(s, id)
    case None => s
    case Some(e) =>
      if s.execs[e].status == Waiting then Forget(s, id) else SetExecution(s, e, s.execs[e].(settled := true))
  }

  function FinalizeOutcome(s: State, id: Id): State {
    match Current(s, id)
    case None => s
    case Some(e) => SetExecution(s, e, s.execs[e].(settled := true))
  }

  function SetStatusOutcome(s: State, id: Id, status: Status): State {
    match Current(s, id)
    case None => s
    case Some(e) => SetExecution(s, e, s.execs[e].(status := status))
  }

  function AttachOutcome(s: State, id: Id): State {
    match Current(s, id)
    case None => s
    case Some(e) => SetExecution(s, e, s.execs[e].(attached := true))
  }

  function AttachResponseOutcome(s: State, id: Id, response: nat): State {
    match Current(s, id)
    case None => s
    case Some(e) => SetExecution(s, e, s.execs[e].(response := Some(response)))
  }

  /** What runs once the promise has settled. It forgets the id, whichever entry is current for it by then. */
  function CleanupOutcome(s: State, e: nat): State {
    if e < |s.execs| && s.execs[e].settled && !s.execs[e].cleaned && s.execs[e].call < |s.calls| then
      var x := s.execs[e];
      var freed := ReleaseOutcome(s, x.call);
      if x.status == Waiting
      then SetExecution(freed, e, x.(attached := false, cleaned := true))
      else Forget(SetExecution(freed, e, x.(cleaned := true)), x.id)
    else s
  }

  /** One turn of the shutdown loop. */
  function ShutdownOne(s: State, id: Id, cancel: bool): State {
    match Current(s, id)
    case None => s
    case Some(e) =>
      if cancel then StopOutcome(s, id)
      else if s.execs[e].status == Waiting || s.execs[e].status == New then s.(table := s.table - {id})
      else s
  }

  function ShutdownOutcome(s: State, ids: seq<Id>, cancel: bool): State
    decreases |ids|
  {
    if ids == [] then s else ShutdownOutcome(ShutdownOne(s, ids[0], cancel), ids[1..], cancel)
  }

  datatype Op =
    | Add(id: Option<Id>)
    | Created(call: nat, newId: Option<Id>)
    | Reserved(call: nat, granted: bool, now: int)
    | Update(call: nat, outcome: UpdateOutcome, now: int)
    | Stop(id_: Id)
    | Finalize(id_: Id)
    | SetStatus(id_: Id, status: Status)
    | Attach(id_: Id)
    | AttachResponse(id_: Id, response: nat)
    | SetResponseMode(id_: Id, mode: nat)
    | Cleanup(exec: nat)
    | ShutdownTurn(id_: Id, cancel: bool)

  function Step(s: State, regular: bool, op: Op): State {
    match op
    case Add(id) => AddOutcome(s, id)
    case Created(c, id) => CreatedOutcome(s, c, id)
    case Reserved(c, granted, now) => ReservedOutcome(s, regular, c, granted, now)
    case Update(c, outcome, now) => UpdatedOutcome(s, c, outcome, now)
    case Stop(id) => StopOutcome(s, id)
    case Finalize(id) => FinalizeOutcome(s, id)
    case SetStatus(id, status) => SetStatusOutcome(s, id, status)
    case Attach(id) => AttachOutcome(s, id)
    case AttachResponse(id, response) => AttachResponseOutcome(s, id, response)
    case SetResponseMode(id, mode) => s.(responseModes := s.responseModes[id := mode])
    case Cleanup(e) => CleanupOutcome(s, e)
    case ShutdownTurn(id, cancel) => ShutdownOne(s, id, cancel)
  }

  function Run(s: State, regular: bool, ops: seq<Op>): State
    decreases |ops|
  {
    if ops == [] then s else Run(Step(s, regular, ops[0]), regular, ops[1..])
  }

  /** A shutdown is a run of its turns, with nothing in between. */
  lemma {:induction false} ShutdownIsARun(s: State, regular: bool, ids: seq<Id>, cancel: bool)
    ensures ShutdownOutcome(s, ids, cancel)
         == Run(s, regular, seq(|ids|, i requires 0 <= i < |ids| => ShutdownTurn(ids[i], cancel)))
    decreases |ids|
  {
    if ids != [] {
      var turns := seq(|ids|, i requires 0 <= i < |ids| => ShutdownTurn(ids[i], cancel));
      var rest := seq(|ids[1..]|, i requires 0 <= i < |ids[1..]| => ShutdownTurn(ids[1..][i], cancel));
      assert turns[1..] == rest;
      ShutdownIsARun(ShutdownOne(s, ids[0], cancel), regular, ids[1..], cancel);
    }
  }

  // ---------- the service ----------

  class ActiveExecutions {
    var calls: seq<Call>
    var execs: seq<Execution>
    var activeExecutions: map<Id, nat>
    var responseModes: map<Id, nat>
    var acquired: nat
    var released: nat
    const regular: bool

    constructor (regular: bool)
      ensures Snapshot() == EMPTY && this.regular == regular
    {
      calls, execs, activeExecutions, responseModes, acquired, released := [], [], map[], map[], 0, 0;
      this.regular := regular;
    }

    function Snapshot(): State
      reads this
    {
      State(calls, execs, activeExecutions, responseModes, acquired, released)
    }

    predicate Has(id: Id)
      reads this
    {
      Current(Snapshot(), id).Some?
    }

    /** `add` up to its first `await`; c names the call in what follows. */
    method AddBegins(id: Option<Id>) returns (c: nat)
      modifies this
      ensures c == |old(calls)| && Snapshot() == AddOutcome(old(Snapshot()), id)
    {
      c := |calls|;
      match id
      case Some(i) => calls := calls + [Call(true, Reserving(i), Idle)];
      case None => calls := calls + [Call(false, Creating, Idle)];
    }

    method AddCreated(c: nat, id: Option<Id>)
      modifies this
      ensures Snapshot() == CreatedOutcome(old(Snapshot()), c, id)
    {
      if c >= |calls| || !calls[c].phase.Creating? { return; }
      match id
      case Some(i) => calls := calls[c := calls[c].(phase := Reserving(i))];
      case None => Fail(c, false);
    }

    method AddReserved(c: nat, granted: bool, now: int)
      modifies this
      ensures Snapshot() == ReservedOutcome(old(Snapshot()), regular, c, granted, now)
    {
      if c >= |calls| || !calls[c].phase.Reserving? { return; }
      var id := calls[c].phase.id;
      if !granted {
        Fail(c, false);
        return;
      }
      acquired := acquired + 1;
      calls := calls[c := calls[c].(phase := Updating(id), reservation := Held)];
      if !calls[c].resuming && !regular { Install(c, id, now); }
    }

    method AddUpdated(c: nat, outcome: UpdateOutcome, now: int)
      modifies this
      ensures Snapshot() == UpdatedOutcome(old(Snapshot()), c, outcome, now)
    {
      if c >= |calls| || !calls[c].phase.Updating? { return; }
      if outcome == Threw {
        Fail(c, false);
      } else if calls[c].resuming && outcome == NoRow {
        Fail(c, true);
      } else {
        Install(c, calls[c].phase.id, now);
      }
    }

    method Release(c: nat)
      requires c < |calls|
      modifies this
      ensures Snapshot() == ReleaseOutcome(old(Snapshot()), c)
    {
      if calls[c].reservation != Held { return; }
      released := released + 1;
      calls := calls[c := calls[c].(reservation := Released)];
    }

    method Fail(c: nat, alreadyResuming: bool)
      requires c < |calls|
      modifies this
      ensures Snapshot() == FailOutcome(old(Snapshot()), c, alreadyResuming)
    {
      Release(c);
      calls := calls[c := calls[c].(phase := Failed(alreadyResuming))];
    }

    method Install(c: nat, id: Id, now: int)
      requires c < |calls|
      modifies this
      ensures Snapshot() == InstallOutcome(old(Snapshot()), c, id, now)
    {
      var execution := NewExecution(Snapshot(), c, id, now);
      calls := calls[c := calls[c].(phase := Installed(|execs|))];
      activeExecutions := activeExecutions[id := |execs|];
      execs := execs + [execution];
    }

    method StopExecution(id: Id)
      modifies this
      ensures Snapshot() == StopOutcome(old(Snapshot()), id)
    {
      if !Has(id) { return; }
      var e := activeExecutions[id];
      if execs[e].status == Waiting {
        activeExecutions := activeExecutions - {id};
        responseModes := responseModes - {id};
      } else {
        execs := execs[e := execs[e].(settled := true)];
      }
    }

    method FinalizeExecution(id: Id)
      modifies this
      ensures Snapshot() == FinalizeOutcome(old(Snapshot()), id)
    {
      if !Has(id) { return; }
      var e := activeExecutions[id];
      execs := execs[e := execs[e].(settled := true)];
    }

    /** `None` stands for the not-found error. */
    method SetStatus(id: Id, status: Status) returns (done: Option<()>)
      modifies this
      ensures Snapshot() == SetStatusOutcome(old(Snapshot()), id, status) && done.Some? == old(Has(id))
    {
      if !Has(id) { return None; }
      var e := activeExecutions[id];
      execs := execs[e := execs[e].(status := status)];
      done := Some(());
    }

    method AttachWorkflowExecution(id: Id) returns (done: Option<()>)
      modifies this
      ensures Snapshot() == AttachOutcome(old(Snapshot()), id) && done.Some? == old(Has(id))
    {
      if !Has(id) { return None; }
      var e := activeExecutions[id];
      execs := execs[e := execs[e].(attached := true)];
      done := Some(());
    }

    method AttachResponsePromise(id: Id, response: nat) returns (done: Option<()>)
      modifies this
      ensures Snapshot() == AttachResponseOutcome(old(Snapshot()), id, response) && done.Some? == old(Has(id))
    {
      if !Has(id) { return None; }
      var e := activeExecutions[id];
      execs := execs[e := execs[e].(response := Some(response))];
      done := Some(());
    }

    /** The closure behind the promise of entry e. */
    method CleanUp(e: nat)
      modifies this
      ensures Snapshot() == CleanupOutcome(old(Snapshot()), e)
    {
      if e >= |execs| || !execs[e].settled || execs[e].cleaned || execs[e].call >= |calls| { return; }
      var x := execs[e];
      Release(x.call);
      if x.status == Waiting {
        execs := execs[e := x.(attached := false, cleaned := true)];
      } else {
        execs := execs[e := x.(cleaned := true)];
        activeExecutions := activeExecutions - {x.id};
        responseModes := responseModes - {x.id};
      }
    }

    /** `shutdown` up to its first `await`, over the ids it listed. */
    method Shutdown(ids: seq<Id>, cancelAll: bool)
      modifies this
      ensures Snapshot() == ShutdownOutcome(old(Snapshot()), ids, regular && cancelAll)
    {
      for i := 0 to |ids|
        invariant ShutdownOutcome(old(Snapshot()), ids, regular && cancelAll)
               == ShutdownOutcome(Snapshot(), ids[i..], regular && cancelAll)
      {
        assert ids[i..][0] == ids[i] && ids[i..][1..] == ids[i + 1..];
        if Has(ids[i]) {
          var e := activeExecutions[ids[i]];
          if regular && cancelAll {
            StopExecution(ids[i]);
          } else if execs[e].status == Waiting || execs[e].status == New {
            activeExecutions := activeExecutions - {ids[i]};
          }
        }
      }
    }
  }

  // ---------- the invariant ----------

  /** The reservation of a call is held exactly between its grant and the catch path or the cleanup. */
  predicate CallOk(s: State, c: nat)
    requires c < |s.calls|
  {
    match s.calls[c].phase
    case Creating => s.calls[c].reservation == Idle
    case Reserving(_) => s.calls[c].reservation == Idle
    case Updating(_) => s.calls[c].reservation == Held
    case Failed(_) => s.calls[c].reservation != Held
    case Installed(e) =>
      && e < |s.execs| && s.execs[e].call == c
      && s.calls[c].reservation == (if s.execs[e].cleaned then Released else Held)
  }

  predicate ExecOk(s: State, e: nat)
    requires e < |s.execs|
  {
    && s.execs[e].call < |s.calls| && s.calls[s.execs[e].call].phase == Installed(e)
    && (s.execs[e].cleaned ==> s.execs[e].settled)
  }

  ghost predicate Valid(s: State) {
    && (forall c :: 0 <= c < |s.calls| ==> CallOk(s, c))
    && (forall e :: 0 <= e < |s.execs| ==> ExecOk(s, e))
    && (forall id :: id in s.table ==> s.table[id] < |s.execs| && s.execs[s.table[id]].id == id)
  }

  function Count<T>(xs: seq<T>, p: T -> bool): nat {
    if xs == [] then 0 else Count(xs[..|xs| - 1], p) + (if p(xs[|xs| - 1]) then 1 else 0)
  }

  lemma {:induction false} CountSet<T>(xs: seq<T>, i: nat, x: T, p: T -> bool)
    requires i < |xs|
    ensures Count(xs[i := x], p) + (if p(xs[i]) then 1 else 0) == Count(xs, p) + (if p(x) then 1 else 0)
  {
    var n := |xs| - 1;
    if i == n {
      assert xs[i := x][..n] == xs[..n];
    } else {
      assert xs[i := x][..n] == xs[..n][i := x];
      CountSet(xs[..n], i, x, p);
    }
  }

  function IsUpdating(): Call -> bool { (c: Call) => c.phase.Updating? }

  function IsReleased(): Call -> bool { (c: Call) => c.reservation == Released }

  function IsAcquired(): Call -> bool { (c: Call) => c.reservation != Idle }

  function IsUncleaned(): Execution -> bool { (x: Execution) => !x.cleaned }

  /**
   What was acquired has been released, or is held by a call past `reserve`, or by an entry whose cleanup has not run;
   and no call was ever released twice.
   */
  ghost predicate Ledger(s: State) {
    && s.acquired == s.released + Count(s.calls, IsUpdating()) + Count(s.execs, IsUncleaned())
    && s.acquired == Count(s.calls, IsAcquired())
    && s.released == Count(s.calls, IsReleased())
  }

  ghost predicate Sound(s: State) { Valid(s) && Ledger(s) }

  /** How replacing a call moves the three counts. */
  lemma CallCounts(s: State, c: nat, x: Call)
    requires c < |s.calls|
    ensures var after := s.calls[c := x];
      && Count(after, IsUpdating()) + (if IsUpdating()(s.calls[c]) then 1 else 0)
         == Count(s.calls, IsUpdating()) + (if IsUpdating()(x) then 1 else 0)
      && Count(after, IsReleased()) + (if IsReleased()(s.calls[c]) then 1 else 0)
         == Count(s.calls, IsReleased()) + (if IsReleased()(x) then 1 else 0)
      && Count(after, IsAcquired()) + (if IsAcquired()(s.calls[c]) then 1 else 0)
         == Count(s.calls, IsAcquired()) + (if IsAcquired()(x) then 1 else 0)
  {
    CountSet(s.calls, c, x, IsUpdating());
    CountSet(s.calls, c, x, IsReleased());
    CountSet(s.calls, c, x, IsAcquired());
  }

  lemma AddKeeps(s: State, id: Option<Id>)
    requires Sound(s)
    ensures Sound(AddOutcome(s, id))
  {
    var after := AddOutcome(s, id);
    var x := after.calls[|s.calls|];
    forall c | 0 <= c < |after.calls| ensures CallOk(after, c) {
      if c < |s.calls| { assert CallOk(s, c); }
    }
    forall e | 0 <= e < |after.execs| ensures ExecOk(after, e) { assert ExecOk(s, e); }
  }

  /** A call that has no entry yet moves on without one. */
  lemma CallMoves(s: State, c: nat, x: Call, acquired: nat, released: nat)
    requires Sound(s) && c < |s.calls| && !s.calls[c].phase.Installed? && !x.phase.Installed?
    requires x.reservation == s.calls[c].reservation || (s.calls[c].reservation == Idle && x.reservation == Held)
          || (s.calls[c].reservation == Held && x.reservation == Released)
    requires x.phase.Updating? <==> x.reservation == Held
    requires x.phase.Creating? || x.phase.Reserving? ==> x.reservation == Idle
    requires acquired == s.acquired + (if s.calls[c].reservation == Idle && x.reservation == Held then 1 else 0)
    requires released == s.released + (if s.calls[c].reservation == Held && x.reservation == Released then 1 else 0)
    ensures Sound(s.(calls := s.calls[c := x], acquired := acquired, released := released))
  {
    var after := s.(calls := s.calls[c := x], acquired := acquired, released := released);
    assert CallOk(s, c);
    CallCounts(s, c, x);
    forall d | 0 <= d < |after.calls| ensures CallOk(after, d) { assert CallOk(s, d); }
    forall e | 0 <= e < |after.execs| ensures ExecOk(after, e) { assert ExecOk(s, e); }
  }

  lemma FailKeeps(s: State, c: nat, alreadyResuming: bool)
    requires Sound(s) && c < |s.calls| && !s.calls[c].phase.Installed?
    ensures Sound(FailOutcome(s, c, alreadyResuming))
  {
    assert CallOk(s, c);
    var held := s.calls[c].reservation == Held;
    var x := Call(s.calls[c].resuming, Failed(alreadyResuming), if held then Released else s.calls[c].reservation);
    CallMoves(s, c, x, s.acquired, if held then s.released + 1 else s.released);
    assert FailOutcome(s, c, alreadyResuming)
        == s.(calls := s.calls[c := x], released := if held then s.released + 1 else s.released);
  }

  lemma InstallCounts(s: State, c: nat, id: Id, now: int)
    requires Ledger(s) && c < |s.calls| && s.calls[c].phase.Updating? && s.calls[c].reservation == Held
    ensures Ledger(InstallOutcome(s, c, id, now))
  {
    CallCounts(s, c, s.calls[c].(phase := Installed(|s.execs|)));
  }

  lemma InstallKeeps(s: State, c: nat, now: int)
    requires Sound(s) && c < |s.calls| && s.calls[c].phase.Updating?
    ensures Sound(InstallOutcome(s, c, s.calls[c].phase.id, now))
  {
    assert CallOk(s, c);
    InstallCounts(s, c, s.calls[c].phase.id, now);
    var after := InstallOutcome(s, c, s.calls[c].phase.id, now);
    forall d | 0 <= d < |after.calls| ensures CallOk(after, d) { assert CallOk(s, d); }
    forall e | 0 <= e < |after.execs| ensures ExecOk(after, e) {
      if e < |s.execs| { assert ExecOk(s, e); }
    }
  }

  lemma ReservedKeeps(s: State, regular: bool, c: nat, granted: bool, now: int)
    requires Sound(s)
    ensures Sound(ReservedOutcome(s, regular, c, granted, now))
  {
    if c < |s.calls| && s.calls[c].phase.Reserving? {
      assert CallOk(s, c);
      if !granted {
        FailKeeps(s, c, false);
      } else {
        var x := s.calls[c].(phase := Updating(s.calls[c].phase.id), reservation := Held);
        CallMoves(s, c, x, s.acquired + 1, s.released);
        if !s.calls[c].resuming && !regular {
          InstallKeeps(s.(calls := s.calls[c := x], acquired := s.acquired + 1), c, now);
        }
      }
    }
  }

  /** Entries keep their id, their call and whether they are cleaned; the table only loses ids. */
  lemma EntryChangeKeeps(s: State, e: nat, x: Execution)
    requires Sound(s) && e < |s.execs|
    requires x.id == s.execs[e].id && x.call == s.execs[e].call && x.cleaned == s.execs[e].cleaned
    requires s.execs[e].settled ==> x.settled
    ensures Sound(SetExecution(s, e, x))
  {
    var after := SetExecution(s, e, x);
    CountSet(s.execs, e, x, IsUncleaned());
    forall d | 0 <= d < |after.calls| ensures CallOk(after, d) { assert CallOk(s, d); }
    forall f | 0 <= f < |after.execs| ensures ExecOk(after, f) { assert ExecOk(s, f); }
  }

  lemma TableChangeKeeps(s: State, table: map<Id, nat>, modes: map<Id, nat>)
    requires Sound(s) && forall id :: id in table ==> id in s.table && table[id] == s.table[id]
    ensures Sound(s.(table := table, responseModes := modes))
  {
    var after := s.(table := table, responseModes := modes);
    forall d | 0 <= d < |after.calls| ensures CallOk(after, d) { assert CallOk(s, d); }
    forall f | 0 <= f < |after.execs| ensures ExecOk(after, f) { assert ExecOk(s, f); }
  }

  function Cleaned(s: State, e: nat): State
    requires e < |s.execs| && s.execs[e].call < |s.calls|
  {
    SetExecution(ReleaseOutcome(s, s.execs[e].call), e, s.execs[e].(cleaned := true))
  }

  lemma CleanedCounts(s: State, e: nat)
    requires Ledger(s) && e < |s.execs| && !s.execs[e].cleaned && s.execs[e].call < |s.calls|
    requires s.calls[s.execs[e].call].reservation == Held && !s.calls[s.execs[e].call].phase.Updating?
    ensures Ledger(Cleaned(s, e))
  {
    CallCounts(s, s.execs[e].call, s.calls[s.execs[e].call].(reservation := Released));
    CountSet(s.execs, e, s.execs[e].(cleaned := true), IsUncleaned());
  }

  /** The cleanup releases the reservation behind the entry, and does so once. */
  lemma CleanupReleases(s: State, e: nat)
    requires Sound(s) && e < |s.execs| && s.execs[e].settled && !s.execs[e].cleaned && s.execs[e].call < |s.calls|
    ensures Sound(Cleaned(s, e)) && Cleaned(s, e).released == s.released + 1
    ensures Cleaned(s, e).calls[s.execs[e].call].reservation == Released
  {
    var c := s.execs[e].call;
    assert ExecOk(s, e) && CallOk(s, c);
    CleanedCounts(s, e);
    var after := Cleaned(s, e);
    forall d | 0 <= d < |after.calls| ensures CallOk(after, d) { assert CallOk(s, d); }
    forall f | 0 <= f < |after.execs| ensures ExecOk(after, f) { assert ExecOk(s, f); }
  }

  lemma CleanupKeeps(s: State, e: nat)
    requires Sound(s)
    ensures Sound(CleanupOutcome(s, e))
  {
    if e < |s.execs| && s.execs[e].settled && !s.execs[e].cleaned {
      assert ExecOk(s, e);
      CleanupReleases(s, e);
      var x := s.execs[e];
      var after := Cleaned(s, e);
      if x.status == Waiting {
        EntryChangeKeeps(after, e, x.(attached := false, cleaned := true));
        assert after.execs[e := x.(attached := false, cleaned := true)]
            == s.execs[e := x.(attached := false, cleaned := true)];
      } else {
        TableChangeKeeps(after, after.table - {x.id}, after.responseModes - {x.id});
      }
    }
  }

  lemma StopKeeps(s: State, id: Id)
    requires Sound(s)
    ensures Sound(StopOutcome(s, id))
  {
    if Current(s, id).Some? {
      var e := s.table[id];
      if s.execs[e].status == Waiting {
        TableChangeKeeps(s, s.table - {id}, s.responseModes - {id});
      } else {
        EntryChangeKeeps(s, e, s.execs[e].(settled := true));
      }
    }
  }

  lemma EntryStepKeeps(s: State, regular: bool, op: Op, id: Id)
    requires Sound(s) && (op.Finalize? || op.SetStatus? || op.Attach? || op.AttachResponse?) && op.id_ == id
    ensures Sound(Step(s, regular, op))
  {
    if Current(s, id).Some? {
      var x := s.execs[s.table[id]];
      EntryChangeKeeps(s, s.table[id],
                       match op
                       case Finalize(_) => x.(settled := true)
                       case SetStatus(_, status) => x.(status := status)
                       case AttachResponse(_, response) => x.(response := Some(response))
                       case _ => x.(attached := true));
    }
  }

  lemma StepKeeps(s: State, regular: bool, op: Op)
    requires Sound(s)
    ensures Sound(Step(s, regular, op))
  {
    match op
    case Add(id) => AddKeeps(s, id);
    case Created(c, id) => CreatedKeeps(s, c, id);
    case Reserved(c, granted, now) => ReservedKeeps(s, regular, c, granted, now);
    case Update(c, outcome, now) => UpdatedKeeps(s, c, outcome, now);
    case Stop(id) => StopKeeps(s, id);
    case Finalize(id) => EntryStepKeeps(s, regular, op, id);
    case SetStatus(id, status) => EntryStepKeeps(s, regular, op, id);
    case Attach(id) => EntryStepKeeps(s, regular, op, id);
    case AttachResponse(id, response) => EntryStepKeeps(s, regular, op, id);
    case SetResponseMode(id, mode) => TableChangeKeeps(s, s.table, s.responseModes[id := mode]);
    case Cleanup(e) => CleanupKeeps(s, e);
    case ShutdownTurn(id, cancel) =>
      StopKeeps(s, id);
      TableChangeKeeps(s, s.table - {id}, s.responseModes);
  }

  lemma CreatedKeeps(s: State, c: nat, id: Option<Id>)
    requires Sound(s)
    ensures Sound(CreatedOutcome(s, c, id))
  {
    if c < |s.calls| && s.calls[c].phase.Creating? {
      assert CallOk(s, c);
      match id
      case Some(i) => CallMoves(s, c, s.calls[c].(phase := Reserving(i)), s.acquired, s.released);
      case None => FailKeeps(s, c, false);
    }
  }

  lemma UpdatedKeeps(s: State, c: nat, outcome: UpdateOutcome, now: int)
    requires Sound(s)
    ensures Sound(UpdatedOutcome(s, c, outcome, now))
  {
    if c < |s.calls| && s.calls[c].phase.Updating? {
      FailKeeps(s, c, false);
      FailKeeps(s, c, true);
      InstallKeeps(s, c, now);
    }
  }

  lemma {:induction false} RunKeeps(s: State, regular: bool, ops: seq<Op>)
    requires Sound(s)
    ensures Sound(Run(s, regular, ops))
    decreases |ops|
  {
    if ops != [] {
      StepKeeps(s, regular, ops[0]);
      RunKeeps(Step(s, regular, ops[0]), regular, ops[1..]);
    }
  }

  /** In every state any interleaving can reach, the capacity ledger balances. */
  lemma LedgerBalances(regular: bool, ops: seq<Op>)
    ensures Ledger(Run(EMPTY, regular, ops))
  {
    RunKeeps(EMPTY, regular, ops);
  }

  /** The loser of a resume raises the already-resuming error, gives its capacity back and leaves every entry alone. */
  lemma LoserLeavesNoTrace(s: State, c: nat, now: int)
    requires Sound(s) && c < |s.calls| && s.calls[c].phase.Updating? && s.calls[c].resuming
    ensures var after := UpdatedOutcome(s, c, NoRow, now);
      && after.calls[c].phase == Failed(true) && after.calls[c].reservation == Released
      && after.released == s.released + 1
      && after.execs == s.execs && after.table == s.table && after.responseModes == s.responseModes
      && forall d :: 0 <= d < |s.calls| && d != c ==> after.calls[d] == s.calls[d]
  {
    assert CallOk(s, c);
  }

  // ---------- which reservations come back ----------

  /** Nothing can settle the promise of this entry any more: the id leads elsewhere, or nowhere. */
  predicate Orphaned(s: State, e: nat) {
    e < |s.execs| && !s.execs[e].settled && Current(s, s.execs[e].id) != Some(e)
  }

  function ReservationOf(s: State, e: nat): Reservation
    requires e < |s.execs| && s.execs[e].call < |s.calls|
  {
    s.calls[s.execs[e].call].reservation
  }

  /** The step makes an orphan of this entry. */
  predicate Orphans(s: State, regular: bool, op: Op, e: nat)
    requires e < |s.execs|
  {
    && !s.execs[e].settled && Current(s, s.execs[e].id) == Some(e)
    && match op
       case Stop(id) => id == s.execs[e].id && s.execs[e].status == Waiting
       case ShutdownTurn(id, cancel) =>
         id == s.execs[e].id && (s.execs[e].status == Waiting || (!cancel && s.execs[e].status == New))
       case Cleanup(f) =>
         && f < |s.execs| && s.execs[f].settled && !s.execs[f].cleaned && s.execs[f].call < |s.calls|
         && s.execs[f].id == s.execs[e].id && s.execs[f].status != Waiting
       case Reserved(c, granted, _) =>
         && c < |s.calls| && s.calls[c].phase == Reserving(s.execs[e].id)
         && granted && !s.calls[c].resuming && !regular
       case Update(c, outcome, _) =>
         && c < |s.calls| && s.calls[c].phase == Updating(s.execs[e].id)
         && (outcome == Updated || (outcome == NoRow && !s.calls[c].resuming))
       case _ => false
  }

  lemma OrphanedByInstall(s: State, c: nat, id: Id, now: int, e: nat)
    requires c < |s.calls| && e < |s.execs|
    ensures Orphaned(InstallOutcome(s, c, id, now), e) <==>
      Orphaned(s, e) || (!s.execs[e].settled && Current(s, s.execs[e].id) == Some(e) && id == s.execs[e].id)
  {
    var after := InstallOutcome(s, c, id, now);
    assert after.execs[e] == s.execs[e];
  }

  lemma OrphanedByReserved(s: State, regular: bool, c: nat, granted: bool, now: int, e: nat)
    requires e < |s.execs|
    ensures Orphaned(ReservedOutcome(s, regular, c, granted, now), e)
       <==> Orphaned(s, e) || Orphans(s, regular, Reserved(c, granted, now), e)
  {
    if c < |s.calls| && s.calls[c].phase.Reserving? && granted && !s.calls[c].resuming && !regular {
      var id := s.calls[c].phase.id;
      var held := s.(calls := s.calls[c := s.calls[c].(phase := Updating(id), reservation := Held)],
                     acquired := s.acquired + 1);
      OrphanedByInstall(held, c, id, now, e);
    }
  }

  lemma OrphanedByUpdated(s: State, regular: bool, c: nat, outcome: UpdateOutcome, now: int, e: nat)
    requires e < |s.execs|
    ensures Orphaned(UpdatedOutcome(s, c, outcome, now), e)
       <==> Orphaned(s, e) || Orphans(s, regular, Update(c, outcome, now), e)
  {
    if c < |s.calls| && s.calls[c].phase.Updating? { OrphanedByInstall(s, c, s.calls[c].phase.id, now, e); }
  }

  lemma OrphanedByCleanup(s: State, f: nat, e: nat)
    requires Valid(s) && e < |s.execs|
    ensures Orphaned(CleanupOutcome(s, f), e) <==> Orphaned(s, e) || Orphans(s, true, Cleanup(f), e)
  {
    if f < |s.execs| && s.execs[f].settled && !s.execs[f].cleaned {
      assert ExecOk(s, f);
      var after := CleanupOutcome(s, f);
      assert after.execs[e].settled == s.execs[e].settled && after.execs[e].id == s.execs[e].id;
      assert after.table == if s.execs[f].status == Waiting then s.table else s.table - {s.execs[f].id};
    }
  }

  lemma OrphanedByStop(s: State, regular: bool, id: Id, cancel: bool, e: nat)
    requires Valid(s) && e < |s.execs|
    ensures Orphaned(StopOutcome(s, id), e) <==> Orphaned(s, e) || Orphans(s, regular, Stop(id), e)
    ensures Orphaned(ShutdownOne(s, id, cancel), e)
            <==> Orphaned(s, e) || Orphans(s, regular, ShutdownTurn(id, cancel), e)
  {
  }

  /** Exactly those steps lose a promise that is still pending, and what is lost stays lost. */
  lemma OrphanedExactly(s: State, regular: bool, op: Op, e: nat)
    requires Valid(s) && e < |s.execs|
    ensures Orphaned(Step(s, regular, op), e) <==> Orphaned(s, e) || Orphans(s, regular, op, e)
  {
    match op
    case Reserved(c, granted, now) => OrphanedByReserved(s, regular, c, granted, now, e);
    case Update(c, outcome, now) => OrphanedByUpdated(s, regular, c, outcome, now, e);
    case Cleanup(f) => OrphanedByCleanup(s, f, e);
    case Stop(id) => OrphanedByStop(s, regular, id, false, e);
    case ShutdownTurn(id, cancel) => OrphanedByStop(s, regular, id, cancel, e);
    case Add(_) =>
    case Created(_, _) =>
    case SetResponseMode(_, _) =>
    case _ => OrphanedByEntry(s, regular, op, e);
  }

  lemma OrphanedByEntry(s: State, regular: bool, op: Op, e: nat)
    requires Valid(s) && e < |s.execs| && (op.Finalize? || op.SetStatus? || op.Attach? || op.AttachResponse?)
    ensures Orphaned(Step(s, regular, op), e) <==> Orphaned(s, e) || Orphans(s, regular, op, e)
  {
  }

  lemma {:induction false} OrphanStaysHeld(s: State, regular: bool, ops: seq<Op>, e: nat)
    requires Sound(s) && Orphaned(s, e)
    ensures var after := Run(s, regular, ops);
      Sound(after) && Orphaned(after, e) && after.execs[e].call < |after.calls| && ReservationOf(after, e) == Held
    decreases |ops|
  {
    if ops == [] {
      assert ExecOk(s, e) && CallOk(s, s.execs[e].call);
    } else {
      StepKeeps(s, regular, ops[0]);
      OrphanedExactly(s, regular, ops[0], e);
      OrphanStaysHeld(Step(s, regular, ops[0]), regular, ops[1..], e);
    }
  }

  ghost predicate ReleasedAfter(s: State, regular: bool, ops: seq<Op>, e: nat) {
    var after := Run(s, regular, ops);
    e < |after.execs| && after.execs[e].call < |after.calls| && ReservationOf(after, e) == Released
  }

  lemma SettledIsReleasable(s: State, regular: bool, e: nat)
    requires Sound(s) && e < |s.execs| && s.execs[e].settled && !s.execs[e].cleaned
    ensures ReleasedAfter(s, regular, [Cleanup(e)], e)
  {
    assert ExecOk(s, e);
    CleanupReleases(s, e);
  }

  lemma ReleasedBySettling(s: State, regular: bool, e: nat)
    requires Sound(s) && e < |s.execs| && !Orphaned(s, e)
    ensures exists ops :: ReleasedAfter(s, regular, ops, e)
  {
    assert ExecOk(s, e) && CallOk(s, s.execs[e].call);
    if s.execs[e].cleaned {
      assert ReleasedAfter(s, regular, [], e);
    } else if s.execs[e].settled {
      SettledIsReleasable(s, regular, e);
    } else {
      var finalize := Finalize(s.execs[e].id);
      StepKeeps(s, regular, finalize);
      SettledIsReleasable(Step(s, regular, finalize), regular, e);
      assert [finalize, Cleanup(e)][1..] == [Cleanup(e)];
      assert ReleasedAfter(s, regular, [finalize, Cleanup(e)], e);
    }
  }

  /** Some continuation gives the capacity of an entry back if and only if the entry is not an orphan. */
  lemma ReleasableUnlessOrphaned(s: State, regular: bool, e: nat)
    requires Sound(s) && e < |s.execs|
    ensures (exists ops :: ReleasedAfter(s, regular, ops, e)) <==> !Orphaned(s, e)
  {
    if !Orphaned(s, e) {
      ReleasedBySettling(s, regular, e);
    } else {
      forall ops ensures !ReleasedAfter(s, regular, ops, e) {
        OrphanStaysHeld(s, regular, ops, e);
      }
    }
  }

  ghost predicate Releasable(s: State, regular: bool, e: nat) {
    exists ops :: ReleasedAfter(s, regular, ops, e)
  }

  lemma ReleasableExactly(s: State, regular: bool)
    requires Sound(s)
    ensures forall e: nat :: e < |s.execs| ==> (Releasable(s, regular, e) <==> !Orphaned(s, e))
  {
    forall e: nat | e < |s.execs| ensures Releasable(s, regular, e) <==> !Orphaned(s, e) {
      ReleasableUnlessOrphaned(s, regular, e);
    }
  }

  lemma ReachableIsSound(start: State, regular: bool, ops: seq<Op>)
    requires start == EMPTY
    ensures Sound(Run(start, regular, ops))
  {
    RunKeeps(start, regular, ops);
  }

  /** So it is in every state any interleaving can reach. */
  lemma ReachableReleasable(start: State, regular: bool, before: seq<Op>)
    requires start == EMPTY
    ensures var s := Run(start, regular, before);
      forall e: nat :: e < |s.execs| ==> (Releasable(s, regular, e) <==> !Orphaned(s, e))
  {
    ReachableIsSound(start, regular, before);
    ReleasableExactly(Run(start, regular, before), regular);
  }

  // ---------- a run in which capacity is lost ----------

  /** Execution 1 resumes, begins to wait, and is stopped before its promise has settled. */
  const STOPPED_WHILE_WAITING: seq<Op> :=
    [Add(Some(1)), Reserved(0, true, 5), Update(0, Updated, 5), SetStatus(1, Waiting), Stop(1)]

  lemma RunOfFive(s: State, regular: bool, ops: seq<Op>)
    requires |ops| == 5
    ensures Run(s, regular, ops) == Step(Step(Step(Step(Step(s, regular, ops[0]), regular, ops[1]), regular, ops[2]),
                                              regular, ops[3]), regular, ops[4])
  {
    var s1 := Step(s, regular, ops[0]);
    var s2 := Step(s1, regular, ops[1]);
    var s3 := Step(s2, regular, ops[2]);
    var s4 := Step(s3, regular, ops[3]);
    assert Run(s, regular, ops) == Run(s1, regular, ops[1..]);
    assert ops[1..][1..] == ops[2..] && ops[2..][1..] == ops[3..] && ops[3..][1..] == ops[4..] && ops[4..][1..] == [];
    assert Run(s2, regular, ops[2..]) == Run(s3, regular, ops[3..]);
    assert Run(s4, regular, ops[4..]) == Step(s4, regular, ops[4]);
  }

  lemma StoppedWhileWaiting(regular: bool)
    ensures Run(EMPTY, regular, STOPPED_WHILE_WAITING)
         == State([Call(true, Installed(0), Held)], [Execution(1, 0, Waiting, 5, None, false, false, false)],
                  map[], map[], 1, 0)
  {
    var ops := STOPPED_WHILE_WAITING;
    RunOfFive(EMPTY, regular, ops);
    var reserved := Step(Step(EMPTY, regular, ops[0]), regular, ops[1]);
    assert reserved == State([Call(true, Updating(1), Held)], [], map[], map[], 1, 0);
    var installed := Step(reserved, regular, ops[2]);
    assert installed == State([Call(true, Installed(0), Held)],
                              [Execution(1, 0, Running, 5, None, false, false, false)],
                              map[1 := 0], map[], 1, 0);
    var waiting := Step(installed, regular, ops[3]);
    assert waiting.execs == [Execution(1, 0, Waiting, 5, None, false, false, false)] && waiting.table == map[1 := 0];
    assert map[1 := 0] - {1} == map[];
  }

  lemma OrphanOf(s: State, id: Id)
    requires s == State([Call(true, Installed(0), Held)], [Execution(id, 0, Waiting, 5, None, false, false, false)],
                        map[], map[], 1, 0)
    ensures |s.execs| == 1 && Orphaned(s, 0)
  {
  }

  /** Its reservation is then held for good. */
  lemma StopLosesCapacity(start: State, regular: bool, ops: seq<Op>, more: seq<Op>)
    requires start == EMPTY && ops == STOPPED_WHILE_WAITING
    ensures var s := Run(start, regular, ops);
      var after := Run(s, regular, more);
      && |s.execs| == 1 && Orphaned(s, 0)
      && 0 < |after.execs| && after.execs[0].call < |after.calls| && ReservationOf(after, 0) == Held
  {
    var s := Run(start, regular, ops);
    StoppedWhileWaiting(regular);
    OrphanOf(s, 1);
    ReachableIsSound(start, regular, ops);
    OrphanStaysHeld(s, regular, more, 0);
  }
}
