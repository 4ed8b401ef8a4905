/**
 What each operation on an active execution does (active-executions.ts), from its start to the release of its capacity,
 and the life of an execution that waits and is resumed.
 */
module ExecutionLife {
  import opened Wrappers
  import opened ActiveExecutions

  // ---------- operations on the current entry ----------

  /** The entry the table has for an id is the one that is changed, and in the one field that is meant. */
  lemma CurrentEntryChanges(s: State, regular: bool, id: Id, status: Status, response: nat)
    requires Valid(s) && id in s.table
    ensures var e := s.table[id];
      var x := s.execs[e];
      && Step(s, regular, Finalize(id)) == s.(execs := s.execs[e := x.(settled := true)])
      && Step(s, regular, SetStatus(id, status)) == s.(execs := s.execs[e := x.(status := status)])
      && Step(s, regular, Attach(id)) == s.(execs := s.execs[e := x.(attached := true)])
      && Step(s, regular, AttachResponse(id, response)) == s.(execs := s.execs[e := x.(response := Some(response))])
  {
  }

  lemma ResponseModeIsSet(s: State, regular: bool, id: Id, mode: nat)
    ensures Step(s, regular, SetResponseMode(id, mode)) == s.(responseModes := s.responseModes[id := mode])
  {
  }

  lemma UnknownIdChangesNothing(s: State, regular: bool, id: Id, status: Status, response: nat, cancel: bool)
    requires id !in s.table
    ensures Step(s, regular, Finalize(id)) == s && Step(s, regular, SetStatus(id, status)) == s
    ensures Step(s, regular, Attach(id)) == s && Step(s, regular, AttachResponse(id, response)) == s
    ensures Step(s, regular, Stop(id)) == s && Step(s, regular, ShutdownTurn(id, cancel)) == s
  {
  }

  /** A stop rejects the promise of a running execution; a waiting one is forgotten, its promise untouched. */
  lemma StopSettlesOrForgets(s: State, regular: bool, id: Id)
    requires Valid(s) && id in s.table
    ensures var e, t := s.table[id], Step(s, regular, Stop(id));
      if s.execs[e].status != Waiting then t == s.(execs := s.execs[e := s.execs[e].(settled := true)])
      else t == s.(table := s.table - {id}, responseModes := s.responseModes - {id})
  {
  }

  // ---------- settling and cleaning up ----------

  /** Exactly this call's reservation has come back, once. */
  predicate ReleasedOne(s: State, t: State, c: nat) {
    && c < |s.calls| && |t.calls| == |s.calls| && s.calls[c].reservation == Held && t.calls[c].reservation == Released
    && t.released == s.released + 1 && t.acquired == s.acquired
    && forall d :: 0 <= d < |s.calls| && d != c ==> t.calls[d] == s.calls[d]
  }

  /** The id is forgotten unless the execution waits; a waiting one keeps its entry and lets go of its workflow run. */
  predicate LeavesUnlessWaiting(s: State, t: State, id: Id, e: nat) {
    && e < |s.execs| && |t.execs| == |s.execs|
    && (forall f :: 0 <= f < |s.execs| && f != e ==> t.execs[f] == s.execs[f])
    && if s.execs[e].status == Waiting then
         t.table == s.table && t.responseModes == s.responseModes && !t.execs[e].attached
       else t.table == s.table - {id} && t.responseModes == s.responseModes - {id}
  }

  lemma CleanupDoes(s: State, regular: bool, e: nat)
    requires Sound(s) && e < |s.execs| && s.execs[e].settled && !s.execs[e].cleaned
    ensures var t := Step(s, regular, Cleanup(e));
      ReleasedOne(s, t, s.execs[e].call) && LeavesUnlessWaiting(s, t, s.execs[e].id, e) && t.execs[e].cleaned
  {
    assert ExecOk(s, e) && CallOk(s, s.execs[e].call);
  }

  lemma RunOfTwo(s: State, regular: bool, a: Op, b: Op)
    ensures Run(s, regular, [a, b]) == Step(Step(s, regular, a), regular, b)
  {
    assert [a, b][1..] == [b] && [b][1..] == [];
    assert Run(Step(s, regular, a), regular, [b]) == Step(Step(s, regular, a), regular, b);
  }

  /**
   When the current execution of an id ends, its promise settles, and the cleanup behind that gives its capacity back
   and forgets the id, unless the execution is waiting.
   */
  lemma FinalizeReleases(s: State, regular: bool, id: Id)
    requires Sound(s) && id in s.table && !s.execs[s.table[id]].cleaned
    ensures var e := s.table[id];
      var t := Run(s, regular, [Finalize(id), Cleanup(e)]);
      ReleasedOne(s, t, s.execs[e].call) && LeavesUnlessWaiting(s, t, id, e) && t.execs[e].settled && t.execs[e].cleaned
  {
    var e := s.table[id];
    RunOfTwo(s, regular, Finalize(id), Cleanup(e));
    StepKeeps(s, regular, Finalize(id));
    CleanupDoes(Step(s, regular, Finalize(id)), regular, e);
  }

  /** The same when it is stopped while it runs. */
  lemma StopReleases(s: State, regular: bool, id: Id)
    requires Sound(s) && id in s.table && !s.execs[s.table[id]].cleaned && s.execs[s.table[id]].status != Waiting
    ensures var e := s.table[id];
      var t := Run(s, regular, [Stop(id), Cleanup(e)]);
      && ReleasedOne(s, t, s.execs[e].call) && LeavesUnlessWaiting(s, t, id, e) && id !in t.table
      && t.execs[e].settled && t.execs[e].cleaned
  {
    var e := s.table[id];
    RunOfTwo(s, regular, Stop(id), Cleanup(e));
    StepKeeps(s, regular, Stop(id));
    CleanupDoes(Step(s, regular, Stop(id)), regular, e);
  }

  // ---------- add ----------

  /** An entry of its own that starts now, or takes start time and response promise over from the one it replaces. */
  predicate Begins(s: State, t: State, id: Id, now: int, resuming: bool) {
    && |t.calls| == |s.calls| + 1 && |t.execs| == |s.execs| + 1
    && t.calls[..|s.calls|] == s.calls && t.calls[|s.calls|] == Call(resuming, Installed(|s.execs|), Held)
    && t.execs[..|s.execs|] == s.execs
    && t.table == s.table[id := |s.execs|] && t.responseModes == s.responseModes
    && t.acquired == s.acquired + 1 && t.released == s.released
    && var x := t.execs[|s.execs|];
       && x.id == id && x.call == |s.calls| && x.status == Running && !x.attached && !x.settled && !x.cleaned
       && if id in s.table && s.table[id] < |s.execs|
          then x.startedAt == s.execs[s.table[id]].startedAt && x.response == s.execs[s.table[id]].response
          else x.startedAt == now && x.response == None
  }

  lemma RunOfThree(s: State, regular: bool, a: Op, b: Op, c: Op)
    ensures Run(s, regular, [a, b, c]) == Step(Step(Step(s, regular, a), regular, b), regular, c)
  {
    assert [a, b, c][1..] == [b, c];
    RunOfTwo(Step(s, regular, a), regular, b, c);
  }

  /** A new execution is created, gets its capacity and runs; in regular mode its row is first set to running. */
  lemma NewExecutionBegins(s: State, id: Id, now: int)
    ensures var c := |s.calls|;
      Begins(s, Run(s, false, [Add(None), Created(c, Some(id)), Reserved(c, true, now)]), id, now, false)
  {
    var c := |s.calls|;
    RunOfThree(s, false, Add(None), Created(c, Some(id)), Reserved(c, true, now));
    RowIsNew(s, false, id);
    InstalledAtOnce(s, Step(Step(s, false, Add(None)), false, Created(c, Some(id))), id, now);
  }

  lemma RowIsNew(s: State, regular: bool, id: Id)
    ensures Step(Step(s, regular, Add(None)), regular, Created(|s.calls|, Some(id)))
         == s.(calls := s.calls + [Call(false, Reserving(id), Idle)])
  {
    var added := Step(s, regular, Add(None));
    assert added == s.(calls := s.calls + [Call(false, Creating, Idle)]);
    assert added.calls[|s.calls| := Call(false, Reserving(id), Idle)]
        == s.calls + [Call(false, Reserving(id), Idle)];
  }

  lemma InstalledAtOnce(s: State, created: State, id: Id, now: int)
    requires created == s.(calls := s.calls + [Call(false, Reserving(id), Idle)])
    ensures Begins(s, Step(created, false, Reserved(|s.calls|, true, now)), id, now, false)
  {
    var c := |s.calls|;
    var held := created.(calls := s.calls + [Call(false, Updating(id), Held)], acquired := s.acquired + 1);
    assert Step(created, false, Reserved(c, true, now)) == InstallOutcome(held, c, id, now);
  }

  lemma NewExecutionBeginsInRegularMode(s: State, id: Id, now: int, outcome: UpdateOutcome)
    requires outcome != Threw
    ensures var c := |s.calls|;
      Begins(s, Run(s, true, [Add(None), Created(c, Some(id))] + [Reserved(c, true, now), Update(c, outcome, now)]), id,
             now, false)
  {
    var c := |s.calls|;
    var ops := [Add(None), Created(c, Some(id))] + [Reserved(c, true, now), Update(c, outcome, now)];
    var added := Step(s, true, Add(None));
    assert ops[1..] == [Created(c, Some(id)), Reserved(c, true, now), Update(c, outcome, now)];
    assert Run(s, true, ops) == Run(added, true, ops[1..]);
    RunOfThree(added, true, Created(c, Some(id)), Reserved(c, true, now), Update(c, outcome, now));
    RowIsNew(s, true, id);
    var created := Step(added, true, Created(c, Some(id)));
    HeldInstalls(s, created, true, id, now, outcome, false);
  }

  /** The call has its capacity, and the update lets it through. */
  lemma HeldInstalls(s: State, asking: State, regular: bool, id: Id, now: int, outcome: UpdateOutcome, resuming: bool)
    requires asking == s.(calls := s.calls + [Call(resuming, Reserving(id), Idle)])
    requires (regular || resuming) && outcome != Threw && (resuming ==> outcome == Updated)
    ensures var c := |s.calls|;
      Begins(s, Step(Step(asking, regular, Reserved(c, true, now)), regular, Update(c, outcome, now)), id, now,
             resuming)
  {
    var c := |s.calls|;
    var held := s.(calls := s.calls + [Call(resuming, Updating(id), Held)], acquired := s.acquired + 1);
    assert Step(asking, regular, Reserved(c, true, now)) == held;
    assert Step(held, regular, Update(c, outcome, now)) == InstallOutcome(held, c, id, now);
  }

  /** A resume that finds the row waiting begins in the same way, in either mode. */
  lemma ResumedExecutionBegins(s: State, regular: bool, id: Id, now: int)
    ensures var c := |s.calls|;
      Begins(s, Run(s, regular, [Add(Some(id)), Reserved(c, true, now), Update(c, Updated, now)]), id, now, true)
  {
    var c := |s.calls|;
    RunOfThree(s, regular, Add(Some(id)), Reserved(c, true, now), Update(c, Updated, now));
    HeldInstalls(s, Step(s, regular, Add(Some(id))), regular, id, now, Updated, true);
  }

  /** Creating the row, asking for capacity or updating the row throws. */
  predicate Throws(s: State, op: Op, c: nat)
    requires c < |s.calls|
  {
    || (op == Created(c, None) && s.calls[c].phase.Creating?)
    || (op.Reserved? && op.call == c && !op.granted && s.calls[c].phase.Reserving?)
    || (op.Update? && op.call == c && op.outcome == Threw && s.calls[c].phase.Updating?)
  }

  /** A failure on the way gives back what was reserved, and touches no entry and no other call. */
  lemma FailedAddLeavesNoTrace(s: State, regular: bool, op: Op, c: nat)
    requires Sound(s) && c < |s.calls| && Throws(s, op, c)
    ensures Abandoned(s, Step(s, regular, op), c)
  {
    assert CallOk(s, c);
  }

  predicate Abandoned(s: State, t: State, c: nat) {
    && c < |s.calls| && |t.calls| == |s.calls| && t.calls[c].phase == Failed(false) && t.calls[c].reservation != Held
    && t.released == s.released + (if s.calls[c].reservation == Held then 1 else 0) && t.acquired == s.acquired
    && (forall d :: 0 <= d < |s.calls| && d != c ==> t.calls[d] == s.calls[d])
    && t.execs == s.execs && t.table == s.table && t.responseModes == s.responseModes
  }

  // ---------- shutdown ----------

  /**
   After the loop of a shutdown that cancels, an id it went over has no entry or a rejected promise; after one that does
   not, no waiting and no new execution is left among them.
   */
  predicate Dealt(s: State, id: Id, cancel: bool) {
    id in s.table && s.table[id] < |s.execs| ==>
      if cancel then s.execs[s.table[id]].settled else s.execs[s.table[id]].status !in {Waiting, New}
  }

  lemma TurnDeals(s: State, id: Id, cancel: bool)
    requires Valid(s)
    ensures Dealt(ShutdownOne(s, id, cancel), id, cancel)
    ensures forall other :: Dealt(s, other, cancel) ==> Dealt(ShutdownOne(s, id, cancel), other, cancel)
  {
  }

  lemma {:induction false} ShutdownDeals(s: State, ids: seq<Id>, cancel: bool)
    requires Sound(s)
    ensures var t := ShutdownOutcome(s, ids, cancel);
      && (forall id :: id in ids || Dealt(s, id, cancel) ==> Dealt(t, id, cancel))
      && forall id :: id !in ids ==>
           (id in t.table <==> id in s.table) && (id in s.table ==> t.table[id] == s.table[id])
    decreases |ids|
  {
    if ids != [] {
      TurnDeals(s, ids[0], cancel);
      StepKeeps(s, true, ShutdownTurn(ids[0], cancel));
      ShutdownDeals(ShutdownOne(s, ids[0], cancel), ids[1..], cancel);
      var t := ShutdownOutcome(s, ids, cancel);
      forall id | id in ids || Dealt(s, id, cancel) ensures Dealt(t, id, cancel) {
        if id in ids && id != ids[0] { assert id in ids[1..]; }
      }
    }
  }

  /** A shutdown that does not cancel leaves every promise, every call and every other execution as they were. */
  lemma {:induction false} PlainShutdownSpares(s: State, ids: seq<Id>)
    requires Valid(s)
    ensures var t := ShutdownOutcome(s, ids, false);
      && t == s.(table := t.table)
      && forall id :: id in t.table <==> id in s.table && !(id in ids && s.execs[s.table[id]].status in {Waiting, New})
    ensures forall id :: id in ShutdownOutcome(s, ids, false).table ==>
      ShutdownOutcome(s, ids, false).table[id] == s.table[id]
    decreases |ids|
  {
    if ids != [] {
      var next := ShutdownOne(s, ids[0], false);
      assert next.execs == s.execs;
      assert forall id :: id in next.table ==> id in s.table && next.table[id] == s.table[id];
      TableLossKeepsValid(s, next);
      PlainShutdownSpares(next, ids[1..]);
      assert forall id :: id in ids <==> id == ids[0] || id in ids[1..];
    }
  }

  lemma TableLossKeepsValid(s: State, t: State)
    requires Valid(s) && t == s.(table := t.table)
    requires forall id :: id in t.table ==> id in s.table && t.table[id] == s.table[id]
    ensures Valid(t)
  {
    forall c | 0 <= c < |t.calls| ensures CallOk(t, c) { assert CallOk(s, c); }
    forall e | 0 <= e < |t.execs| ensures ExecOk(t, e) { assert ExecOk(s, e); }
  }

  /** One that cancels drops the waiting executions it goes over. */
  lemma {:induction false} CancellingDropsWaiting(s: State, ids: seq<Id>, id: Id)
    requires Sound(s) && id in ids && id in s.table && s.execs[s.table[id]].status == Waiting
    ensures id !in ShutdownOutcome(s, ids, true).table
    decreases |ids|
  {
    StepKeeps(s, true, ShutdownTurn(ids[0], true));
    if ids[0] == id {
      GoneStaysGone(ShutdownOne(s, id, true), ids[1..], id);
    } else {
      CancellingDropsWaiting(ShutdownOne(s, ids[0], true), ids[1..], id);
    }
  }

  lemma {:induction false} GoneStaysGone(s: State, ids: seq<Id>, id: Id)
    requires id !in s.table
    ensures id !in ShutdownOutcome(s, ids, true).table
    decreases |ids|
  {
    if ids != [] { GoneStaysGone(ShutdownOne(s, ids[0], true), ids[1..], id); }
  }

  // ---------- an execution that waits ----------

  /** It begins to wait: its promise settles, the cleanup releases its capacity and keeps its entry. */
  lemma WaitingKeepsEntry(s: State, regular: bool, id: Id)
    requires Sound(s) && id in s.table && !s.execs[s.table[id]].cleaned
    ensures var e := s.table[id];
      var t := Run(s, regular, [SetStatus(id, Waiting), Finalize(id), Cleanup(e)]);
      && Sound(t) && ReleasedOne(s, t, s.execs[e].call) && t.table == s.table
      && t.execs[e].status == Waiting && t.execs[e].cleaned
      && t.execs[e].startedAt == s.execs[e].startedAt && t.execs[e].response == s.execs[e].response
  {
    var e := s.table[id];
    var waiting := SetStatus(id, Waiting);
    assert [waiting, Finalize(id), Cleanup(e)][1..] == [Finalize(id), Cleanup(e)];
    StepKeeps(s, regular, waiting);
    FinalizeReleases(Step(s, regular, waiting), regular, id);
    RunKeeps(s, regular, [waiting, Finalize(id), Cleanup(e)]);
    RunOfTwo(Step(s, regular, waiting), regular, Finalize(id), Cleanup(e));
  }

  lemma {:induction false} RunConcat(s: State, regular: bool, a: seq<Op>, b: seq<Op>)
    ensures Run(s, regular, a + b) == Run(Run(s, regular, a), regular, b)
    decreases |a|
  {
    if a == [] {
      assert a + b == b;
    } else {
      assert (a + b)[1..] == a[1..] + b;
      RunConcat(Step(s, regular, a[0]), regular, a[1..], b);
    }
  }

  /**
   An execution that waits holds no capacity; resumed, it has a new entry with the start time and the response promise
   it had before, whenever that is, and when it ends for good the second reservation has come back too.
   */
  lemma WaitsAndResumes(s: State, regular: bool, id: Id, now: int)
    requires Sound(s) && id in s.table && !s.execs[s.table[id]].cleaned
    ensures var e, c, again := s.table[id], |s.calls|, |s.execs|;
      var waited := Run(s, regular, [SetStatus(id, Waiting), Finalize(id), Cleanup(e)]);
      var resumed := Run(waited, regular, [Add(Some(id)), Reserved(c, true, now), Update(c, Updated, now)]);
      var ended := Run(resumed, regular, [Finalize(id), Cleanup(again)]);
      && |resumed.execs| == again + 1 && resumed.execs[again].startedAt == s.execs[e].startedAt
      && resumed.execs[again].response == s.execs[e].response && resumed.table == s.table[id := again]
      && ended.table == s.table - {id}
      && ended.acquired == s.acquired + 1 && ended.released == s.released + 2
  {
    var e, c := s.table[id], |s.calls|;
    WaitingKeepsEntry(s, regular, id);
    var waited := Run(s, regular, [SetStatus(id, Waiting), Finalize(id), Cleanup(e)]);
    EntriesKept(s, regular, id);
    var ops := [Add(Some(id)), Reserved(c, true, now), Update(c, Updated, now)];
    ResumedExecutionBegins(waited, regular, id, now);
    RunKeeps(waited, regular, ops);
    FinalizeReleases(Run(waited, regular, ops), regular, id);
  }

  lemma EntriesKept(s: State, regular: bool, id: Id)
    requires Sound(s) && id in s.table
    ensures var t := Run(s, regular, [SetStatus(id, Waiting), Finalize(id), Cleanup(s.table[id])]);
      |t.execs| == |s.execs| && |t.calls| == |s.calls| && t.acquired == s.acquired
  {
    RunOfThree(s, regular, SetStatus(id, Waiting), Finalize(id), Cleanup(s.table[id]));
  }
}
