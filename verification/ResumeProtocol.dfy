/**
 Resuming a waiting execution (wait-tracker.ts startExecution, active-executions.ts add, and
 updateParentExecutionWithChildResults in workflow-helpers.ts). One database row is shared by any number of resume
 calls on any number of instances and by any number of finishing child executions. Every step is what happens between
 two `await`s; `updateExistingExecution` is an atomic compare-and-set.
 */
module ResumeProtocol {
  import opened Wrappers

  /** The input of a frame of the node execution stack, and everything else there is to the saved data. */
  type Input = nat

  datatype Data = Data(stack: seq<Input>, rest: nat)

  datatype Status = Running | Waiting | Canceled | Finished

  /**
   A value of the row's data with its history: the save it goes back to, and the child whose output replaced the input
   of the top frame, if any.
   */
  datatype Version = Version(data: Data, origin: nat, writer: Option<nat>)

  /**
   A call of `startExecution`; `seen` is how many child writes there were in the episode before it read the row. A
   call that has read the row may still fail before it gets to write; so may a child.
   */
  datatype Resumer = Begun | HasRead(version: Version, seen: nat) | Won | Lost | Refused | Failed

  datatype ChildPhase = Completed | Holding(version: Version) | Wrote | Skipped | GaveUp

  /** A finished child and the output of its last node, if there is one. */
  datatype Child = Child(output: Option<Input>, phase: ChildPhase)

  datatype Win = Win(episode: int, version: Version, seen: nat)

  /** `saved` lists what the execution itself saved; the latest save numbers the episode. `wins` is the history. */
  datatype State = State(status: Status, version: Version, saved: seq<Data>, childWrites: nat, resumers: seq<Resumer>,
                         children: seq<Child>, wins: seq<Win>)

  function Initial(data: Data): State {
    State(Running, Version(data, 0, None), [data], 0, [], [], [])
  }

  function Episode(s: State): int { |s.saved| - 1 }

  function SetTop(data: Data, input: Input): Data {
    if data.stack == [] then data else data.(stack := data.stack[0 := input])
  }

  // ---------- the steps ----------

  /** The running execution saves its data. */
  function Save(s: State, data: Data, status: Status): State {
    if s.status != Running then s
    else s.(status := status, saved := s.saved + [data], version := Version(data, |s.saved|, None), childWrites := 0)
  }

  /** The row is read; only a finished execution is refused. */
  function ReadRow(s: State, r: nat): State {
    if r < |s.resumers| && s.resumers[r].Begun?
    then s.(resumers := s.resumers[r := if s.status == Finished then Refused else HasRead(s.version, s.childWrites)])
    else s
  }

  /** `add`: the update goes through only while the row is waiting, and writes back the data that was read. */
  function CompareAndSet(s: State, r: nat): State {
    if r < |s.resumers| && s.resumers[r].HasRead? then
      if s.status == Waiting then
        var v := s.resumers[r].version;
        s.(status := Running, version := v, resumers := s.resumers[r := Won],
           wins := s.wins + [Win(|s.saved| - 1, v, s.resumers[r].seen)])
      else s.(resumers := s.resumers[r := Lost])
    else s
  }

  function SetPhase(s: State, c: nat, phase: ChildPhase): State
    requires c < |s.children|
  {
    s.(children := s.children[c := s.children[c].(phase := phase)])
  }

  /** The child reads the row, and goes on only if it is waiting and has a stack. */
  function ChildRead(s: State, c: nat): State {
    if c < |s.children| && s.children[c].phase.Completed? then
      if s.children[c].output.None? || s.status != Waiting || s.version.data.stack == [] then SetPhase(s, c, Skipped)
      else SetPhase(s, c, Holding(Version(SetTop(s.version.data, s.children[c].output.value), s.version.origin,
                                          Some(c))))
    else s
  }

  /** The child writes what it prepared, whatever the row has become by then. */
  function ChildWrite(s: State, c: nat): State {
    if c < |s.children| && s.children[c].phase.Holding?
    then SetPhase(s, c, Wrote).(version := s.children[c].phase.version, childWrites := s.childWrites + 1)
    else s
  }

  /** Something throws after the read. */
  function ResumerFails(s: State, r: nat): State {
    if r < |s.resumers| && s.resumers[r].HasRead? then s.(resumers := s.resumers[r := Failed]) else s
  }

  function ChildFails(s: State, c: nat): State {
    if c < |s.children| && s.children[c].phase.Holding? then SetPhase(s, c, GaveUp) else s
  }

  datatype Op =
    | Enter(data: Data)
    | Progress(data: Data)
    | End(status: Status)
    | Begin
    | Read(r: nat)
    | Cas(r: nat)
    | GiveUp(r: nat)
    | ChildDone(output: Option<Input>)
    | ReadByChild(c: nat)
    | WriteByChild(c: nat)
    | GiveUpByChild(c: nat)

  function Step(s: State, op: Op): State {
    match op
    case Enter(data) => Save(s, data, Waiting)
    case Progress(data) => Save(s, data, Running)
    case End(status) =>
      if (s.status == Running && status == Finished) || (s.status in {Running, Waiting} && status == Canceled)
      then s.(status := status) else s
    case Begin => s.(resumers := s.resumers + [Begun])
    case Read(r) => ReadRow(s, r)
    case Cas(r) => CompareAndSet(s, r)
    case GiveUp(r) => ResumerFails(s, r)
    case ChildDone(output) => s.(children := s.children + [Child(output, Completed)])
    case ReadByChild(c) => ChildRead(s, c)
    case WriteByChild(c) => ChildWrite(s, c)
    case GiveUpByChild(c) => ChildFails(s, c)
  }

  function Run(s: State, ops: seq<Op>): State
    decreases |ops|
  {
    if ops == [] then s else Run(Step(s, ops[0]), ops[1..])
  }

  // ---------- what every run keeps ----------

  /**
   `v` is `d` but for the input of the first frame, which is the output: the other frames and the rest are as saved.
   */
  predicate FirstInputReplaced(d: Data, v: Data, output: Input) {
    && d.stack != [] && |v.stack| == |d.stack| && v.stack[0] == output && v.stack[1..] == d.stack[1..]
    && v.rest == d.rest
  }

  /** The data is what the execution saved at `origin`, with the top input replaced by the writer's output. */
  predicate Traceable(s: State, v: Version) {
    && v.origin < |s.saved|
    && match v.writer
       case None => v.data == s.saved[v.origin]
       case Some(c) =>
         && c < |s.children| && s.children[c].output.Some?
         && FirstInputReplaced(s.saved[v.origin], v.data, s.children[c].output.value)
  }

  predicate ResumerOk(s: State, r: nat)
    requires r < |s.resumers|
  {
    s.resumers[r].HasRead? ==> Traceable(s, s.resumers[r].version)
  }

  predicate ChildOk(s: State, c: nat)
    requires c < |s.children|
  {
    s.children[c].phase.Holding? ==>
      Traceable(s, s.children[c].phase.version) && s.children[c].phase.version.writer.Some?
  }

  predicate WinOk(s: State, i: nat)
    requires i < |s.wins|
  {
    && Traceable(s, s.wins[i].version) && s.wins[i].episode < |s.saved|
    && (i + 1 < |s.wins| ==> s.wins[i].episode < s.wins[i + 1].episode)
    && (s.status == Waiting ==> s.wins[i].episode < |s.saved| - 1)
  }

  ghost predicate Valid(s: State) {
    && |s.saved| > 0 && Traceable(s, s.version)
    && (forall r :: 0 <= r < |s.resumers| ==> ResumerOk(s, r))
    && (forall c :: 0 <= c < |s.children| ==> ChildOk(s, c))
    && (forall i :: 0 <= i < |s.wins| ==> WinOk(s, i))
  }

  /** In every interleaving at most one resume succeeds between two entries of the row into waiting. */
  lemma OneWinnerPerEpisode(data: Data, ops: seq<Op>)
    ensures var wins := Run(Initial(data), ops).wins;
      forall i, j :: 0 <= i < j < |wins| ==> wins[i].episode < wins[j].episode
  {
    RunKeeps(Initial(data), ops);
    var t := Run(Initial(data), ops);
    forall i, j | 0 <= i < j < |t.wins| ensures t.wins[i].episode < t.wins[j].episode {
      WinsAscend(t, i, j);
    }
  }

  /**
   In every interleaving a winner starts from data the execution itself once saved, where at most the top input is
   changed, and that to the output of a child that had completed.
   */
  lemma WinnersDataTraceable(data: Data, ops: seq<Op>)
    ensures var t := Run(Initial(data), ops);
      forall i :: 0 <= i < |t.wins| ==> Traceable(t, t.wins[i].version)
  {
    RunKeeps(Initial(data), ops);
    var t := Run(Initial(data), ops);
    forall i | 0 <= i < |t.wins| ensures Traceable(t, t.wins[i].version) {
      assert WinOk(t, i);
    }
  }

  // ---------- one waiting episode ----------

  /** Nobody has read the row without having written it back or given up. */
  ghost predicate Quiet(s: State) {
    && (forall r :: 0 <= r < |s.resumers| ==> !s.resumers[r].HasRead?)
    && (forall c :: 0 <= c < |s.children| ==> !s.children[c].phase.Holding?)
  }

  /** After these steps some winner of episode e has started from an older save. */
  ghost predicate StaleWin(s: State, e: nat, ops: seq<Op>) {
    exists i :: 0 <= i < |Run(s, ops).wins| && Run(s, ops).wins[i].episode == e
                && Run(s, ops).wins[i].version.origin < e
  }

  /** The data saved on entry, or, when a child wrote before the winner read, that with a child's output on top. */
  ghost predicate StartsFrom(s: State, w: Win, data: Data) {
    if w.seen == 0 then w.version.data == data else
      exists c :: 0 <= c < |s.children| && s.children[c].output.Some?
                  && FirstInputReplaced(data, w.version.data, s.children[c].output.value)
  }

  /**
   When the row enters waiting with no read of it in flight, then whatever happens, every winner of this episode starts
   from the data saved on entry: unchanged if no child wrote before the winner read, and otherwise with only the top
   input changed, to the output of some completed child.
   */
  lemma WinnerStartsFromSave(s: State, data: Data, ops: seq<Op>)
    requires Valid(s) && s.status == Running && Quiet(s)
    ensures var t := Run(Step(s, Enter(data)), ops);
      forall i :: 0 <= i < |t.wins| && t.wins[i].episode == |s.saved| ==> StartsFrom(t, t.wins[i], data)
  {
    QuietEntryIsClean(s, data);
    StepKeeps(s, Enter(data));
    RunKeeps(Step(s, Enter(data)), ops);
    RunKeepsClean(Step(s, Enter(data)), |s.saved|, ops);
    var t := Run(Step(s, Enter(data)), ops);
    forall i | 0 <= i < |t.wins| && t.wins[i].episode == |s.saved| ensures StartsFrom(t, t.wins[i], data) {
      assert WinOk(t, i) && WinClean(t, |s.saved|, i);
      if t.wins[i].seen != 0 {
        var c := t.wins[i].version.writer.value;
        assert FirstInputReplaced(data, t.wins[i].version.data, t.children[c].output.value);
      }
    }
  }

  /**
   Every winner of an episode starts from its own save if and only if no read of the row was in flight on entry. A
   resume call that read the row in an earlier episode, and a child's write that was prepared in one, pass the guard.
   */
  lemma EpisodeSafeExactly(s: State, data: Data)
    requires Valid(s) && s.status == Running
    ensures Quiet(s) <==> forall ops :: !StaleWin(Step(s, Enter(data)), |s.saved|, ops)
  {
    if Quiet(s) {
      forall ops ensures !StaleWin(Step(s, Enter(data)), |s.saved|, ops) {
        QuietEntryIsClean(s, data);
        RunKeepsClean(Step(s, Enter(data)), |s.saved|, ops);
        var t := Run(Step(s, Enter(data)), ops);
        forall i | 0 <= i < |t.wins| && t.wins[i].episode == |s.saved| ensures t.wins[i].version.origin == |s.saved| {
          assert WinClean(t, |s.saved|, i);
        }
      }
    } else if r :| 0 <= r < |s.resumers| && s.resumers[r].HasRead? {
      StaleSnapshotWins(s, data, r);
    } else {
      var c :| 0 <= c < |s.children| && s.children[c].phase.Holding?;
      LateWriteWins(s, data, c);
    }
  }

  lemma StaleSnapshotWins(s: State, data: Data, r: nat)
    requires Valid(s) && s.status == Running && r < |s.resumers| && s.resumers[r].HasRead?
    ensures StaleWin(Step(s, Enter(data)), |s.saved|, [Cas(r)])
  {
    assert ResumerOk(s, r);
    var entered := Step(s, Enter(data));
    assert [Cas(r)][1..] == [];
    var t := Step(entered, Cas(r));
    assert Run(entered, [Cas(r)]) == t;
    assert t.wins[|s.wins|].episode == |s.saved|;
  }

  lemma LateWriteWins(s: State, data: Data, c: nat)
    requires Valid(s) && s.status == Running && c < |s.children| && s.children[c].phase.Holding?
    ensures StaleWin(Step(s, Enter(data)), |s.saved|, [WriteByChild(c), Begin, Read(|s.resumers|), Cas(|s.resumers|)])
  {
    assert ChildOk(s, c);
    var r := |s.resumers|;
    var entered := Step(s, Enter(data));
    var written := Step(entered, WriteByChild(c));
    var begun := Step(written, Begin);
    var read := Step(begun, Read(r));
    var t := Step(read, Cas(r));
    RunFour(entered, WriteByChild(c), Begin, Read(r), Cas(r));
    assert t.wins[|s.wins|].episode == |s.saved|;
  }

  const SAVED: Data := Data([1, 9], 11)

  const LATER: Data := Data([2], 12)

  /** A child has read the row while it waited, and has not written yet. */
  const CHILD_READ: seq<Op> := [Enter(SAVED), ChildDone(Some(5)), ReadByChild(0), Begin]

  /** The execution is resumed and waits again. */
  const RESUMED: seq<Op> := [Read(0), Cas(0)]

  const CHILD_WRITES: seq<Op> := [WriteByChild(0), Begin, Read(1), Cas(1)]

  /**
   A child reads the row in the first episode and writes in the second: the second resume then repeats from the first
   save, and what the execution saved in between is lost.
   */
  lemma LateChildWriteLosesProgress()
    ensures var wins := Run(Initial(Data([1], 10)), CHILD_READ + (RESUMED + ([Enter(LATER)] + CHILD_WRITES))).wins;
      |wins| == 2 && wins[1].episode == 2 && wins[1].version.data == Data([5, 9], 11)
  {
    var s := Initial(Data([1], 10));
    RunConcat(s, CHILD_READ, RESUMED + ([Enter(LATER)] + CHILD_WRITES));
    AfterChildRead();
    var waiting := Run(s, CHILD_READ);
    RunConcat(waiting, RESUMED, [Enter(LATER)] + CHILD_WRITES);
    AfterResumed(waiting);
    var running := Run(waiting, RESUMED);
    assert ([Enter(LATER)] + CHILD_WRITES)[1..] == CHILD_WRITES;
    AfterChildWrites(Step(running, Enter(LATER)));
  }

  // ---------- what one resume and one child achieve ----------

  /** A resume that reads the row while it waits, with nothing else going on, wins and runs on what was saved. */
  lemma ResumeRunsOnSave(s: State, data: Data)
    requires s.status == Running
    ensures var r := |s.resumers|;
      var t := Run(s, [Enter(data), Begin, Read(r), Cas(r)]);
      && t.status == Running && t.version.data == data && t.saved == s.saved + [data]
      && |t.resumers| == r + 1 && t.resumers[r] == Won
      && |t.wins| == |s.wins| + 1 && t.wins[|s.wins|].episode == |s.saved| && t.wins[|s.wins|].version.data == data
  {
    var r := |s.resumers|;
    RunFour(s, Enter(data), Begin, Read(r), Cas(r));
    var read := Step(Step(Step(s, Enter(data)), Begin), Read(r));
    assert read.resumers[r] == HasRead(Version(data, |s.saved|, None), 0);
  }

  /**
   A child that finishes while the row waits hands its output to the first frame, and the next winner runs on that.
   */
  lemma ChildOutputArrives(s: State, data: Data, output: Input)
    requires s.status == Running && data.stack != []
    ensures var c, r := |s.children|, |s.resumers|;
      var first := [Enter(data), ChildDone(Some(output)), ReadByChild(c), WriteByChild(c)];
      var t := Run(s, first + [Begin, Read(r), Cas(r)]);
      t.status == Running && |t.resumers| == r + 1 && t.resumers[r] == Won
        && FirstInputReplaced(data, t.version.data, output)
  {
    var c, r := |s.children|, |s.resumers|;
    var first := [Enter(data), ChildDone(Some(output)), ReadByChild(c), WriteByChild(c)];
    RunConcat(s, first, [Begin, Read(r), Cas(r)]);
    RunFour(s, Enter(data), ChildDone(Some(output)), ReadByChild(c), WriteByChild(c));
    var read := Step(Step(Step(s, Enter(data)), ChildDone(Some(output))), ReadByChild(c));
    assert read.children[c].phase.Holding?;
    WrittenRowWins(Run(s, first));
  }

  lemma WrittenRowWins(s: State)
    requires s.status == Waiting
    ensures var r := |s.resumers|;
      var t := Run(s, [Begin, Read(r), Cas(r)]);
      t.status == Running && |t.resumers| == r + 1 && t.resumers[r] == Won && t.version == s.version
  {
    var r := |s.resumers|;
    assert [Begin, Read(r), Cas(r)][1..] == [Read(r), Cas(r)];
    RunTwo(Step(s, Begin), Read(r), Cas(r));
    assert Step(Step(s, Begin), Read(r)).resumers[r] == HasRead(s.version, s.childWrites);
  }

  /**
   The step writes the row: the running execution does, a resume that finds it waiting, or a child that has prepared.
   */
  predicate Writes(s: State, op: Op) {
    match op
    case Enter(_) => s.status == Running
    case Progress(_) => s.status == Running
    case End(status) =>
      (status == Finished && s.status == Running) || (status == Canceled && s.status in {Running, Waiting})
    case Cas(r) => r < |s.resumers| && s.resumers[r].HasRead? && s.status == Waiting
    case WriteByChild(c) => c < |s.children| && s.children[c].phase.Holding?
    case _ => false
  }

  /** No other step changes the row, and a child prepares a write only from a waiting row and with an output. */
  lemma OnlyWritersWrite(s: State, op: Op)
    ensures var t := Step(s, op);
      && (!Writes(s, op) ==> t.status == s.status && t.version == s.version && t.saved == s.saved)
      && (op.Cas? || op.WriteByChild? ==> t.saved == s.saved)
      && forall c :: 0 <= c < |t.children| && t.children[c].phase.Holding?
                     && !(c < |s.children| && s.children[c].phase.Holding?) ==>
           s.status == Waiting && t.children[c].output.Some?
  {
  }

  /**
   A save by the running execution becomes the row's data and starts a new episode; it also says how the row stands.
   */
  lemma SaveBecomesTheRow(s: State, data: Data)
    ensures var entered, went := Step(s, Enter(data)), Step(s, Progress(data));
      if s.status == Running then
        && entered.status == Waiting && went.status == Running
        && entered.saved == went.saved == s.saved + [data]
        && entered.version.data == went.version.data == data
        && entered.wins == went.wins == s.wins && entered.resumers == went.resumers == s.resumers
      else entered == s && went == s
  {
  }

  /** Only a finished execution refuses to be read. */
  lemma RefusedExactly(s: State, r: nat)
    requires r < |s.resumers| && s.resumers[r] == Begun
    ensures var after := Step(s, Read(r)).resumers[r];
      && (after == Refused <==> s.status == Finished)
      && (s.status != Finished ==> after == HasRead(s.version, s.childWrites))
  {
  }

  // ---------- proofs: what every step keeps ----------

  /** A later state knows at least the saves and the children of an earlier one. */
  predicate Extends(s: State, t: State) {
    && |s.saved| <= |t.saved| && t.saved[..|s.saved|] == s.saved
    && |s.children| <= |t.children|
    && forall c :: 0 <= c < |s.children| ==> t.children[c].output == s.children[c].output
  }

  lemma StaysTraceable(s: State, t: State, v: Version)
    requires Traceable(s, v) && Extends(s, t)
    ensures Traceable(t, v)
  {
    assert t.saved[..|s.saved|][v.origin] == t.saved[v.origin];
  }

  lemma OldOnesStayOk(s: State, op: Op)
    requires Valid(s)
    ensures var t := Step(s, op);
      && (forall r :: 0 <= r < |s.resumers| && t.resumers[r] == s.resumers[r] ==> ResumerOk(t, r))
      && (forall c :: 0 <= c < |s.children| && t.children[c] == s.children[c] ==> ChildOk(t, c))
      && (forall i :: 0 <= i < |s.wins| ==> Traceable(t, s.wins[i].version))
      && Traceable(t, s.version)
  {
    var t := Step(s, op);
    StaysTraceable(s, t, s.version);
    forall r | 0 <= r < |s.resumers| && t.resumers[r] == s.resumers[r] ensures ResumerOk(t, r) {
      assert ResumerOk(s, r);
      if s.resumers[r].HasRead? { StaysTraceable(s, t, s.resumers[r].version); }
    }
    forall c | 0 <= c < |s.children| && t.children[c] == s.children[c] ensures ChildOk(t, c) {
      assert ChildOk(s, c);
      if s.children[c].phase.Holding? { StaysTraceable(s, t, s.children[c].phase.version); }
    }
    forall i | 0 <= i < |s.wins| ensures Traceable(t, s.wins[i].version) {
      assert WinOk(s, i);
      StaysTraceable(s, t, s.wins[i].version);
    }
  }

  lemma WinsKeep(s: State, op: Op)
    requires Valid(s)
    ensures forall i :: 0 <= i < |Step(s, op).wins| ==> WinOk(Step(s, op), i)
  {
    var t := Step(s, op);
    OldOnesStayOk(s, op);
    if op.Cas? && op.r < |s.resumers| { assert ResumerOk(s, op.r); }
    forall i | 0 <= i < |t.wins| ensures WinOk(t, i) {
      if i < |s.wins| {
        assert WinOk(s, i);
      } else {
        StaysTraceable(s, t, t.wins[i].version);
      }
    }
  }

  lemma CallersKeep(s: State, op: Op)
    requires Valid(s)
    ensures var t := Step(s, op);
      (forall r :: 0 <= r < |t.resumers| ==> ResumerOk(t, r)) && forall c :: 0 <= c < |t.children| ==> ChildOk(t, c)
  {
    var t := Step(s, op);
    OldOnesStayOk(s, op);
    forall r | 0 <= r < |t.resumers| ensures ResumerOk(t, r) {
      if r < |s.resumers| { assert ResumerOk(s, r); }
    }
    forall c | 0 <= c < |t.children| ensures ChildOk(t, c) {
      if c < |s.children| && t.children[c] != s.children[c] && t.children[c].phase.Holding? {
        PreparedIsTraceable(s, c);
        StaysTraceable(s, t, t.children[c].phase.version);
      }
    }
  }

  lemma PreparedIsTraceable(s: State, c: nat)
    requires Valid(s) && c < |s.children| && s.children[c].output.Some? && s.version.data.stack != []
    ensures Traceable(s, Version(SetTop(s.version.data, s.children[c].output.value), s.version.origin, Some(c)))
  {
    var base := s.saved[s.version.origin];
    var input := s.children[c].output.value;
    assert FirstInputReplaced(base, SetTop(s.version.data, input), input);
  }

  lemma StepKeeps(s: State, op: Op)
    requires Valid(s)
    ensures Valid(Step(s, op))
  {
    var t := Step(s, op);
    OldOnesStayOk(s, op);
    WinsKeep(s, op);
    CallersKeep(s, op);
    if op.Cas? && op.r < |s.resumers| {
      assert ResumerOk(s, op.r);
      if s.resumers[op.r].HasRead? { StaysTraceable(s, t, s.resumers[op.r].version); }
    }
    if op.WriteByChild? && op.c < |s.children| {
      assert ChildOk(s, op.c);
      if s.children[op.c].phase.Holding? { StaysTraceable(s, t, s.children[op.c].phase.version); }
    }
  }

  lemma {:induction false} RunKeeps(s: State, ops: seq<Op>)
    requires Valid(s)
    ensures Valid(Run(s, ops))
    decreases |ops|
  {
    if ops != [] {
      StepKeeps(s, ops[0]);
      RunKeeps(Step(s, ops[0]), ops[1..]);
    }
  }

  lemma {:induction false} WinsAscend(s: State, i: nat, j: nat)
    requires Valid(s) && i < j < |s.wins|
    ensures s.wins[i].episode < s.wins[j].episode
  {
    assert WinOk(s, j - 1);
    if i < j - 1 { WinsAscend(s, i, j - 1); }
  }

  // ---------- proofs: a clean episode stays clean ----------

  /** The win of episode e starts from what was saved on entry, changed if and only if a child wrote before its read. */
  predicate WinClean(s: State, e: nat, i: nat)
    requires i < |s.wins|
  {
    s.wins[i].episode == e ==>
      s.wins[i].version.origin == e && (s.wins[i].version.writer == None <==> s.wins[i].seen == 0)
  }

  predicate ResumerClean(s: State, e: nat, r: nat)
    requires r < |s.resumers|
  {
    s.resumers[r].HasRead? ==>
      && s.resumers[r].version.origin == e
      && (s.status == Waiting ==> (s.resumers[r].version.writer == None <==> s.resumers[r].seen == 0))
  }

  predicate ChildClean(s: State, e: nat, c: nat)
    requires c < |s.children|
  {
    s.children[c].phase.Holding? ==>
      s.children[c].phase.version.origin == e && s.children[c].phase.version.writer.Some?
  }

  /** While episode e lasts, all data in the row and in flight goes back to its own save. */
  ghost predicate Clean(s: State, e: nat) {
    && e < |s.saved|
    && (forall i :: 0 <= i < |s.wins| ==> WinClean(s, e, i))
    && (e == |s.saved| - 1 ==>
          && s.version.origin == e
          && (s.status == Waiting ==> (s.version.writer == None <==> s.childWrites == 0))
          && (forall r :: 0 <= r < |s.resumers| ==> ResumerClean(s, e, r))
          && (forall c :: 0 <= c < |s.children| ==> ChildClean(s, e, c)))
  }

  lemma StepKeepsClean(s: State, e: nat, op: Op)
    requires Clean(s, e)
    ensures Clean(Step(s, op), e)
  {
    var t := Step(s, op);
    if op.Cas? && op.r < |s.resumers| && e == |s.saved| - 1 { assert ResumerClean(s, e, op.r); }
    if op.WriteByChild? && op.c < |s.children| && e == |s.saved| - 1 { assert ChildClean(s, e, op.c); }
    forall i | 0 <= i < |t.wins| ensures WinClean(t, e, i) {
      if i < |s.wins| { assert WinClean(s, e, i); }
    }
    if e == |t.saved| - 1 {
      forall r | 0 <= r < |t.resumers| ensures ResumerClean(t, e, r) {
        if r < |s.resumers| { assert ResumerClean(s, e, r); }
      }
      forall c | 0 <= c < |t.children| ensures ChildClean(t, e, c) {
        if c < |s.children| { assert ChildClean(s, e, c); }
      }
    }
  }

  lemma {:induction false} RunKeepsClean(s: State, e: nat, ops: seq<Op>)
    requires Clean(s, e)
    ensures Clean(Run(s, ops), e) && |Run(s, ops).saved| >= |s.saved| && Run(s, ops).saved[e] == s.saved[e]
    decreases |ops|
  {
    if ops != [] {
      StepKeepsClean(s, e, ops[0]);
      var t := Step(s, ops[0]);
      assert t.saved[..|s.saved|][e] == t.saved[e];
      RunKeepsClean(t, e, ops[1..]);
    }
  }

  lemma QuietEntryIsClean(s: State, data: Data)
    requires Valid(s) && s.status == Running && Quiet(s)
    ensures Clean(Step(s, Enter(data)), |s.saved|)
  {
    var t, e := Step(s, Enter(data)), |s.saved|;
    forall i | 0 <= i < |t.wins| ensures WinClean(t, e, i) { assert WinOk(s, i); }
  }

  // ---------- proofs: the runs that fail ----------

  lemma RunFour(s: State, a: Op, b: Op, c: Op, d: Op)
    ensures Run(s, [a, b, c, d]) == Step(Step(Step(Step(s, a), b), c), d)
  {
    assert [a, b, c, d][1..] == [b, c, d] && [b, c, d][1..] == [c, d] && [c, d][1..] == [d] && [d][1..] == [];
    var t := Step(Step(s, a), b);
    assert Run(Step(t, c), [d]) == Step(Step(t, c), d);
    assert Run(t, [c, d]) == Step(Step(t, c), d);
  }

  lemma {:induction false} RunConcat(s: State, a: seq<Op>, b: seq<Op>)
    ensures Run(s, a + b) == Run(Run(s, a), b)
    decreases |a|
  {
    if a == [] {
      assert a + b == b;
    } else {
      assert (a + b)[1..] == a[1..] + b;
      RunConcat(Step(s, a[0]), a[1..], b);
    }
  }

  lemma RunTwo(s: State, a: Op, b: Op)
    ensures Run(s, [a, b]) == Step(Step(s, a), b)
  {
    assert [a, b][1..] == [b] && [b][1..] == [];
    assert Run(Step(s, a), [b]) == Step(Step(s, a), b);
  }

  lemma AfterChildRead()
    ensures Run(Initial(Data([1], 10)), CHILD_READ)
         == State(Waiting, Version(SAVED, 1, None), [Data([1], 10), SAVED], 0, [Begun],
                  [Child(Some(5), Holding(Version(Data([5, 9], 11), 1, Some(0))))], [])
  {
    var s := Initial(Data([1], 10));
    RunFour(s, Enter(SAVED), ChildDone(Some(5)), ReadByChild(0), Begin);
    var done := Step(Step(s, Enter(SAVED)), ChildDone(Some(5)));
    assert done.version.data == SAVED && done.children == [Child(Some(5), Completed)];
    assert SetTop(SAVED, 5) == Data([5, 9], 11);
    var read := Step(done, ReadByChild(0));
    assert read.children == [Child(Some(5), Holding(Version(Data([5, 9], 11), 1, Some(0))))];
  }

  lemma AfterResumed(s: State)
    requires s.status == Waiting && s.resumers == [Begun] && |s.saved| == 2 && s.wins == []
    ensures var t := Run(s, RESUMED);
      t.status == Running && t.saved == s.saved && t.children == s.children && |t.resumers| == 1 && |t.wins| == 1
  {
    RunTwo(s, Read(0), Cas(0));
  }

  lemma AfterChildWrites(s: State)
    requires s.status == Waiting && |s.resumers| == 1 && |s.saved| == 3 && |s.wins| == 1
    requires s.children == [Child(Some(5), Holding(Version(Data([5, 9], 11), 1, Some(0))))]
    ensures var wins := Run(s, CHILD_WRITES).wins;
      |wins| == 2 && wins[1].episode == 2 && wins[1].version.data == Data([5, 9], 11)
  {
    RunFour(s, WriteByChild(0), Begin, Read(1), Cas(1));
    var read := Step(Step(Step(s, WriteByChild(0)), Begin), Read(1));
    assert read.status == Waiting;
    assert read.resumers[1] == HasRead(Version(Data([5, 9], 11), 1, Some(0)), s.childWrites + 1);
  }
}
