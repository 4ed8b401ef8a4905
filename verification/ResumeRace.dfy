/**
 The race for a waiting execution as a whole: one database row, and any number of instances, each with its own table of
 active executions and its own capacity. A resume call reads the row and brings what it read to `add`, and the two meet
 in one conditional update. The instances deal with other executions too, and those are not decided by this row.
 */
module ResumeRace {
  import opened Wrappers
  import Row = ResumeProtocol
  import Local = ActiveExecutions

  /** A resuming call of `add` that went through, and the waiting episode it ended. */
  datatype Success = Success(instance: nat, call: nat, episode: int)

  /** The call of `add` was made with what this reader had read. */
  datatype Carry = Carry(instance: nat, call: nat, reader: nat)

  datatype Cluster = Cluster(row: Row.State, id: Local.Id, instances: seq<Local.State>, carries: seq<Carry>,
                             successes: seq<Success>)

  datatype Op =
    | RowStep(op: Row.Op)
    | LocalStep(instance: nat, regular: bool, local: Local.Op)
    | Bring(instance: nat, reader: nat)
    | Answer(carry: nat, now: int)

  /** A resuming call for this execution that has not been answered. */
  predicate Open(s: Local.State, id: Local.Id, c: nat) {
    c < |s.calls| && s.calls[c].resuming && s.calls[c].phase in {Local.Reserving(id), Local.Updating(id)}
  }

  /** It has its capacity and asks for the row. */
  predicate Asking(s: Local.State, id: Local.Id, c: nat) {
    c < |s.calls| && s.calls[c].resuming && s.calls[c].phase == Local.Updating(id)
  }

  predicate OpenCarry(x: Cluster, i: nat)
    requires i < |x.carries|
  {
    x.carries[i].instance < |x.instances| && Open(x.instances[x.carries[i].instance], x.id, x.carries[i].call)
  }

  /** A reader is still to bring its data, and brings it once. */
  predicate CanBring(x: Cluster, k: nat, r: nat) {
    && k < |x.instances| && r < |x.row.resumers| && x.row.resumers[r].HasRead?
    && forall i :: 0 <= i < |x.carries| ==> x.carries[i].reader != r
  }

  predicate Ready(x: Cluster, i: nat) {
    && i < |x.carries| && x.carries[i].instance < |x.instances|
    && Asking(x.instances[x.carries[i].instance], x.id, x.carries[i].call)
    && x.carries[i].reader < |x.row.resumers| && x.row.resumers[x.carries[i].reader].HasRead?
  }

  /** The update matches the row exactly while it is waiting. */
  function RowOutcome(row: Row.State): Local.UpdateOutcome {
    if row.status == Row.Waiting then Local.Updated else Local.NoRow
  }

  /** An instance does not answer for the row, and resumes this execution only with what a reader brings. */
  predicate OnItsOwn(s: Local.State, id: Local.Id, op: Local.Op) {
    match op
    case Add(i) => i != Some(id)
    case Update(c, outcome, _) => outcome == Local.Threw || !Asking(s, id, c)
    case _ => true
  }

  /** The row is not updated conditionally but for a call, and no reader gives up while its call is open. */
  predicate RowOnItsOwn(x: Cluster, op: Row.Op) {
    && !op.Cas?
    && (op.GiveUp? ==> forall i :: 0 <= i < |x.carries| && x.carries[i].reader == op.r ==> !OpenCarry(x, i))
  }

  function Step(x: Cluster, op: Op): Cluster {
    match op
    case RowStep(o) => if !RowOnItsOwn(x, o) then x else x.(row := Row.Step(x.row, o))
    case LocalStep(k, regular, o) =>
      if k >= |x.instances| || !OnItsOwn(x.instances[k], x.id, o) then x
      else x.(instances := x.instances[k := Local.Step(x.instances[k], regular, o)])
    case Bring(k, r) =>
      if !CanBring(x, k, r) then x
      else x.(instances := x.instances[k := Local.AddOutcome(x.instances[k], Some(x.id))],
              carries := x.carries + [Carry(k, |x.instances[k].calls|, r)])
    case Answer(i, now) =>
      if !Ready(x, i) then x
      else
        var k, c, r := x.carries[i].instance, x.carries[i].call, x.carries[i].reader;
        x.(row := Row.CompareAndSet(x.row, r),
           instances := x.instances[k := Local.UpdatedOutcome(x.instances[k], c, RowOutcome(x.row), now)],
           successes := if x.row.status == Row.Waiting then x.successes + [Success(k, c, Row.Episode(x.row))]
                        else x.successes)
  }

  function Run(x: Cluster, ops: seq<Op>): Cluster
    decreases |ops|
  {
    if ops == [] then x else Run(Step(x, ops[0]), ops[1..])
  }

  /** The execution runs for the first time; no instance knows of any. */
  ghost predicate Starts(x: Cluster, data: Row.Data) {
    && x.row == Row.Initial(data) && x.carries == [] && x.successes == []
    && forall k :: 0 <= k < |x.instances| ==> x.instances[k] == Local.EMPTY
  }

  // ---------- the successful calls are the wins of the row ----------

  /** One for one; and every instance keeps its ledger. */
  ghost predicate Agrees(x: Cluster) {
    && Row.Valid(x.row)
    && (forall k :: 0 <= k < |x.instances| ==> Local.Sound(x.instances[k]))
    && |x.successes| == |x.row.wins|
    && (forall i :: 0 <= i < |x.successes| ==> x.successes[i].episode == x.row.wins[i].episode)
  }

  lemma WinsOnlyByCas(s: Row.State, op: Row.Op)
    requires !op.Cas?
    ensures Row.Step(s, op).wins == s.wins
  {
  }

  lemma InstanceChanges(x: Cluster, k: nat, s: Local.State, carries: seq<Carry>)
    requires Agrees(x) && k < |x.instances| && Local.Sound(s)
    ensures Agrees(x.(instances := x.instances[k := s], carries := carries))
  {
  }

  lemma RowChanges(x: Cluster, op: Row.Op)
    requires Agrees(x) && !op.Cas?
    ensures Agrees(x.(row := Row.Step(x.row, op)))
  {
    Row.StepKeeps(x.row, op);
    WinsOnlyByCas(x.row, op);
  }

  lemma AnswerAgrees(x: Cluster, i: nat, now: int)
    requires Agrees(x) && Ready(x, i)
    ensures Agrees(Step(x, Answer(i, now)))
  {
    Row.StepKeeps(x.row, Row.Cas(x.carries[i].reader));
    Local.UpdatedKeeps(x.instances[x.carries[i].instance], x.carries[i].call, RowOutcome(x.row), now);
  }

  lemma StepAgrees(x: Cluster, op: Op)
    requires Agrees(x)
    ensures Agrees(Step(x, op))
  {
    match op
    case RowStep(o) => if !o.Cas? { RowChanges(x, o); }
    case LocalStep(k, regular, o) =>
      if k < |x.instances| {
        Local.StepKeeps(x.instances[k], regular, o);
        InstanceChanges(x, k, Local.Step(x.instances[k], regular, o), x.carries);
      }
    case Bring(k, r) =>
      if CanBring(x, k, r) {
        Local.AddKeeps(x.instances[k], Some(x.id));
        InstanceChanges(x, k, Local.AddOutcome(x.instances[k], Some(x.id)),
                        x.carries + [Carry(k, |x.instances[k].calls|, r)]);
      }
    case Answer(i, now) => if Ready(x, i) { AnswerAgrees(x, i, now); }
  }

  // ---------- every open call has its reader ----------

  /** The reader of an open call is still waiting for its answer. */
  predicate CarryOk(x: Cluster, i: nat)
    requires i < |x.carries|
  {
    var k, c, r := x.carries[i].instance, x.carries[i].call, x.carries[i].reader;
    && k < |x.instances| && c < |x.instances[k].calls| && r < |x.row.resumers|
    && (Open(x.instances[k], x.id, c) ==> x.row.resumers[r].HasRead?)
  }

  predicate Apart(a: Carry, b: Carry) {
    a.reader != b.reader && (a.instance != b.instance || a.call != b.call)
  }

  predicate Brought(x: Cluster, k: nat, c: nat) {
    exists i :: 0 <= i < |x.carries| && x.carries[i].instance == k && x.carries[i].call == c
  }

  /** A call that still has to create its row does not resume anything. */
  predicate CreatesOnly(s: Local.State) {
    forall c :: 0 <= c < |s.calls| && s.calls[c].phase.Creating? ==> !s.calls[c].resuming
  }

  ghost predicate Matched(x: Cluster) {
    && (forall i :: 0 <= i < |x.carries| ==> CarryOk(x, i))
    && (forall i, j :: 0 <= i < j < |x.carries| ==> Apart(x.carries[i], x.carries[j]))
    && (forall k: nat, c: nat :: k < |x.instances| && Open(x.instances[k], x.id, c) ==> Brought(x, k, c))
    && forall k :: 0 <= k < |x.instances| ==> CreatesOnly(x.instances[k])
  }

  /** No call for this execution is opened. */
  ghost predicate OpensNone(s: Local.State, t: Local.State, id: Local.Id) {
    CreatesOnly(t) && |t.calls| >= |s.calls| && forall c: nat :: Open(t, id, c) ==> Open(s, id, c)
  }

  lemma OneCallMoves(s: Local.State, t: Local.State, id: Local.Id, c: nat)
    requires CreatesOnly(s) && c < |s.calls| && |t.calls| == |s.calls|
    requires forall d :: 0 <= d < |s.calls| && d != c ==> t.calls[d] == s.calls[d]
    requires t.calls[c].phase.Creating? ==> !t.calls[c].resuming
    requires Open(t, id, c) ==> Open(s, id, c)
    ensures OpensNone(s, t, id)
  {
    forall d: nat | Open(t, id, d) ensures Open(s, id, d) { assert d != c ==> t.calls[d] == s.calls[d]; }
  }

  lemma SameCalls(s: Local.State, t: Local.State, id: Local.Id)
    requires CreatesOnly(s) && t.calls == s.calls
    ensures OpensNone(s, t, id)
  {
  }

  lemma AddOpensNone(s: Local.State, i: Option<Local.Id>, id: Local.Id)
    requires CreatesOnly(s) && i != Some(id)
    ensures OpensNone(s, Local.AddOutcome(s, i), id)
  {
  }

  lemma CreatedOpensNone(s: Local.State, c: nat, i: Option<Local.Id>, id: Local.Id)
    requires CreatesOnly(s)
    ensures OpensNone(s, Local.CreatedOutcome(s, c, i), id)
  {
    if c < |s.calls| && s.calls[c].phase.Creating? {
      OneCallMoves(s, Local.CreatedOutcome(s, c, i), id, c);
    } else {
      SameCalls(s, s, id);
    }
  }

  lemma ReservedOpensNone(s: Local.State, regular: bool, c: nat, granted: bool, now: int, id: Local.Id)
    requires CreatesOnly(s)
    ensures OpensNone(s, Local.ReservedOutcome(s, regular, c, granted, now), id)
  {
    if c < |s.calls| && s.calls[c].phase.Reserving? {
      OneCallMoves(s, Local.ReservedOutcome(s, regular, c, granted, now), id, c);
    } else {
      SameCalls(s, s, id);
    }
  }

  lemma UpdatedOpensNone(s: Local.State, c: nat, outcome: Local.UpdateOutcome, now: int, id: Local.Id)
    requires CreatesOnly(s)
    ensures OpensNone(s, Local.UpdatedOutcome(s, c, outcome, now), id)
  {
    if c < |s.calls| && s.calls[c].phase.Updating? {
      OneCallMoves(s, Local.UpdatedOutcome(s, c, outcome, now), id, c);
    } else {
      SameCalls(s, s, id);
    }
  }

  lemma CleanupOpensNone(s: Local.State, e: nat, id: Local.Id)
    requires CreatesOnly(s)
    ensures OpensNone(s, Local.CleanupOutcome(s, e), id)
  {
    if e < |s.execs| && s.execs[e].call < |s.calls| {
      OneCallMoves(s, Local.CleanupOutcome(s, e), id, s.execs[e].call);
    } else {
      SameCalls(s, s, id);
    }
  }

  /** On its own an instance opens no call for this execution. */
  lemma OwnStepOpensNone(s: Local.State, regular: bool, op: Local.Op, id: Local.Id)
    requires CreatesOnly(s) && OnItsOwn(s, id, op)
    ensures OpensNone(s, Local.Step(s, regular, op), id)
  {
    match op
    case Add(i) => AddOpensNone(s, i, id);
    case Created(c, i) => CreatedOpensNone(s, c, i, id);
    case Reserved(c, granted, now) => ReservedOpensNone(s, regular, c, granted, now, id);
    case Update(c, outcome, now) => UpdatedOpensNone(s, c, outcome, now, id);
    case Cleanup(e) => CleanupOpensNone(s, e, id);
    case _ => SameCalls(s, Local.Step(s, regular, op), id);
  }

  lemma InstanceMatched(x: Cluster, k: nat, s: Local.State)
    requires Matched(x) && k < |x.instances| && OpensNone(x.instances[k], s, x.id)
    ensures Matched(x.(instances := x.instances[k := s]))
  {
    var y := x.(instances := x.instances[k := s]);
    forall i | 0 <= i < |y.carries| ensures CarryOk(y, i) { assert CarryOk(x, i); }
    forall j: nat, c: nat | j < |y.instances| && Open(y.instances[j], y.id, c) ensures Brought(y, j, c) {
      assert Brought(x, j, c);
    }
  }

  lemma ReadersStay(s: Row.State, op: Row.Op, r: nat)
    requires !op.Cas? && op != Row.GiveUp(r) && r < |s.resumers|
    ensures var t := Row.Step(s, op);
      r < |t.resumers| && (s.resumers[r].HasRead? ==> t.resumers[r] == s.resumers[r])
  {
  }

  lemma ReadersRemain(s: Row.State, op: Row.Op)
    ensures |Row.Step(s, op).resumers| >= |s.resumers|
  {
  }

  lemma RowMatched(x: Cluster, op: Row.Op)
    requires Matched(x) && RowOnItsOwn(x, op)
    ensures Matched(x.(row := Row.Step(x.row, op)))
  {
    var y := x.(row := Row.Step(x.row, op));
    forall i | 0 <= i < |y.carries| ensures CarryOk(y, i) {
      assert CarryOk(x, i);
      ReadersRemain(x.row, op);
      if OpenCarry(x, i) { ReadersStay(x.row, op, x.carries[i].reader); }
    }
    forall k: nat, c: nat | k < |y.instances| && Open(y.instances[k], y.id, c) ensures Brought(y, k, c) {
      assert Brought(x, k, c);
    }
  }

  lemma BringMatched(x: Cluster, k: nat, r: nat)
    requires Matched(x) && CanBring(x, k, r)
    ensures Matched(Step(x, Bring(k, r)))
  {
    var y := Step(x, Bring(k, r));
    var n := |x.carries|;
    forall i | 0 <= i < |y.carries| ensures CarryOk(y, i) {
      if i < n { assert CarryOk(x, i); }
    }
    forall i, j | 0 <= i < j < |y.carries| ensures Apart(y.carries[i], y.carries[j]) {
      assert CarryOk(x, i);
      if j < n { assert Apart(x.carries[i], x.carries[j]); }
    }
    forall j: nat, c: nat | j < |y.instances| && Open(y.instances[j], y.id, c) ensures Brought(y, j, c) {
      if j == k && c == |x.instances[k].calls| {
        assert y.carries[n].instance == j && y.carries[n].call == c;
      } else {
        assert Open(x.instances[j], x.id, c) && Brought(x, j, c);
        var i :| 0 <= i < n && x.carries[i].instance == j && x.carries[i].call == c;
        assert y.carries[i] == x.carries[i];
      }
    }
  }

  /** The answer closes the call and nothing else. */
  lemma AnswerCloses(s: Local.State, id: Local.Id, c: nat, outcome: Local.UpdateOutcome, now: int)
    requires CreatesOnly(s) && Asking(s, id, c)
    ensures var t := Local.UpdatedOutcome(s, c, outcome, now);
      && CreatesOnly(t) && |t.calls| == |s.calls| && !Open(t, id, c)
      && forall d: nat :: Open(t, id, d) ==> Open(s, id, d)
  {
  }

  lemma AnswerMatched(x: Cluster, i: nat, now: int)
    requires Matched(x) && Ready(x, i)
    ensures Matched(Step(x, Answer(i, now)))
  {
    var k, c, r := x.carries[i].instance, x.carries[i].call, x.carries[i].reader;
    var y := Step(x, Answer(i, now));
    AnswerCloses(x.instances[k], x.id, c, RowOutcome(x.row), now);
    forall j | 0 <= j < |y.carries| ensures CarryOk(y, j) {
      assert CarryOk(x, j);
      if j != i { assert Apart(x.carries[i], x.carries[j]) || Apart(x.carries[j], x.carries[i]); }
    }
    forall j: nat, d: nat | j < |y.instances| && Open(y.instances[j], y.id, d) ensures Brought(y, j, d) {
      assert Brought(x, j, d);
    }
  }

  lemma StepMatched(x: Cluster, op: Op)
    requires Matched(x)
    ensures Matched(Step(x, op))
  {
    match op
    case RowStep(o) => if RowOnItsOwn(x, o) { RowMatched(x, o); }
    case LocalStep(k, regular, o) =>
      if k < |x.instances| && OnItsOwn(x.instances[k], x.id, o) {
        OwnStepOpensNone(x.instances[k], regular, o, x.id);
        InstanceMatched(x, k, Local.Step(x.instances[k], regular, o));
      }
    case Bring(k, r) => if CanBring(x, k, r) { BringMatched(x, k, r); }
    case Answer(i, now) => if Ready(x, i) { AnswerMatched(x, i, now); }
  }

  // ---------- whole runs ----------

  lemma {:induction false} RunAgrees(x: Cluster, ops: seq<Op>)
    requires Agrees(x) && Matched(x)
    ensures Agrees(Run(x, ops)) && Matched(Run(x, ops))
    decreases |ops|
  {
    if ops != [] {
      StepAgrees(x, ops[0]);
      StepMatched(x, ops[0]);
      RunAgrees(Step(x, ops[0]), ops[1..]);
    }
  }

  lemma EmptyIsSound(s: Local.State)
    requires s == Local.EMPTY
    ensures Local.Sound(s) && s.calls == []
  {
  }

  lemma FirstRowIsValid(row: Row.State, data: Row.Data)
    requires row == Row.Initial(data)
    ensures Row.Valid(row) && row.wins == []
  {
  }

  lemma NothingOpen(x: Cluster)
    requires x.carries == [] && forall k :: 0 <= k < |x.instances| ==> x.instances[k].calls == []
    ensures Matched(x)
  {
  }

  lemma StartAgrees(x: Cluster, data: Row.Data)
    requires Starts(x, data)
    ensures Agrees(x) && Matched(x)
  {
    FirstRowIsValid(x.row, data);
    forall k | 0 <= k < |x.instances| ensures Local.Sound(x.instances[k]) && x.instances[k].calls == [] {
      EmptyIsSound(x.instances[k]);
    }
    NothingOpen(x);
  }

  /**
   In every interleaving of any number of instances and callers, at most one resuming `add` succeeds between two entries
   of the row into waiting, and every instance's capacity ledger balances.
   */
  lemma OneAddPerEpisode(start: Cluster, data: Row.Data, ops: seq<Op>)
    requires Starts(start, data)
    ensures var x := Run(start, ops);
      && (forall i, j :: 0 <= i < j < |x.successes| ==> x.successes[i].episode < x.successes[j].episode)
      && (forall k :: 0 <= k < |x.instances| ==> Local.Ledger(x.instances[k]))
  {
    StartAgrees(start, data);
    RunAgrees(start, ops);
    var x := Run(start, ops);
    forall i, j | 0 <= i < j < |x.successes| ensures x.successes[i].episode < x.successes[j].episode {
      Row.WinsAscend(x.row, i, j);
    }
    forall k | 0 <= k < |x.instances| ensures Local.Ledger(x.instances[k]) { assert Local.Sound(x.instances[k]); }
  }

  /** A resuming call that asks for the row has a reader whose data it brings, and only one: it can be answered. */
  lemma AskingIsReady(start: Cluster, data: Row.Data, ops: seq<Op>)
    requires Starts(start, data)
    ensures var x := Run(start, ops);
      forall k: nat, c: nat :: k < |x.instances| && Asking(x.instances[k], x.id, c) ==>
        exists i: nat :: OnlyCarry(x, k, c, i) && Ready(x, i)
  {
    StartAgrees(start, data);
    RunAgrees(start, ops);
    var x := Run(start, ops);
    forall k: nat, c: nat | k < |x.instances| && Asking(x.instances[k], x.id, c)
      ensures exists i: nat :: OnlyCarry(x, k, c, i) && Ready(x, i)
    {
      assert Open(x.instances[k], x.id, c) && Brought(x, k, c);
      var i: nat :| i < |x.carries| && x.carries[i].instance == k && x.carries[i].call == c;
      assert CarryOk(x, i);
      forall j: nat | j < |x.carries| && x.carries[j].instance == k && x.carries[j].call == c ensures j == i {
        assert j < i ==> Apart(x.carries[j], x.carries[i]);
        assert i < j ==> Apart(x.carries[i], x.carries[j]);
      }
      assert OnlyCarry(x, k, c, i);
    }
  }

  predicate OnlyCarry(x: Cluster, k: nat, c: nat, i: nat) {
    && i < |x.carries| && x.carries[i].instance == k && x.carries[i].call == c
    && forall j :: 0 <= j < |x.carries| && x.carries[j].instance == k && x.carries[j].call == c ==> j == i
  }

  /**
   Of the calls that ask for the row, the one that finds it waiting gets an entry and the row runs on the data its own
   reader read; any other one raises the already-resuming error, gives its capacity back, and changes neither the
   row's data nor any table.
   */
  lemma RaceDecides(x: Cluster, i: nat, now: int)
    requires Agrees(x) && Ready(x, i)
    ensures var t := Step(x, Answer(i, now));
      var k, c, r := x.carries[i].instance, x.carries[i].call, x.carries[i].reader;
      && (forall j :: 0 <= j < |x.instances| && j != k ==> t.instances[j] == x.instances[j])
      && if x.row.status == Row.Waiting then
           && t.row.status == Row.Running && t.row.version == x.row.resumers[r].version
           && t.instances[k].calls[c].phase.Installed? && t.instances[k].calls[c].reservation == Local.Held
         else
           && t.row.status == x.row.status && t.row.version == x.row.version && t.row.saved == x.row.saved
           && t.instances[k].calls[c].phase == Local.Failed(true)
           && t.instances[k].calls[c].reservation == Local.Released
           && t.instances[k].execs == x.instances[k].execs && t.instances[k].table == x.instances[k].table
           && t.instances[k].responseModes == x.instances[k].responseModes
  {
    var s, c := x.instances[x.carries[i].instance], x.carries[i].call;
    assert Local.Sound(s);
    assert Local.CallOk(s, c);
    if x.row.status != Row.Waiting { Local.LoserLeavesNoTrace(s, c, now); }
  }

  // ---------- one resume from beginning to end ----------

  lemma RunOfTwo(x: Cluster, a: Op, b: Op)
    ensures Run(x, [a, b]) == Step(Step(x, a), b)
  {
    assert [a, b][1..] == [b] && [b][1..] == [];
    assert Run(Step(x, a), [b]) == Step(Step(x, a), b);
  }

  lemma RunOfFive(x: Cluster, a: Op, b: Op, c: Op, d: Op, e: Op)
    ensures Run(x, [a, b, c, d, e]) == Step(Step(Step(Step(Step(x, a), b), c), d), e)
  {
    assert [a, b, c, d, e][1..] == [b, c, d, e] && [b, c, d, e][1..] == [c, d, e] && [c, d, e][1..] == [d, e];
    var y := Step(Step(Step(x, a), b), c);
    RunOfTwo(y, d, e);
    assert Run(Step(Step(x, a), b), [c, d, e]) == Run(y, [d, e]);
  }

  /** A reader reads the row, and an instance calls `add` with what it read and gets its capacity. */
  lemma BroughtAndReserved(x: Cluster, k: nat, regular: bool, now: int)
    requires Matched(x) && k < |x.instances| && x.row.status != Row.Finished
    ensures var r, c, i := |x.row.resumers|, |x.instances[k].calls|, |x.carries|;
      var y := Step(Step(Step(Step(x, RowStep(Row.Begin)), RowStep(Row.Read(r))), Bring(k, r)),
                    LocalStep(k, regular, Local.Reserved(c, true, now)));
      && Ready(y, i) && y.carries[i] == Carry(k, c, r) && y.id == x.id && y.successes == x.successes
      && y.row.status == x.row.status && y.row.version == x.row.version && y.row.saved == x.row.saved
      && y.row.resumers[r] == Row.HasRead(x.row.version, x.row.childWrites)
      && y.instances[k].calls[c] == Local.Call(true, Local.Updating(x.id), Local.Held)
  {
    var r, c := |x.row.resumers|, |x.instances[k].calls|;
    var begun := Step(x, RowStep(Row.Begin));
    var read := Step(begun, RowStep(Row.Read(r)));
    assert read.row.resumers[r] == Row.HasRead(x.row.version, x.row.childWrites);
    forall i | 0 <= i < |read.carries| ensures read.carries[i].reader != r { assert CarryOk(x, i); }
    var brought := Step(read, Bring(k, r));
    assert brought.instances[k].calls[c] == Local.Call(true, Local.Reserving(x.id), Local.Idle);
    var y := Step(brought, LocalStep(k, regular, Local.Reserved(c, true, now)));
    assert y.instances[k].calls[c] == Local.Call(true, Local.Updating(x.id), Local.Held);
  }

  /**
   While the row waits, a resume that nothing interferes with goes through on any instance: the row runs on what it
   held, the call has an entry, and that entry is the one the instance finds under the id.
   */
  lemma ResumeGoesThrough(x: Cluster, k: nat, regular: bool, now: int)
    requires Matched(x) && k < |x.instances| && x.row.status == Row.Waiting
    ensures var r, c, i := |x.row.resumers|, |x.instances[k].calls|, |x.carries|;
      var y := Run(x, [RowStep(Row.Begin), RowStep(Row.Read(r)), Bring(k, r),
                       LocalStep(k, regular, Local.Reserved(c, true, now)), Answer(i, now)]);
      && y.row.status == Row.Running && y.row.version == x.row.version
      && y.successes == x.successes + [Success(k, c, |x.row.saved| - 1)]
      && k < |y.instances| && c < |y.instances[k].calls| && y.instances[k].calls[c].reservation == Local.Held
      && Local.Current(y.instances[k], x.id).Some?
      && y.instances[k].calls[c].phase == Local.Installed(Local.Current(y.instances[k], x.id).value)
  {
    var r, c, i := |x.row.resumers|, |x.instances[k].calls|, |x.carries|;
    var ask := LocalStep(k, regular, Local.Reserved(c, true, now));
    RunOfFive(x, RowStep(Row.Begin), RowStep(Row.Read(r)), Bring(k, r), ask, Answer(i, now));
    BroughtAndReserved(x, k, regular, now);
    AnswerInstalls(Step(Step(Step(Step(x, RowStep(Row.Begin)), RowStep(Row.Read(r))), Bring(k, r)), ask), i, now);
  }

  /** A call that finds the row waiting is installed as the current entry of the id. */
  lemma AnswerInstalls(x: Cluster, i: nat, now: int)
    requires Ready(x, i) && x.row.status == Row.Waiting
    ensures var k, c := x.carries[i].instance, x.carries[i].call;
      var y := Step(x, Answer(i, now));
      && y.row.status == Row.Running && y.row.version == x.row.resumers[x.carries[i].reader].version
      && y.successes == x.successes + [Success(k, c, |x.row.saved| - 1)]
      && k < |y.instances| && c < |y.instances[k].calls|
      && y.instances[k].calls[c].reservation == x.instances[k].calls[c].reservation
      && Local.Current(y.instances[k], x.id).Some?
      && y.instances[k].calls[c].phase == Local.Installed(Local.Current(y.instances[k], x.id).value)
  {
  }
}
