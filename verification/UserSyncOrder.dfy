/**
 When the order in which the tasks of a directory sync run decides its outcome (ldap.service.ts, applySyncChanges): the
 addresses that tasks take over from one another.
 */
module UserSyncOrder {
  import opened UserSync
  import opened Wrappers

  // ---------- taking over an address ----------

  /** Task i claims the address that the user of task j has at the start, and j is to give that user another one. */
  predicate Takes(m: Emails, init: Db, tasks: seq<Task>, i: nat, j: nat) {
    && i < |tasks| && j < |tasks| && i != j && tasks[j].Update? && TaskOk(init, tasks[j])
    && Target(init, tasks[j]) in init.users
    && Claim(m, tasks[i]) == Some(init.users[Target(init, tasks[j])].email)
  }

  ghost predicate ClaimsDistinct(m: Emails, tasks: seq<Task>) {
    forall i, j :: 0 <= i < j < |tasks| && Claim(m, tasks[i]).Some? ==> Claim(m, tasks[i]) != Claim(m, tasks[j])
  }

  predicate GivenUp(init: Db, tasks: seq<Task>, x: UserId) {
    exists j :: 0 <= j < |tasks| && tasks[j].Update? && TaskOk(init, tasks[j]) && Target(init, tasks[j]) == x
  }

  /** A claimed address that another user has is one that this user is to give up. */
  ghost predicate OwnersGiveUp(m: Emails, init: Db, tasks: seq<Task>)
    requires TasksOk(init, tasks)
  {
    forall i, x :: 0 <= i < |tasks| && x in init.users && !ClaimOk(m, init, tasks[i], x) ==> GivenUp(init, tasks, x)
  }

  /** Whoever takes an address over has a higher rank than the one it comes from: there is no cycle of takeovers. */
  ghost predicate Ranks(m: Emails, init: Db, tasks: seq<Task>, ranks: seq<nat>) {
    |ranks| == |tasks| && forall i: nat, j: nat :: Takes(m, init, tasks, i, j) ==> ranks[j] < ranks[i]
  }

  /** No address is claimed twice or kept by another user, and takeovers form no cycle. */
  ghost predicate Orderable(m: Emails, init: Db, tasks: seq<Task>)
    requires TasksOk(init, tasks)
  {
    ClaimsDistinct(m, tasks) && OwnersGiveUp(m, init, tasks) && exists ranks :: Ranks(m, init, tasks, ranks)
  }

  ghost predicate Committed(m: Emails, init: Db, tasks: seq<Task>, schedule: seq<nat>) {
    var s := Run(m, init, tasks, Begin(init, tasks), schedule);
    !s.aborted && Complete(s)
  }

  ghost predicate RolledBack(m: Emails, init: Db, tasks: seq<Task>, schedule: seq<nat>) {
    Run(m, init, tasks, Begin(init, tasks), schedule).aborted
  }

  ghost predicate Outcomes(m: Emails, init: Db, tasks: seq<Task>, a: seq<nat>, b: seq<nat>) {
    && (Committed(m, init, tasks, a) || RolledBack(m, init, tasks, a))
    && (Committed(m, init, tasks, b) || RolledBack(m, init, tasks, b))
    && Run(m, init, tasks, Begin(init, tasks), a).db != Run(m, init, tasks, Begin(init, tasks), b).db
  }

  /** Two interleavings that run to their end leave different databases. */
  ghost predicate DependsOnOrder(m: Emails, init: Db, tasks: seq<Task>) {
    exists a, b :: Outcomes(m, init, tasks, a, b)
  }

  // ---------- an order in which the tasks succeed ----------

  /** What a task writes into the address column, if it writes. */
  function Address(m: Emails, init: Db, t: Task): Option<Text>
    requires TaskOk(init, t)
  {
    if !t.Disable? then Claim(m, t)
    else match UserAt(init, Target(init, t)) case Some(row) => Some(row.email) case None => None
  }

  predicate FreeOf(m: Emails, init: Db, t: Task, row: User)
    requires TaskOk(init, t)
  {
    Address(m, init, t) != Some(row.email)
  }

  /** No other user has the address the task is going to write. */
  ghost predicate Free(m: Emails, init: Db, users: map<UserId, User>, t: Task)
    requires TaskOk(init, t)
  {
    forall x :: x in users && x != Target(init, t) ==> FreeOf(m, init, t, users[x])
  }

  /** The steps a task has before it. */
  function Left(t: Task, pc: Pc): nat {
    match pc
    case Todo => if t.Create? then 2 else 4
    case Linked(_) => 3
    case Loaded(_, _) => 2
    case Saved(_) => 1
    case Inserted => 1
    case Done => 0
  }

  lemma FreeStep(m: Emails, init: Db, tasks: seq<Task>, s: Sync, i: nat)
    requires Sane(m, init) && TasksOk(init, tasks) && Matches(m, init, tasks, s) && !s.aborted && i < |tasks|
    requires TaskOk(init, tasks[i]) && Free(m, init, s.db.users, tasks[i]) && s.pcs[i] != Done
    ensures var t := Step(m, init, tasks, s, i);
      !t.aborted && |t.pcs| == |tasks| && Left(tasks[i], t.pcs[i]) < Left(tasks[i], s.pcs[i])
  {
    assert TaskMatches(m, init, s.db, tasks[i], s.pcs[i]);
  }

  lemma FreeStays(m: Emails, init: Db, t: Task, before: Db, after: Db)
    requires TaskOk(init, t) && Free(m, init, before.users, t)
    requires forall x :: x != Target(init, t) ==> UserAt(after, x) == UserAt(before, x)
    ensures Free(m, init, after.users, t)
  {
    forall x | x in after.users && x != Target(init, t) ensures FreeOf(m, init, t, after.users[x]) {
      assert UserAt(after, x) == UserAt(before, x);
    }
  }

  /** Left to itself, a task whose address is free completes, and no other task moves. */
  lemma {:induction false} RunsAlone(m: Emails, init: Db, tasks: seq<Task>, s: Sync, i: nat)
    returns (schedule: seq<nat>)
    requires Sane(m, init) && TasksOk(init, tasks) && Matches(m, init, tasks, s) && !s.aborted && i < |tasks|
    requires TaskOk(init, tasks[i]) && Free(m, init, s.db.users, tasks[i])
    ensures var t := Run(m, init, tasks, s, schedule);
      && !t.aborted && Matches(m, init, tasks, t) && t.pcs[i] == Done
      && forall j :: 0 <= j < |tasks| && j != i ==> t.pcs[j] == s.pcs[j]
    decreases Left(tasks[i], s.pcs[i])
  {
    if s.pcs[i] == Done {
      schedule := [];
    } else {
      var t := Step(m, init, tasks, s, i);
      FreeStep(m, init, tasks, s, i);
      StepMoves(m, init, tasks, s, i);
      StepKeeps(m, init, tasks, s, i);
      FreeStays(m, init, tasks[i], s.db, t.db);
      var rest := RunsAlone(m, init, tasks, t, i);
      schedule := [i] + rest;
      assert schedule[1..] == rest;
    }
  }

  predicate Settled(pc: Pc) { pc == Todo || pc == Done }

  /** The row of another task's user is no obstacle: that task is done where it had to go first. */
  lemma RowIsFree(m: Emails, init: Db, tasks: seq<Task>, i: nat, j: nat, pc: Pc)
    requires Sane(m, init) && TasksOk(init, tasks) && ClaimsDistinct(m, tasks) && OwnersGiveUp(m, init, tasks)
    requires i < |tasks| && j < |tasks| && i != j && Settled(pc) && (Takes(m, init, tasks, i, j) ==> pc == Done)
    requires TaskOk(init, tasks[i]) && TaskOk(init, tasks[j])
    ensures RowAt(m, init, tasks[j], pc).Some? ==> FreeOf(m, init, tasks[i], RowAt(m, init, tasks[j], pc).value)
  {
    TargetsApart(init, tasks, i, j);
    var own, other := Target(init, tasks[i]), Target(init, tasks[j]);
    assert i < j ==> Claim(m, tasks[i]).Some? ==> Claim(m, tasks[i]) != Claim(m, tasks[j]);
    assert j < i ==> Claim(m, tasks[j]).Some? ==> Claim(m, tasks[j]) != Claim(m, tasks[i]);
    if own in init.users && !ClaimOk(m, init, tasks[j], own) {
      OnlyUpdatesGiveUp(m, init, tasks, i, j);
    }
    if other in init.users && !ClaimOk(m, init, tasks[i], other) {
      OnlyUpdatesGiveUp(m, init, tasks, j, i);
    }
  }

  /** The task of a user whose address another task claims is an update. */
  lemma OnlyUpdatesGiveUp(m: Emails, init: Db, tasks: seq<Task>, i: nat, j: nat)
    requires TasksOk(init, tasks) && OwnersGiveUp(m, init, tasks) && i < |tasks| && j < |tasks|
    requires TaskOk(init, tasks[i]) && TaskOk(init, tasks[j]) && Target(init, tasks[i]) in init.users
    requires !ClaimOk(m, init, tasks[j], Target(init, tasks[i]))
    ensures tasks[i].Update?
  {
    var x := Target(init, tasks[i]);
    assert GivenUp(init, tasks, x);
    var k :| 0 <= k < |tasks| && tasks[k].Update? && TaskOk(init, tasks[k]) && Target(init, tasks[k]) == x;
    TargetsApart(init, tasks, i, k);
  }

  lemma AddressIsFree(m: Emails, init: Db, tasks: seq<Task>, s: Sync, i: nat)
    requires Sane(m, init) && TasksOk(init, tasks) && ClaimsDistinct(m, tasks) && OwnersGiveUp(m, init, tasks)
    requires Matches(m, init, tasks, s) && i < |tasks| && TaskOk(init, tasks[i])
    requires forall j :: 0 <= j < |tasks| ==> Settled(s.pcs[j]) && (Takes(m, init, tasks, i, j) ==> s.pcs[j] == Done)
    ensures Free(m, init, s.db.users, tasks[i])
  {
    forall x | x in s.db.users && x != Target(init, tasks[i]) ensures FreeOf(m, init, tasks[i], s.db.users[x]) {
      assert UserAt(s.db, x) == Some(s.db.users[x]);
      if j :| 0 <= j < |tasks| && TaskOk(init, tasks[j]) && Target(init, tasks[j]) == x {
        assert TaskMatches(m, init, s.db, tasks[j], s.pcs[j]);
        RowIsFree(m, init, tasks, i, j, s.pcs[j]);
      } else {
        assert UserAt(s.db, x) == UserAt(init, x);
        UntouchedIsFree(m, init, tasks, i, x);
      }
    }
  }

  lemma UntouchedIsFree(m: Emails, init: Db, tasks: seq<Task>, i: nat, x: UserId)
    requires Sane(m, init) && TasksOk(init, tasks) && OwnersGiveUp(m, init, tasks) && i < |tasks|
    requires TaskOk(init, tasks[i]) && x in init.users && x != Target(init, tasks[i]) && !IsTarget(init, tasks, x)
    ensures FreeOf(m, init, tasks[i], init.users[x])
  {
    assert ClaimOk(m, init, tasks[i], x);
  }

  function Waiting(pcs: seq<Pc>): nat {
    if pcs == [] then 0 else (if pcs[0] == Todo then 1 else 0) + Waiting(pcs[1..])
  }

  lemma {:induction false} FewerWaiting(a: seq<Pc>, b: seq<Pc>, i: nat)
    requires |a| == |b| && i < |a| && a[i] == Todo && b[i] == Done
    requires forall j :: 0 <= j < |a| && j != i ==> b[j] == a[j]
    ensures Waiting(b) < Waiting(a)
  {
    if i == 0 {
      assert a[1..] == b[1..];
    } else {
      FewerWaiting(a[1..], b[1..], i - 1);
    }
  }

  /** A waiting task of the lowest rank. */
  lemma {:induction false} NextInOrder(pcs: seq<Pc>, ranks: seq<nat>, n: nat) returns (i: nat)
    requires n <= |pcs| == |ranks| && exists j :: 0 <= j < n && pcs[j] == Todo
    ensures i < n && pcs[i] == Todo && forall j :: 0 <= j < n && pcs[j] == Todo ==> ranks[i] <= ranks[j]
  {
    if pcs[n - 1] == Todo && forall j :: 0 <= j < n - 1 ==> pcs[j] != Todo {
      i := n - 1;
    } else {
      i := NextInOrder(pcs, ranks, n - 1);
      if pcs[n - 1] == Todo && ranks[n - 1] < ranks[i] { i := n - 1; }
    }
  }

  lemma {:induction false} RunsInOrder(m: Emails, init: Db, tasks: seq<Task>, ranks: seq<nat>, s: Sync)
      returns (schedule: seq<nat>)
    requires Sane(m, init) && TasksOk(init, tasks) && ClaimsDistinct(m, tasks) && OwnersGiveUp(m, init, tasks)
    requires Ranks(m, init, tasks, ranks) && Matches(m, init, tasks, s) && !s.aborted
    requires forall j :: 0 <= j < |tasks| ==> Settled(s.pcs[j])
    ensures var t := Run(m, init, tasks, s, schedule); !t.aborted && Complete(t)
    decreases Waiting(s.pcs)
  {
    if forall j :: 0 <= j < |tasks| ==> s.pcs[j] == Done {
      schedule := [];
    } else {
      var first := RunsNext(m, init, tasks, ranks, s);
      var rest := RunsInOrder(m, init, tasks, ranks, Run(m, init, tasks, s, first));
      RunConcat(m, init, tasks, s, first, rest);
      schedule := first + rest;
    }
  }

  /** A task of the lowest rank among those that wait runs to its end. */
  lemma RunsNext(m: Emails, init: Db, tasks: seq<Task>, ranks: seq<nat>, s: Sync) returns (schedule: seq<nat>)
    requires Sane(m, init) && TasksOk(init, tasks) && ClaimsDistinct(m, tasks) && OwnersGiveUp(m, init, tasks)
    requires Ranks(m, init, tasks, ranks) && Matches(m, init, tasks, s) && !s.aborted
    requires forall j :: 0 <= j < |tasks| ==> Settled(s.pcs[j])
    requires exists j :: 0 <= j < |tasks| && s.pcs[j] != Done
    ensures var t := Run(m, init, tasks, s, schedule);
      && !t.aborted && Matches(m, init, tasks, t) && Waiting(t.pcs) < Waiting(s.pcs)
      && forall j :: 0 <= j < |tasks| ==> Settled(t.pcs[j])
  {
    var j :| 0 <= j < |tasks| && s.pcs[j] != Done;
    assert s.pcs[j] == Todo;
    var i := NextInOrder(s.pcs, ranks, |tasks|);
    assert TaskOk(init, tasks[i]);
    AddressIsFree(m, init, tasks, s, i);
    schedule := RunsAlone(m, init, tasks, s, i);
    FewerWaiting(s.pcs, Run(m, init, tasks, s, schedule).pcs, i);
  }

  lemma OrderableCommits(m: Emails, init: Db, tasks: seq<Task>) returns (schedule: seq<nat>)
    requires Sane(m, init) && TasksOk(init, tasks) && Orderable(m, init, tasks)
    ensures Committed(m, init, tasks, schedule)
  {
    var ranks :| Ranks(m, init, tasks, ranks);
    BeginMatches(m, init, tasks);
    schedule := RunsInOrder(m, init, tasks, ranks, Begin(init, tasks));
  }

  // ---------- what a committed run shows ----------

  /** A task that is done has its claim, if it has one, with its user. */
  lemma ClaimStands(m: Emails, init: Db, tasks: seq<Task>, s: Sync, i: nat)
    requires Sane(m, init) && TasksOk(init, tasks) && Matches(m, init, tasks, s) && i < |tasks|
    requires TaskOk(init, tasks[i]) && Claim(m, tasks[i]).Some? && (s.pcs[i] == Done || s.pcs[i] == Inserted)
    ensures var x := Target(init, tasks[i]); x in s.db.users && s.db.users[x].email == Claim(m, tasks[i]).value
  {
    assert TaskMatches(m, init, s.db, tasks[i], s.pcs[i]);
    assert UserAt(s.db, Target(init, tasks[i])).Some?;
  }

  predicate Written(s: Sync, i: nat) { i < |s.pcs| && (s.pcs[i] == Done || s.pcs[i] == Inserted) }

  /** While both addresses stand apart, an address is taken over only once it has been given up. */
  lemma TakenIsGivenUp(m: Emails, init: Db, tasks: seq<Task>, s: Sync, i: nat, j: nat)
    requires Sane(m, init) && TasksOk(init, tasks) && Matches(m, init, tasks, s) && AddressesOk(m, s.db.users)
    requires Takes(m, init, tasks, i, j) && Written(s, i)
    ensures Written(s, j)
  {
    TargetsApart(init, tasks, i, j);
    ClaimStands(m, init, tasks, s, i);
    assert TaskMatches(m, init, s.db, tasks[j], s.pcs[j]);
  }

  /** How many steps of the schedule pass before the task has written. */
  function Wait(m: Emails, init: Db, tasks: seq<Task>, s: Sync, schedule: seq<nat>, i: nat): nat
    decreases |schedule|
  {
    if schedule == [] || Written(s, i) then 0
    else 1 + Wait(m, init, tasks, Step(m, init, tasks, s, schedule[0]), schedule[1..], i)
  }

  lemma {:induction false} AbortedForGood(m: Emails, init: Db, tasks: seq<Task>, s: Sync, schedule: seq<nat>)
    requires s.aborted
    ensures Run(m, init, tasks, s, schedule).aborted
    decreases |schedule|
  {
    if schedule != [] { AbortedForGood(m, init, tasks, Step(m, init, tasks, s, schedule[0]), schedule[1..]); }
  }

  lemma WritesOneAtATime(m: Emails, init: Db, tasks: seq<Task>, s: Sync, k: nat, i: nat, j: nat)
    requires Sane(m, init) && TasksOk(init, tasks) && LowerTwice(m) && Matches(m, init, tasks, s) && !s.aborted
    requires AddressesOk(m, s.db.users) && Takes(m, init, tasks, i, j) && !Written(s, i) && !Written(s, j)
    requires !Step(m, init, tasks, s, k).aborted
    ensures !Written(Step(m, init, tasks, s, k), i)
  {
    var t := Step(m, init, tasks, s, k);
    StepKeeps(m, init, tasks, s, k);
    StepKeepsAddresses(m, init, tasks, s, k);
    if k < |tasks| { StepMoves(m, init, tasks, s, k); }
    if Written(t, i) { TakenIsGivenUp(m, init, tasks, t, i, j); }
  }

  lemma {:induction false} GivenUpFirst(m: Emails, init: Db, tasks: seq<Task>, s: Sync, schedule: seq<nat>, i: nat,
                                        j: nat)
    requires Sane(m, init) && TasksOk(init, tasks) && LowerTwice(m) && Matches(m, init, tasks, s) && !s.aborted
    requires AddressesOk(m, s.db.users) && Takes(m, init, tasks, i, j) && !Written(s, i)
    requires var t := Run(m, init, tasks, s, schedule); !t.aborted && Complete(t)
    ensures Wait(m, init, tasks, s, schedule, j) < Wait(m, init, tasks, s, schedule, i)
    decreases |schedule|
  {
    assert schedule != [];
    if !Written(s, j) {
      var t := Step(m, init, tasks, s, schedule[0]);
      if t.aborted { AbortedForGood(m, init, tasks, t, schedule[1..]); }
      WritesOneAtATime(m, init, tasks, s, schedule[0], i, j);
      StepKeeps(m, init, tasks, s, schedule[0]);
      StepKeepsAddresses(m, init, tasks, s, schedule[0]);
      GivenUpFirst(m, init, tasks, t, schedule[1..], i, j);
    }
  }

  lemma CommittedClaimsDistinct(m: Emails, init: Db, tasks: seq<Task>, s: Sync)
    requires Sane(m, init) && TasksOk(init, tasks) && Matches(m, init, tasks, s) && AddressesOk(m, s.db.users)
    requires Complete(s)
    ensures ClaimsDistinct(m, tasks)
  {
    forall i, j | 0 <= i < j < |tasks| && Claim(m, tasks[i]).Some? ensures Claim(m, tasks[i]) != Claim(m, tasks[j]) {
      TargetsApart(init, tasks, i, j);
      if Claim(m, tasks[j]).Some? {
        ClaimStands(m, init, tasks, s, i);
        ClaimStands(m, init, tasks, s, j);
      }
    }
  }

  lemma CommittedOwnersGiveUp(m: Emails, init: Db, tasks: seq<Task>, s: Sync)
    requires Sane(m, init) && TasksOk(init, tasks) && Matches(m, init, tasks, s) && AddressesOk(m, s.db.users)
    requires Complete(s)
    ensures OwnersGiveUp(m, init, tasks)
  {
    forall i, x | 0 <= i < |tasks| && x in init.users && !ClaimOk(m, init, tasks[i], x)
      ensures GivenUp(init, tasks, x)
    {
      assert TaskOk(init, tasks[i]);
      ClaimStands(m, init, tasks, s, i);
      if !GivenUp(init, tasks, x) { KeepsAddress(m, init, tasks, s, x); }
    }
  }

  lemma KeepsAddress(m: Emails, init: Db, tasks: seq<Task>, s: Sync, x: UserId)
    requires TasksOk(init, tasks) && Matches(m, init, tasks, s) && x in init.users && !GivenUp(init, tasks, x)
    ensures x in s.db.users && s.db.users[x].email == init.users[x].email
  {
    if j :| 0 <= j < |tasks| && TaskOk(init, tasks[j]) && Target(init, tasks[j]) == x {
      assert TaskMatches(m, init, s.db, tasks[j], s.pcs[j]);
      assert !tasks[j].Update?;
      assert UserAt(s.db, x).Some?;
    } else {
      assert UserAt(s.db, x) == UserAt(init, x);
    }
  }

  lemma CommittedOrderable(m: Emails, init: Db, tasks: seq<Task>, schedule: seq<nat>)
    requires Sane(m, init) && TasksOk(init, tasks) && LowerTwice(m) && Committed(m, init, tasks, schedule)
    ensures Orderable(m, init, tasks)
  {
    var begin := Begin(init, tasks);
    var s := Run(m, init, tasks, begin, schedule);
    BeginMatches(m, init, tasks);
    RunSound(m, init, tasks, begin, schedule);
    RunKeepsAddresses(m, init, tasks, begin, schedule);
    CommittedClaimsDistinct(m, init, tasks, s);
    CommittedOwnersGiveUp(m, init, tasks, s);
    var ranks := seq(|tasks|, i requires 0 <= i < |tasks| => Wait(m, init, tasks, begin, schedule, i));
    forall i: nat, j: nat | Takes(m, init, tasks, i, j) ensures ranks[j] < ranks[i] {
      GivenUpFirst(m, init, tasks, begin, schedule, i, j);
    }
    assert Ranks(m, init, tasks, ranks);
  }

  /**
   Some interleaving commits if and only if no two tasks claim one address, no task claims an address that its owner
   keeps, and the takeovers form no cycle.
   */
  lemma SomeOrderCommitsExactly(m: Emails, init: Db, tasks: seq<Task>)
    requires Sane(m, init) && TasksOk(init, tasks) && LowerTwice(m)
    ensures (exists schedule :: Committed(m, init, tasks, schedule)) <==> Orderable(m, init, tasks)
  {
    if Orderable(m, init, tasks) {
      var schedule := OrderableCommits(m, init, tasks);
    }
    if schedule :| Committed(m, init, tasks, schedule) {
      CommittedOrderable(m, init, tasks, schedule);
    }
  }

  // ---------- the order decides ----------

  predicate SomeTakeover(m: Emails, init: Db, tasks: seq<Task>) {
    exists i, j :: 0 <= i < |tasks| && 0 <= j < |tasks| && Takes(m, init, tasks, i, j)
  }

  /** Where claims are distinct and owners give up what is claimed, a conflict is a takeover. */
  lemma ConflictIsTakeover(m: Emails, init: Db, tasks: seq<Task>)
    requires TasksOk(init, tasks) && ClaimsDistinct(m, tasks) && OwnersGiveUp(m, init, tasks)
    ensures ConflictFree(m, init, tasks) <==> !SomeTakeover(m, init, tasks)
  {
    if i, x :| 0 <= i < |tasks| && x in init.users && !ClaimOk(m, init, tasks[i], x) {
      assert GivenUp(init, tasks, x) && TaskOk(init, tasks[i]);
      var j :| 0 <= j < |tasks| && tasks[j].Update? && TaskOk(init, tasks[j]) && Target(init, tasks[j]) == x;
      assert Takes(m, init, tasks, i, j);
    }
    if i, j :| 0 <= i < |tasks| && 0 <= j < |tasks| && Takes(m, init, tasks, i, j) {
      TargetsApart(init, tasks, i, j);
      assert !ClaimOk(m, init, tasks[i], Target(init, tasks[j]));
    }
  }

  /** A committed takeover has changed the database. */
  lemma TakeoverShows(m: Emails, init: Db, tasks: seq<Task>, schedule: seq<nat>, i: nat, j: nat)
    requires Sane(m, init) && TasksOk(init, tasks) && LowerTwice(m) && Committed(m, init, tasks, schedule)
    requires Takes(m, init, tasks, i, j)
    ensures Run(m, init, tasks, Begin(init, tasks), schedule).db != init
  {
    var s := Run(m, init, tasks, Begin(init, tasks), schedule);
    BeginMatches(m, init, tasks);
    RunSound(m, init, tasks, Begin(init, tasks), schedule);
    TargetsApart(init, tasks, i, j);
    ClaimStands(m, init, tasks, s, i);
  }

  /**
   The outcome of a sync depends on the order of its tasks if and only if there are takeovers, they form no cycle, no
   two tasks claim one address, and no task claims an address that its owner keeps. Then one order commits and another
   is rolled back; in all other cases every interleaving that ends leaves the same database.
   */
  lemma DependsOnOrderExactly(m: Emails, init: Db, tasks: seq<Task>)
    requires Sane(m, init) && TasksOk(init, tasks) && LowerTwice(m)
    ensures DependsOnOrder(m, init, tasks) <==> Orderable(m, init, tasks) && SomeTakeover(m, init, tasks)
  {
    if Orderable(m, init, tasks) && SomeTakeover(m, init, tasks) {
      var i, j :| 0 <= i < |tasks| && 0 <= j < |tasks| && Takes(m, init, tasks, i, j);
      ConflictIsTakeover(m, init, tasks);
      var a := OrderableCommits(m, init, tasks);
      var b := ConflictAborts(m, init, tasks);
      TakeoverShows(m, init, tasks, a, i, j);
      BeginMatches(m, init, tasks);
      RunSound(m, init, tasks, Begin(init, tasks), b);
      assert Outcomes(m, init, tasks, a, b);
    }
    if a, b :| Outcomes(m, init, tasks, a, b) {
      DifferingOutcomes(m, init, tasks, a, b);
    }
  }

  lemma DifferingOutcomes(m: Emails, init: Db, tasks: seq<Task>, a: seq<nat>, b: seq<nat>)
    requires Sane(m, init) && TasksOk(init, tasks) && LowerTwice(m) && Outcomes(m, init, tasks, a, b)
    ensures Orderable(m, init, tasks) && SomeTakeover(m, init, tasks)
  {
    BeginMatches(m, init, tasks);
    RunSound(m, init, tasks, Begin(init, tasks), a);
    RunSound(m, init, tasks, Begin(init, tasks), b);
    if Committed(m, init, tasks, a) && Committed(m, init, tasks, b) {
      Converges(m, init, tasks, a, b);
    }
    var back := if Committed(m, init, tasks, a) then b else a;
    CommittedOrderable(m, init, tasks, if Committed(m, init, tasks, a) then a else b);
    assert Run(m, init, tasks, Begin(init, tasks), back).aborted;
    ConflictIsTakeover(m, init, tasks);
    if ConflictFree(m, init, tasks) { RunCommits(m, init, tasks, Begin(init, tasks), back); }
  }

  // ---------- handing over and exchanging ----------

  function Plainly(): Emails { Emails(e => e, _ => true) }

  function Directory(first: Text, second: Text): seq<Task> {
    [Update(1, Remote(1, first, 0, 0)), Update(2, Remote(2, second, 0, 0))]
  }

  const TWO_USERS: Db := Db(map[1 := User(10, 0, 0, false), 2 := User(20, 0, 0, false)],
                            map[1 := Identity(1, true), 2 := Identity(2, true)])

  lemma TwoUsersAreSane(first: Text, second: Text)
    ensures Sane(Plainly(), TWO_USERS) && LowerTwice(Plainly()) && TasksOk(TWO_USERS, Directory(first, second))
  {
    var tasks := Directory(first, second);
    assert TaskOk(TWO_USERS, tasks[0]) && TaskOk(TWO_USERS, tasks[1]) && Apart(TWO_USERS, tasks[0], tasks[1]);
    assert AddressesOk(Plainly(), TWO_USERS.users);
  }

  /** User 1 takes over address 20 while user 2 moves on to 30: one order commits, another is rolled back. */
  lemma HandoverDependsOnOrder()
    ensures DependsOnOrder(Plainly(), TWO_USERS, Directory(20, 30))
  {
    var m, tasks := Plainly(), Directory(20, 30);
    TwoUsersAreSane(20, 30);
    assert Takes(m, TWO_USERS, tasks, 0, 1);
    assert Ranks(m, TWO_USERS, tasks, [1, 0]);
    assert GivenUp(TWO_USERS, tasks, 2);
    DependsOnOrderExactly(m, TWO_USERS, tasks);
  }

  /** Two users who exchange addresses are never both updated: every interleaving is rolled back or does not end. */
  lemma ExchangeNeverCommits(schedule: seq<nat>)
    ensures !Committed(Plainly(), TWO_USERS, Directory(20, 10), schedule)
  {
    var m, tasks := Plainly(), Directory(20, 10);
    TwoUsersAreSane(20, 10);
    assert Takes(m, TWO_USERS, tasks, 0, 1) && Takes(m, TWO_USERS, tasks, 1, 0);
    if Committed(m, TWO_USERS, tasks, schedule) {
      CommittedOrderable(m, TWO_USERS, tasks, schedule);
    }
  }
}
