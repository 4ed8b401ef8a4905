/**
 Synchronising users with a directory (ldap.service.ts): the three differences, and applying them by concurrent tasks
 inside one transaction. Each task step is what happens between two `await`s. Ids and texts are numbers here.
 */
module UserSync {
  import opened Wrappers

  type UserId = nat

  /** The id of a directory entry, which is the provider id of an identity. */
  type Uid = nat

  type Text = nat

  datatype User = User(email: Text, firstName: Text, lastName: Text, disabled: bool)

  datatype Identity = Identity(user: UserId, ldap: bool)

  datatype Db = Db(users: map<UserId, User>, identities: map<Uid, Identity>)

  /** A directory entry with the attributes of the configuration already picked. */
  datatype Remote = Remote(id: Uid, email: Text, firstName: Text, lastName: Text)

  /** `toLowerCase` and `isValidEmail`. */
  datatype Emails = Emails(lower: Text -> Text, valid: Text -> bool)

  // ---------- the differences ----------

  datatype Task =
    | Create(uid: Uid, user: UserId, fields: Remote)
    | Update(uid: Uid, fields: Remote)
    | Disable(uid: Uid)

  /** `uuid` is the id the database will give the user created for an entry. */
  function ValidCreates(m: Emails, remote: seq<Remote>, local: seq<Uid>, uuid: Uid -> UserId): seq<Task> {
    if remote == [] then [] else
      var r := remote[0];
      (if r.id !in local && m.valid(r.email) then [Create(r.id, uuid(r.id), r)] else [])
      + ValidCreates(m, remote[1..], local, uuid)
  }

  function ValidUpdates(m: Emails, remote: seq<Remote>, local: seq<Uid>): seq<Task> {
    if remote == [] then [] else
      var r := remote[0];
      (if r.id in local && m.valid(r.email) then [Update(r.id, r)] else []) + ValidUpdates(m, remote[1..], local)
  }

  predicate InRemote(remote: seq<Remote>, id: Uid) {
    exists i :: 0 <= i < |remote| && remote[i].id == id
  }

  function Disables(remote: seq<Remote>, local: seq<Uid>): seq<Task> {
    if local == [] then [] else
      (if InRemote(remote, local[0]) then [] else [Disable(local[0])]) + Disables(remote, local[1..])
  }

  function Plan(m: Emails, remote: seq<Remote>, local: seq<Uid>, uuid: Uid -> UserId): seq<Task> {
    ValidCreates(m, remote, local, uuid) + ValidUpdates(m, remote, local) + Disables(remote, local)
  }

  // ---------- the concurrent tasks ----------

  /** How far a task has come, with what it has read. */
  datatype Pc = Todo | Linked(user: UserId) | Loaded(user: UserId, row: User) | Saved(user: UserId) | Inserted | Done

  datatype Sync = Sync(db: Db, pcs: seq<Pc>, aborted: bool)

  function Begin(db: Db, tasks: seq<Task>): Sync { Sync(db, seq(|tasks|, _ => Todo), false) }

  /** Another user has this address; the column is unique. */
  predicate Taken(users: map<UserId, User>, email: Text, user: UserId) {
    exists x :: x in users && x != user && users[x].email == email
  }

  function NewUser(m: Emails, r: Remote): User { User(m.lower(r.email), r.firstName, r.lastName, false) }

  predicate Differs(row: User, r: Remote) {
    row.email != r.email || row.firstName != r.firstName || row.lastName != r.lastName
  }

  /** Saving lower-cases the address. */
  function Updated(m: Emails, row: User, r: Remote): User {
    if Differs(row, r) then row.(email := m.lower(r.email), firstName := r.firstName, lastName := r.lastName) else row
  }

  function Move(s: Sync, i: nat, pc: Pc): Sync
    requires i < |s.pcs|
  {
    s.(pcs := s.pcs[i := pc])
  }

  /** Writing a user; a clash of addresses fails the query and rolls the transaction back to `init`. */
  function SaveUser(init: Db, s: Sync, i: nat, x: UserId, row: User, pc: Pc): Sync
    requires i < |s.pcs|
  {
    if Taken(s.db.users, row.email, x) then Sync(init, s.pcs, true)
    else Move(s.(db := s.db.(users := s.db.users[x := row])), i, pc)
  }

  function StepCreate(m: Emails, init: Db, s: Sync, i: nat, t: Task): Sync
    requires i < |s.pcs| && t.Create?
  {
    match s.pcs[i]
    case Todo => SaveUser(init, s, i, t.user, NewUser(m, t.fields), Inserted)
    case Inserted =>
      Move(s.(db := s.db.(identities := s.db.identities[t.uid := Identity(t.user, true)])), i, Done)
    case _ => s
  }

  function StepUpdate(m: Emails, init: Db, s: Sync, i: nat, t: Task): Sync
    requires i < |s.pcs| && t.Update?
  {
    match s.pcs[i]
    case Todo => Move(s, i, if t.uid in s.db.identities then Linked(s.db.identities[t.uid].user) else Done)
    case Linked(x) =>
      if x in s.db.users && Differs(s.db.users[x], t.fields) then Move(s, i, Loaded(x, s.db.users[x]))
      else Move(s, i, Done)
    case Loaded(x, row) => SaveUser(init, s, i, x, Updated(m, row, t.fields), Done)
    case _ => s
  }

  function StepDisable(init: Db, s: Sync, i: nat, t: Task): Sync
    requires i < |s.pcs| && t.Disable?
  {
    match s.pcs[i]
    case Todo => Move(s, i, if t.uid in s.db.identities then Linked(s.db.identities[t.uid].user) else Done)
    case Linked(x) => Move(s, i, if x in s.db.users then Loaded(x, s.db.users[x]) else Saved(x))
    case Loaded(x, row) => SaveUser(init, s, i, x, row.(disabled := true), Saved(x))
    case Saved(x) =>
      var left := map p | p in s.db.identities && s.db.identities[p].user != x :: s.db.identities[p];
      Move(s.(db := s.db.(identities := left)), i, Done)
    case _ => s
  }

  function Step(m: Emails, init: Db, tasks: seq<Task>, s: Sync, i: nat): Sync {
    if s.aborted || i >= |tasks| || |s.pcs| != |tasks| then s
    else match tasks[i]
      case Create(_, _, _) => StepCreate(m, init, s, i, tasks[i])
      case Update(_, _) => StepUpdate(m, init, s, i, tasks[i])
      case Disable(_) => StepDisable(init, s, i, tasks[i])
  }

  /** A schedule names the task that moves next. */
  function Run(m: Emails, init: Db, tasks: seq<Task>, s: Sync, schedule: seq<nat>): Sync
    decreases |schedule|
  {
    if schedule == [] then s else Run(m, init, tasks, Step(m, init, tasks, s, schedule[0]), schedule[1..])
  }

  predicate Complete(s: Sync) { forall i :: 0 <= i < |s.pcs| ==> s.pcs[i] == Done }

  // ---------- what the tasks may rely on ----------

  /** No address is used twice, and every stored address is in lower case. */
  ghost predicate AddressesOk(m: Emails, users: map<UserId, User>) {
    && (forall x, y :: x in users && y in users && users[x].email == users[y].email ==> x == y)
    && (forall x :: x in users ==> m.lower(users[x].email) == users[x].email)
  }

  /** Identities belong to users, and no user has two. */
  ghost predicate Sane(m: Emails, db: Db) {
    && (forall p :: p in db.identities ==> db.identities[p].user in db.users)
    && (forall p, q :: p in db.identities && q in db.identities && db.identities[p].user == db.identities[q].user ==>
          p == q)
    && AddressesOk(m, db.users)
  }

  /** The user a task is about. */
  function Target(db: Db, t: Task): UserId
    requires !t.Create? ==> t.uid in db.identities
  {
    if t.Create? then t.user else db.identities[t.uid].user
  }

  predicate TaskOk(db: Db, t: Task) {
    if t.Create? then t.uid !in db.identities && t.user !in db.users else t.uid in db.identities
  }

  ghost predicate TasksOk(db: Db, tasks: seq<Task>) {
    && (forall i :: 0 <= i < |tasks| ==> TaskOk(db, tasks[i]))
    && (forall i, j :: 0 <= i < j < |tasks| ==> Apart(db, tasks[i], tasks[j]))
  }

  predicate Apart(db: Db, t: Task, u: Task)
    requires TaskOk(db, t) && TaskOk(db, u)
  {
    t.uid != u.uid && Target(db, t) != Target(db, u)
  }

  // ---------- where a task has got to, read off the database ----------

  function UserAt(db: Db, x: UserId): Option<User> { if x in db.users then Some(db.users[x]) else None }

  function IdentityAt(db: Db, p: Uid): Option<Identity> { if p in db.identities then Some(db.identities[p]) else None }

  /** The target's row as this task leaves it at this point. */
  function RowAt(m: Emails, init: Db, t: Task, pc: Pc): Option<User>
    requires TaskOk(init, t)
  {
    match t
    case Create(_, _, r) => if pc == Todo then None else Some(NewUser(m, r))
    case Update(_, r) =>
      var row := UserAt(init, Target(init, t));
      if pc == Done && row.Some? then Some(Updated(m, row.value, r)) else row
    case Disable(_) =>
      var row := UserAt(init, Target(init, t));
      if (pc.Saved? || pc == Done) && row.Some? then Some(row.value.(disabled := true)) else row
  }

  function LinkAt(init: Db, t: Task, pc: Pc): Option<Identity> {
    match t
    case Create(p, x, _) => if pc == Done then Some(Identity(x, true)) else None
    case Update(p, _) => IdentityAt(init, p)
    case Disable(p) => if pc == Done then None else IdentityAt(init, p)
  }

  /** What a task has read is still what the database said at the start. */
  predicate PcOk(init: Db, t: Task, pc: Pc)
    requires TaskOk(init, t)
  {
    match pc
    case Todo => true
    case Linked(x) => !t.Create? && x == Target(init, t)
    case Loaded(x, row) =>
      && !t.Create? && x == Target(init, t) && UserAt(init, x) == Some(row)
      && (t.Update? ==> Differs(row, t.fields))
    case Saved(x) => t.Disable? && x == Target(init, t)
    case Inserted => t.Create?
    case Done => true
  }

  predicate TaskMatches(m: Emails, init: Db, db: Db, t: Task, pc: Pc)
    requires TaskOk(init, t)
  {
    && PcOk(init, t, pc)
    && UserAt(db, Target(init, t)) == RowAt(m, init, t, pc)
    && IdentityAt(db, t.uid) == LinkAt(init, t, pc)
  }

  predicate IsTarget(init: Db, tasks: seq<Task>, x: UserId) {
    exists i :: 0 <= i < |tasks| && TaskOk(init, tasks[i]) && Target(init, tasks[i]) == x
  }

  predicate IsUid(tasks: seq<Task>, p: Uid) {
    exists i :: 0 <= i < |tasks| && tasks[i].uid == p
  }

  /** The database is what the tasks' positions say it is; nothing else has changed. */
  ghost predicate Matches(m: Emails, init: Db, tasks: seq<Task>, s: Sync)
    requires TasksOk(init, tasks)
  {
    && |s.pcs| == |tasks|
    && (forall i :: 0 <= i < |tasks| ==> TaskMatches(m, init, s.db, tasks[i], s.pcs[i]))
    && (forall x :: !IsTarget(init, tasks, x) ==> UserAt(s.db, x) == UserAt(init, x))
    && (forall p :: !IsUid(tasks, p) ==> IdentityAt(s.db, p) == IdentityAt(init, p))
  }

  lemma BeginMatches(m: Emails, init: Db, tasks: seq<Task>)
    requires TasksOk(init, tasks)
    ensures Matches(m, init, tasks, Begin(init, tasks))
  {
    forall i | 0 <= i < |tasks| ensures TaskMatches(m, init, init, tasks[i], Todo) { assert TaskOk(init, tasks[i]); }
  }

  lemma TargetsApart(init: Db, tasks: seq<Task>, i: nat, j: nat)
    requires TasksOk(init, tasks) && i < |tasks| && j < |tasks|
    ensures TaskOk(init, tasks[i]) && TaskOk(init, tasks[j])
    ensures i != j ==> tasks[i].uid != tasks[j].uid && Target(init, tasks[i]) != Target(init, tasks[j])
  {
    assert i < j ==> Apart(init, tasks[i], tasks[j]);
    assert j < i ==> Apart(init, tasks[j], tasks[i]);
  }

  /** Only the identity of the task leads to its target. */
  lemma OneIdentityPerUser(m: Emails, init: Db, tasks: seq<Task>, s: Sync, i: nat, p: Uid)
    requires Sane(m, init) && TasksOk(init, tasks) && Matches(m, init, tasks, s)
    requires i < |tasks| && p in s.db.identities && s.db.identities[p].user == Target(init, tasks[i])
    ensures p == tasks[i].uid
  {
    assert TaskOk(init, tasks[i]);
    assert IdentityAt(s.db, p).Some?;
    if j :| 0 <= j < |tasks| && tasks[j].uid == p {
      TargetsApart(init, tasks, i, j);
      assert TaskMatches(m, init, s.db, tasks[j], s.pcs[j]);
    } else {
      assert IdentityAt(s.db, p) == IdentityAt(init, p);
    }
  }

  /** A step that does not abort moves its own task on, and touches nothing but that task's user and identity. */
  lemma StepMoves(m: Emails, init: Db, tasks: seq<Task>, s: Sync, i: nat)
    requires Sane(m, init) && TasksOk(init, tasks) && Matches(m, init, tasks, s) && i < |tasks|
    ensures var after := Step(m, init, tasks, s, i);
      !after.aborted ==>
        && |after.pcs| == |tasks| && (forall j :: 0 <= j < |tasks| && j != i ==> after.pcs[j] == s.pcs[j])
        && TaskMatches(m, init, after.db, tasks[i], after.pcs[i])
        && (forall x :: x != Target(init, tasks[i]) ==> UserAt(after.db, x) == UserAt(s.db, x))
        && (forall p :: p != tasks[i].uid ==> IdentityAt(after.db, p) == IdentityAt(s.db, p))
  {
    assert TaskOk(init, tasks[i]) && TaskMatches(m, init, s.db, tasks[i], s.pcs[i]);
    match tasks[i]
    case Create(_, _, _) =>
    case Update(_, _) =>
    case Disable(_) => DisableMoves(m, init, tasks, s, i);
  }

  lemma DisableMoves(m: Emails, init: Db, tasks: seq<Task>, s: Sync, i: nat)
    requires Sane(m, init) && TasksOk(init, tasks) && Matches(m, init, tasks, s) && i < |tasks| && tasks[i].Disable?
    requires TaskOk(init, tasks[i])
    ensures var after := StepDisable(init, s, i, tasks[i]);
      !after.aborted ==>
        && |after.pcs| == |tasks| && (forall j :: 0 <= j < |tasks| && j != i ==> after.pcs[j] == s.pcs[j])
        && TaskMatches(m, init, after.db, tasks[i], after.pcs[i])
        && (forall x :: x != Target(init, tasks[i]) ==> UserAt(after.db, x) == UserAt(s.db, x))
        && (forall p :: p != tasks[i].uid ==> IdentityAt(after.db, p) == IdentityAt(s.db, p))
  {
    assert TaskMatches(m, init, s.db, tasks[i], s.pcs[i]);
    var after := StepDisable(init, s, i, tasks[i]);
    if !after.aborted && s.pcs[i].Saved? {
      forall p | p != tasks[i].uid ensures IdentityAt(after.db, p) == IdentityAt(s.db, p) {
        if p in s.db.identities && s.db.identities[p].user == Target(init, tasks[i]) {
          OneIdentityPerUser(m, init, tasks, s, i, p);
        }
      }
    }
  }

  lemma StepKeeps(m: Emails, init: Db, tasks: seq<Task>, s: Sync, i: nat)
    requires Sane(m, init) && TasksOk(init, tasks) && Matches(m, init, tasks, s)
    ensures var after := Step(m, init, tasks, s, i);
      !after.aborted ==> Matches(m, init, tasks, after)
  {
    var after := Step(m, init, tasks, s, i);
    if i < |tasks| && !after.aborted {
      StepMoves(m, init, tasks, s, i);
      assert TaskOk(init, tasks[i]);
      forall j | 0 <= j < |tasks| ensures TaskMatches(m, init, after.db, tasks[j], after.pcs[j]) {
        assert TaskMatches(m, init, s.db, tasks[j], s.pcs[j]);
        TargetsApart(init, tasks, i, j);
      }
      forall x | !IsTarget(init, tasks, x) ensures UserAt(after.db, x) == UserAt(init, x) {
        assert UserAt(s.db, x) == UserAt(init, x);
      }
      forall p | !IsUid(tasks, p) ensures IdentityAt(after.db, p) == IdentityAt(init, p) {
        assert IdentityAt(s.db, p) == IdentityAt(init, p);
      }
    }
  }

  /** Either the transaction has been rolled back, or the database is what the positions say. */
  ghost predicate Sound(m: Emails, init: Db, tasks: seq<Task>, s: Sync)
    requires TasksOk(init, tasks)
  {
    if s.aborted then s.db == init else Matches(m, init, tasks, s)
  }

  lemma {:induction false} RunSound(m: Emails, init: Db, tasks: seq<Task>, s: Sync, schedule: seq<nat>)
    requires Sane(m, init) && TasksOk(init, tasks) && Sound(m, init, tasks, s)
    ensures Sound(m, init, tasks, Run(m, init, tasks, s, schedule))
    decreases |schedule|
  {
    if schedule != [] {
      if !s.aborted { StepKeeps(m, init, tasks, s, schedule[0]); }
      RunSound(m, init, tasks, Step(m, init, tasks, s, schedule[0]), schedule[1..]);
    }
  }

  lemma SameDb(a: Db, b: Db)
    requires forall x :: UserAt(a, x) == UserAt(b, x)
    requires forall p :: IdentityAt(a, p) == IdentityAt(b, p)
    ensures a == b
  {
    forall x ensures x in a.users <==> x in b.users { assert UserAt(a, x) == UserAt(b, x); }
    forall x | x in a.users ensures a.users[x] == b.users[x] { assert UserAt(a, x) == UserAt(b, x); }
    forall p ensures p in a.identities <==> p in b.identities { assert IdentityAt(a, p) == IdentityAt(b, p); }
    forall p | p in a.identities ensures a.identities[p] == b.identities[p] {
      assert IdentityAt(a, p) == IdentityAt(b, p);
    }
  }

  /** Any two interleavings that complete leave the same database. */
  lemma Converges(m: Emails, init: Db, tasks: seq<Task>, schedule: seq<nat>, other: seq<nat>)
    requires Sane(m, init) && TasksOk(init, tasks)
    requires var s := Run(m, init, tasks, Begin(init, tasks), schedule); !s.aborted && Complete(s)
    requires var t := Run(m, init, tasks, Begin(init, tasks), other); !t.aborted && Complete(t)
    ensures Run(m, init, tasks, Begin(init, tasks), schedule).db == Run(m, init, tasks, Begin(init, tasks), other).db
  {
    var s := Run(m, init, tasks, Begin(init, tasks), schedule);
    var t := Run(m, init, tasks, Begin(init, tasks), other);
    BeginMatches(m, init, tasks);
    RunSound(m, init, tasks, Begin(init, tasks), schedule);
    RunSound(m, init, tasks, Begin(init, tasks), other);
    forall x ensures UserAt(s.db, x) == UserAt(t.db, x) {
      if i :| 0 <= i < |tasks| && TaskOk(init, tasks[i]) && Target(init, tasks[i]) == x {
        assert TaskMatches(m, init, s.db, tasks[i], s.pcs[i]) && TaskMatches(m, init, t.db, tasks[i], t.pcs[i]);
      }
    }
    forall p ensures IdentityAt(s.db, p) == IdentityAt(t.db, p) {
      if i :| 0 <= i < |tasks| && tasks[i].uid == p {
        assert TaskMatches(m, init, s.db, tasks[i], s.pcs[i]) && TaskMatches(m, init, t.db, tasks[i], t.pcs[i]);
      }
    }
    SameDb(s.db, t.db);
  }

  // ---------- when the transaction is rolled back ----------

  /** The address a task will write. */
  function Claim(m: Emails, t: Task): Option<Text> {
    match t
    case Create(_, _, r) => Some(m.lower(r.email))
    case Update(_, r) => Some(m.lower(r.email))
    case Disable(_) => None
  }

  /** No task claims an address that another user already has, or that another task claims. */
  predicate ClaimOk(m: Emails, init: Db, t: Task, x: UserId)
    requires TaskOk(init, t) && x in init.users
  {
    Claim(m, t).Some? && x != Target(init, t) ==> init.users[x].email != Claim(m, t).value
  }

  ghost predicate ConflictFree(m: Emails, init: Db, tasks: seq<Task>)
    requires TasksOk(init, tasks)
  {
    && (forall i, x :: 0 <= i < |tasks| && x in init.users ==> ClaimOk(m, init, tasks[i], x))
    && (forall i, j :: 0 <= i < j < |tasks| && Claim(m, tasks[i]).Some? ==> Claim(m, tasks[i]) != Claim(m, tasks[j]))
  }

  /** The address that task j leaves with its user, against what task i owns or claims. */
  lemma RowsAddress(m: Emails, init: Db, tasks: seq<Task>, i: nat, j: nat, pc: Pc)
    requires Sane(m, init) && TasksOk(init, tasks) && ConflictFree(m, init, tasks) && i < |tasks| && j < |tasks|
             && i != j
    requires TaskOk(init, tasks[i]) && TaskOk(init, tasks[j])
    ensures var row, own := RowAt(m, init, tasks[j], pc), Target(init, tasks[i]);
      row.Some? ==>
        && (Claim(m, tasks[i]).Some? ==> row.value.email != Claim(m, tasks[i]).value)
        && (own in init.users ==> row.value.email != init.users[own].email)
  {
    TargetsApart(init, tasks, i, j);
    var own, other := Target(init, tasks[i]), Target(init, tasks[j]);
    assert other in init.users ==> ClaimOk(m, init, tasks[i], other);
    assert own in init.users ==> ClaimOk(m, init, tasks[j], own);
    assert i < j ==> Claim(m, tasks[i]).Some? ==> Claim(m, tasks[i]) != Claim(m, tasks[j]);
    assert j < i ==> Claim(m, tasks[j]).Some? ==> Claim(m, tasks[j]) != Claim(m, tasks[i]);
  }

  /** In a conflict-free sync another user's address is never the one a task is about to write. */
  lemma OthersAddress(m: Emails, init: Db, tasks: seq<Task>, s: Sync, i: nat, x: UserId)
    requires Sane(m, init) && TasksOk(init, tasks) && ConflictFree(m, init, tasks) && Matches(m, init, tasks, s)
    requires i < |tasks| && x in s.db.users && TaskOk(init, tasks[i]) && x != Target(init, tasks[i])
    ensures Claim(m, tasks[i]).Some? ==> s.db.users[x].email != Claim(m, tasks[i]).value
    ensures Target(init, tasks[i]) in init.users ==> s.db.users[x].email != init.users[Target(init, tasks[i])].email
  {
    assert UserAt(s.db, x) == Some(s.db.users[x]);
    if j :| 0 <= j < |tasks| && TaskOk(init, tasks[j]) && Target(init, tasks[j]) == x {
      assert TaskMatches(m, init, s.db, tasks[j], s.pcs[j]);
      RowsAddress(m, init, tasks, i, j, s.pcs[j]);
    } else {
      assert UserAt(s.db, x) == UserAt(init, x);
      assert ClaimOk(m, init, tasks[i], x);
    }
  }

  lemma StepCommits(m: Emails, init: Db, tasks: seq<Task>, s: Sync, i: nat)
    requires Sane(m, init) && TasksOk(init, tasks) && ConflictFree(m, init, tasks) && Matches(m, init, tasks, s)
             && !s.aborted
    ensures !Step(m, init, tasks, s, i).aborted
  {
    if i < |tasks| {
      assert TaskOk(init, tasks[i]) && TaskMatches(m, init, s.db, tasks[i], s.pcs[i]);
      forall x | x in s.db.users && x != Target(init, tasks[i])
        ensures Claim(m, tasks[i]).Some? ==> s.db.users[x].email != Claim(m, tasks[i]).value
        ensures Target(init, tasks[i]) in init.users ==> s.db.users[x].email != init.users[Target(init, tasks[i])].email
      {
        OthersAddress(m, init, tasks, s, i, x);
      }
    }
  }

  lemma {:induction false} RunCommits(m: Emails, init: Db, tasks: seq<Task>, s: Sync, schedule: seq<nat>)
    requires Sane(m, init) && TasksOk(init, tasks) && ConflictFree(m, init, tasks) && Matches(m, init, tasks, s)
             && !s.aborted
    ensures !Run(m, init, tasks, s, schedule).aborted
    decreases |schedule|
  {
    if schedule != [] {
      StepCommits(m, init, tasks, s, schedule[0]);
      StepKeeps(m, init, tasks, s, schedule[0]);
      RunCommits(m, init, tasks, Step(m, init, tasks, s, schedule[0]), schedule[1..]);
    }
  }

  /** The unique column keeps addresses apart; the hook keeps them in lower case. */
  lemma StepKeepsAddresses(m: Emails, init: Db, tasks: seq<Task>, s: Sync, i: nat)
    requires Sane(m, init) && TasksOk(init, tasks) && Sound(m, init, tasks, s) && AddressesOk(m, s.db.users)
    requires forall e :: m.lower(m.lower(e)) == m.lower(e)
    ensures AddressesOk(m, Step(m, init, tasks, s, i).db.users)
  {
    if i < |tasks| && !s.aborted {
      assert TaskOk(init, tasks[i]) && TaskMatches(m, init, s.db, tasks[i], s.pcs[i]);
    }
  }

  lemma {:induction false} RunKeepsAddresses(m: Emails, init: Db, tasks: seq<Task>, s: Sync, schedule: seq<nat>)
    requires Sane(m, init) && TasksOk(init, tasks) && Sound(m, init, tasks, s) && AddressesOk(m, s.db.users)
    requires forall e :: m.lower(m.lower(e)) == m.lower(e)
    ensures AddressesOk(m, Run(m, init, tasks, s, schedule).db.users)
    decreases |schedule|
  {
    if schedule != [] {
      StepKeepsAddresses(m, init, tasks, s, schedule[0]);
      if !s.aborted { StepKeeps(m, init, tasks, s, schedule[0]); }
      RunKeepsAddresses(m, init, tasks, Step(m, init, tasks, s, schedule[0]), schedule[1..]);
    }
  }

  lemma RunThree(m: Emails, init: Db, tasks: seq<Task>, s: Sync, i: nat)
    ensures Run(m, init, tasks, s, [i, i, i])
         == Step(m, init, tasks, Step(m, init, tasks, Step(m, init, tasks, s, i), i), i)
  {
    assert [i, i, i][1..] == [i, i] && [i, i][1..] == [i] && [i][1..] == [];
    var t := Step(m, init, tasks, s, i);
    assert Run(m, init, tasks, t, [i, i]) == Run(m, init, tasks, Step(m, init, tasks, t, i), [i]);
  }

  /** A task whose claim is taken when it starts fails, if it runs on alone. */
  lemma TakenAborts(m: Emails, init: Db, tasks: seq<Task>, s: Sync, i: nat, x: UserId)
    requires Sane(m, init) && TasksOk(init, tasks) && Matches(m, init, tasks, s) && AddressesOk(m, s.db.users)
             && !s.aborted
    requires i < |tasks| && s.pcs[i] == Todo && Claim(m, tasks[i]).Some? && TaskOk(init, tasks[i])
    requires x in s.db.users && x != Target(init, tasks[i]) && s.db.users[x].email == Claim(m, tasks[i]).value
    ensures Run(m, init, tasks, s, [i, i, i]).aborted
  {
    RunThree(m, init, tasks, s, i);
    assert TaskMatches(m, init, s.db, tasks[i], Todo);
    if tasks[i].Update? {
      var own := Target(init, tasks[i]);
      assert UserAt(s.db, own) == UserAt(init, own) && IdentityAt(s.db, tasks[i].uid) == IdentityAt(init, tasks[i].uid);
      assert s.db.users[own].email != tasks[i].fields.email;
      var loaded := Step(m, init, tasks, Step(m, init, tasks, s, i), i);
      assert loaded.pcs[i] == Loaded(own, s.db.users[own]) && loaded.db == s.db;
    }
  }

  /** After three steps of its own, a task with a claim has either failed or left that address with its user. */
  lemma ClaimsAddress(m: Emails, init: Db, tasks: seq<Task>, i: nat)
    requires Sane(m, init) && TasksOk(init, tasks) && i < |tasks| && Claim(m, tasks[i]).Some? && TaskOk(init, tasks[i])
    ensures var s := Run(m, init, tasks, Begin(init, tasks), [i, i, i]);
      var own := Target(init, tasks[i]);
      s.aborted || (own in s.db.users && s.db.users[own].email == Claim(m, tasks[i]).value)
    ensures forall j :: 0 <= j < |tasks| && j != i && !Run(m, init, tasks, Begin(init, tasks), [i, i, i]).aborted ==>
      j < |Run(m, init, tasks, Begin(init, tasks), [i, i, i]).pcs|
      && Run(m, init, tasks, Begin(init, tasks), [i, i, i]).pcs[j] == Todo
  {
    RunThree(m, init, tasks, Begin(init, tasks), i);
    BeginMatches(m, init, tasks);
    assert TaskMatches(m, init, init, tasks[i], Todo);
  }

  lemma {:induction false} RunConcat(m: Emails, init: Db, tasks: seq<Task>, s: Sync, a: seq<nat>, b: seq<nat>)
    ensures Run(m, init, tasks, s, a + b) == Run(m, init, tasks, Run(m, init, tasks, s, a), b)
    decreases |a|
  {
    if a == [] {
      assert a + b == b;
    } else {
      assert (a + b)[1..] == a[1..] + b;
      RunConcat(m, init, tasks, Step(m, init, tasks, s, a[0]), a[1..], b);
    }
  }

  lemma SharedClaimAborts(m: Emails, init: Db, tasks: seq<Task>, i: nat, j: nat)
    requires Sane(m, init) && TasksOk(init, tasks) && i < |tasks| && j < |tasks| && i != j
    requires TaskOk(init, tasks[i]) && TaskOk(init, tasks[j])
    requires Claim(m, tasks[i]).Some? && Claim(m, tasks[i]) == Claim(m, tasks[j])
    requires forall e :: m.lower(m.lower(e)) == m.lower(e)
    ensures var s := Run(m, init, tasks, Begin(init, tasks), [i, i, i]);
      s.aborted || Run(m, init, tasks, s, [j, j, j]).aborted
  {
    var s := Begin(init, tasks);
    TargetsApart(init, tasks, i, j);
    ClaimsAddress(m, init, tasks, i);
    var after := Run(m, init, tasks, s, [i, i, i]);
    if !after.aborted {
      BeginMatches(m, init, tasks);
      RunSound(m, init, tasks, s, [i, i, i]);
      RunKeepsAddresses(m, init, tasks, s, [i, i, i]);
      TakenAborts(m, init, tasks, after, j, Target(init, tasks[i]));
    }
  }

  lemma ConflictAborts(m: Emails, init: Db, tasks: seq<Task>) returns (schedule: seq<nat>)
    requires Sane(m, init) && TasksOk(init, tasks) && !ConflictFree(m, init, tasks)
    requires forall e :: m.lower(m.lower(e)) == m.lower(e)
    ensures Run(m, init, tasks, Begin(init, tasks), schedule).aborted
  {
    if i, x :| 0 <= i < |tasks| && x in init.users && !ClaimOk(m, init, tasks[i], x) {
      schedule := [i, i, i];
      BeginMatches(m, init, tasks);
      TakenAborts(m, init, tasks, Begin(init, tasks), i, x);
    } else {
      var i, j :| 0 <= i < j < |tasks| && Claim(m, tasks[i]).Some? && Claim(m, tasks[i]) == Claim(m, tasks[j]);
      schedule := SharedClaimSchedule(m, init, tasks, i, j);
    }
  }

  lemma SharedClaimSchedule(m: Emails, init: Db, tasks: seq<Task>, i: nat, j: nat) returns (schedule: seq<nat>)
    requires Sane(m, init) && TasksOk(init, tasks) && i < j < |tasks|
    requires Claim(m, tasks[i]).Some? && Claim(m, tasks[i]) == Claim(m, tasks[j])
    requires forall e :: m.lower(m.lower(e)) == m.lower(e)
    ensures Run(m, init, tasks, Begin(init, tasks), schedule).aborted
  {
    SharedClaimAborts(m, init, tasks, i, j);
    schedule := [i, i, i];
    if !Run(m, init, tasks, Begin(init, tasks), schedule).aborted {
      RunConcat(m, init, tasks, Begin(init, tasks), schedule, [j, j, j]);
      schedule := schedule + [j, j, j];
    }
  }

  /**
   No interleaving is rolled back if and only if no task claims an address that another user has at the start or that
   another task claims. Otherwise the outcome may depend on the order in which the tasks run.
   */
  lemma CommitsExactly(m: Emails, init: Db, tasks: seq<Task>)
    requires Sane(m, init) && TasksOk(init, tasks) && forall e :: m.lower(m.lower(e)) == m.lower(e)
    ensures ConflictFree(m, init, tasks)
       <==> forall schedule :: !Run(m, init, tasks, Begin(init, tasks), schedule).aborted
  {
    if ConflictFree(m, init, tasks) {
      BeginMatches(m, init, tasks);
      forall schedule ensures !Run(m, init, tasks, Begin(init, tasks), schedule).aborted {
        RunCommits(m, init, tasks, Begin(init, tasks), schedule);
      }
    } else {
      var schedule := ConflictAborts(m, init, tasks);
    }
  }

  // ---------- the tasks of a sync ----------

  /** The rows `allLocalLdapIds` lists, each once. */
  ghost predicate Lists(local: seq<Uid>, db: Db) {
    && (forall p :: p in local <==> p in db.identities && db.identities[p].ldap)
    && (forall i, j :: 0 <= i < j < |local| ==> local[i] != local[j])
  }

  ghost predicate DistinctIds(remote: seq<Remote>) {
    forall i, j :: 0 <= i < j < |remote| ==> remote[i].id != remote[j].id
  }

  /** New users get ids that are not in use. */
  ghost predicate NewIds(db: Db, uuid: Uid -> UserId) {
    (forall p, q :: uuid(p) == uuid(q) ==> p == q) && forall p :: uuid(p) !in db.users
  }

  /** A provider id is not used by an identity of another kind. */
  ghost predicate OwnIds(db: Db, remote: seq<Remote>) {
    forall k :: 0 <= k < |remote| && remote[k].id in db.identities ==> db.identities[remote[k].id].ldap
  }

  ghost predicate Setting(m: Emails, db: Db, remote: seq<Remote>, local: seq<Uid>, uuid: Uid -> UserId) {
    Sane(m, db) && Lists(local, db) && DistinctIds(remote) && NewIds(db, uuid) && OwnIds(db, remote)
  }

  predicate FromRemote(remote: seq<Remote>, t: Task) {
    !t.Disable? && t.uid == t.fields.id && t.fields in remote
  }

  /** What a task of the plan says about its id. */
  predicate Fits(m: Emails, remote: seq<Remote>, local: seq<Uid>, uuid: Uid -> UserId, t: Task) {
    match t
    case Create(p, x, r) => FromRemote(remote, t) && p !in local && m.valid(r.email) && x == uuid(p)
    case Update(p, r) => FromRemote(remote, t) && p in local && m.valid(r.email)
    case Disable(p) => !InRemote(remote, p) && p in local
  }

  ghost predicate UidsDistinct(tasks: seq<Task>) {
    forall i, j :: 0 <= i < j < |tasks| ==> tasks[i].uid != tasks[j].uid
  }

  lemma {:induction false} CreatesAre(m: Emails, remote: seq<Remote>, local: seq<Uid>, uuid: Uid -> UserId)
    requires DistinctIds(remote)
    ensures var tasks := ValidCreates(m, remote, local, uuid);
      && (forall i :: 0 <= i < |tasks| ==> tasks[i].Create? && Fits(m, remote, local, uuid, tasks[i]))
      && UidsDistinct(tasks)
      && (forall r :: r in remote && r.id !in local && m.valid(r.email) ==> Create(r.id, uuid(r.id), r) in tasks)
  {
    if remote != [] {
      CreatesAre(m, remote[1..], local, uuid);
      HeadIdIsNew(remote);
    }
  }

  lemma HeadIdIsNew(remote: seq<Remote>)
    requires DistinctIds(remote) && remote != []
    ensures forall r :: r in remote[1..] ==> r.id != remote[0].id
  {
  }

  lemma {:induction false} UpdatesAre(m: Emails, remote: seq<Remote>, local: seq<Uid>, uuid: Uid -> UserId)
    requires DistinctIds(remote)
    ensures var tasks := ValidUpdates(m, remote, local);
      && (forall i :: 0 <= i < |tasks| ==> tasks[i].Update? && Fits(m, remote, local, uuid, tasks[i]))
      && UidsDistinct(tasks)
      && (forall r :: r in remote && r.id in local && m.valid(r.email) ==> Update(r.id, r) in tasks)
  {
    if remote != [] {
      UpdatesAre(m, remote[1..], local, uuid);
      HeadIdIsNew(remote);
    }
  }

  lemma {:induction false} DisablesAre(remote: seq<Remote>, local: seq<Uid>)
    requires forall i, j :: 0 <= i < j < |local| ==> local[i] != local[j]
    ensures var tasks := Disables(remote, local);
      && (forall i :: 0 <= i < |tasks| ==>
            tasks[i].Disable? && tasks[i].uid in local && !InRemote(remote, tasks[i].uid))
      && UidsDistinct(tasks)
      && (forall p :: p in local && !InRemote(remote, p) ==> Disable(p) in tasks)
  {
    if local != [] {
      DisablesAre(remote, local[1..]);
      assert forall p :: p in local[1..] ==> p != local[0];
    }
  }

  lemma FitsInRemote(m: Emails, remote: seq<Remote>, local: seq<Uid>, uuid: Uid -> UserId, t: Task)
    requires Fits(m, remote, local, uuid, t) && !t.Disable?
    ensures InRemote(remote, t.uid)
  {
    var k :| 0 <= k < |remote| && remote[k] == t.fields;
  }

  lemma PlanIs(m: Emails, db: Db, remote: seq<Remote>, local: seq<Uid>, uuid: Uid -> UserId)
    requires DistinctIds(remote) && Lists(local, db)
    ensures var tasks := Plan(m, remote, local, uuid);
      && (forall i :: 0 <= i < |tasks| ==> Fits(m, remote, local, uuid, tasks[i]))
      && (forall i, j :: 0 <= i < j < |tasks| ==> tasks[i].uid != tasks[j].uid)
  {
    var a, b, c := ValidCreates(m, remote, local, uuid), ValidUpdates(m, remote, local), Disables(remote, local);
    CreatesAre(m, remote, local, uuid);
    UpdatesAre(m, remote, local, uuid);
    DisablesAre(remote, local);
    var tasks := Plan(m, remote, local, uuid);
    assert tasks == a + b + c;
    forall i, j | 0 <= i < j < |tasks| ensures tasks[i].uid != tasks[j].uid {
      if |a| + |b| <= j && i < |a| + |b| { FitsInRemote(m, remote, local, uuid, tasks[i]); }
    }
  }

  lemma PlanIsOk(m: Emails, db: Db, remote: seq<Remote>, local: seq<Uid>, uuid: Uid -> UserId)
    requires Setting(m, db, remote, local, uuid)
    ensures TasksOk(db, Plan(m, remote, local, uuid))
  {
    var tasks := Plan(m, remote, local, uuid);
    PlanIs(m, db, remote, local, uuid);
    forall i | 0 <= i < |tasks| ensures TaskOk(db, tasks[i]) {
      assert Fits(m, remote, local, uuid, tasks[i]);
      if tasks[i].Create? { assert tasks[i].fields in remote; }
    }
    forall i, j | 0 <= i < j < |tasks| ensures Apart(db, tasks[i], tasks[j]) {
      assert Fits(m, remote, local, uuid, tasks[i]) && Fits(m, remote, local, uuid, tasks[j]);
      assert TaskOk(db, tasks[i]) && TaskOk(db, tasks[j]) && tasks[i].uid != tasks[j].uid;
    }
  }

  // ---------- what a sync achieves ----------

  /** A sync whose tasks have all completed, in some order. */
  ghost predicate Synced(m: Emails, db: Db, remote: seq<Remote>, local: seq<Uid>, uuid: Uid -> UserId, s: Sync) {
    && Setting(m, db, remote, local, uuid)
    && !s.aborted && Complete(s)
    && exists schedule ::
         s == Run(m, db, Plan(m, remote, local, uuid), Begin(db, Plan(m, remote, local, uuid)), schedule)
  }

  lemma SyncedMatches(m: Emails, db: Db, remote: seq<Remote>, local: seq<Uid>, uuid: Uid -> UserId, s: Sync)
    requires Synced(m, db, remote, local, uuid, s)
    ensures TasksOk(db, Plan(m, remote, local, uuid)) && Matches(m, db, Plan(m, remote, local, uuid), s)
  {
    var tasks := Plan(m, remote, local, uuid);
    PlanIsOk(m, db, remote, local, uuid);
    var schedule :| s == Run(m, db, tasks, Begin(db, tasks), schedule);
    BeginMatches(m, db, tasks);
    RunSound(m, db, tasks, Begin(db, tasks), schedule);
  }

  lemma SyncedTask(m: Emails, db: Db, remote: seq<Remote>, local: seq<Uid>, uuid: Uid -> UserId, s: Sync, t: Task)
    requires Synced(m, db, remote, local, uuid, s) && t in Plan(m, remote, local, uuid)
    ensures TaskOk(db, t) && TaskMatches(m, db, s.db, t, Done)
  {
    SyncedMatches(m, db, remote, local, uuid, s);
    var tasks := Plan(m, remote, local, uuid);
    var i :| 0 <= i < |tasks| && tasks[i] == t;
    assert TaskOk(db, tasks[i]) && TaskMatches(m, db, s.db, tasks[i], s.pcs[i]);
  }

  lemma SyncedElsewhere(m: Emails, db: Db, remote: seq<Remote>, local: seq<Uid>, uuid: Uid -> UserId, s: Sync, p: Uid)
    requires Synced(m, db, remote, local, uuid, s)
    requires forall t :: Fits(m, remote, local, uuid, t) ==> t.uid != p
    ensures IdentityAt(s.db, p) == IdentityAt(db, p)
  {
    SyncedMatches(m, db, remote, local, uuid, s);
    PlanIs(m, db, remote, local, uuid);
    assert !IsUid(Plan(m, remote, local, uuid), p);
  }

  /** Whoever is still in the directory keeps the identity, and gains one only with a valid address. */
  predicate Belongs(m: Emails, remote: seq<Remote>, local: seq<Uid>, p: Uid) {
    exists k :: 0 <= k < |remote| && remote[k].id == p && (p in local || m.valid(remote[k].email))
  }

  lemma KnownIdentity(m: Emails, db: Db, remote: seq<Remote>, local: seq<Uid>, uuid: Uid -> UserId, s: Sync, p: Uid)
    requires Synced(m, db, remote, local, uuid, s) && p in local
    ensures IdentityAt(s.db, p) == if InRemote(remote, p) then IdentityAt(db, p) else None
  {
    var tasks := Plan(m, remote, local, uuid);
    if !InRemote(remote, p) {
      DisablesAre(remote, local);
      SyncedTask(m, db, remote, local, uuid, s, Disable(p));
    } else {
      var k :| 0 <= k < |remote| && remote[k].id == p;
      if m.valid(remote[k].email) {
        UpdatesAre(m, remote, local, uuid);
        assert Update(p, remote[k]) in ValidUpdates(m, remote, local);
        SyncedTask(m, db, remote, local, uuid, s, Update(p, remote[k]));
      } else {
        forall t | Fits(m, remote, local, uuid, t) ensures t.uid != p {
          if t.Update? { SameEntry(remote, t.fields, k); }
        }
        SyncedElsewhere(m, db, remote, local, uuid, s, p);
      }
    }
  }

  lemma SameEntry(remote: seq<Remote>, r: Remote, k: nat)
    requires DistinctIds(remote) && r in remote && k < |remote|
    ensures r.id == remote[k].id ==> r == remote[k]
  {
    var j :| 0 <= j < |remote| && remote[j] == r;
    assert j < k ==> remote[j].id != remote[k].id;
    assert k < j ==> remote[k].id != remote[j].id;
  }

  lemma NewIdentity(m: Emails, db: Db, remote: seq<Remote>, local: seq<Uid>, uuid: Uid -> UserId, s: Sync, k: nat)
    requires Synced(m, db, remote, local, uuid, s) && k < |remote| && remote[k].id !in local
    ensures IdentityAt(s.db, remote[k].id)
         == if m.valid(remote[k].email) then Some(Identity(uuid(remote[k].id), true)) else None
    ensures m.valid(remote[k].email) ==> UserAt(s.db, uuid(remote[k].id)) == Some(NewUser(m, remote[k]))
  {
    var p := remote[k].id;
    assert p in db.identities ==> p in local;
    if m.valid(remote[k].email) {
      CreatesAre(m, remote, local, uuid);
      assert remote[k] in remote && Create(p, uuid(p), remote[k]) in ValidCreates(m, remote, local, uuid);
      SyncedTask(m, db, remote, local, uuid, s, Create(p, uuid(p), remote[k]));
    } else {
      forall t | Fits(m, remote, local, uuid, t) ensures t.uid != p {
        if t.Create? { SameEntry(remote, t.fields, k); }
      }
      SyncedElsewhere(m, db, remote, local, uuid, s, p);
    }
  }

  /**
   After a sync the directory identities are exactly the remote entries that were known before or have a valid address.
   */
  lemma IdentitiesExact(m: Emails, db: Db, remote: seq<Remote>, local: seq<Uid>, uuid: Uid -> UserId, s: Sync, p: Uid)
    requires Synced(m, db, remote, local, uuid, s)
    ensures (p in s.db.identities && s.db.identities[p].ldap) <==> Belongs(m, remote, local, p)
  {
    if p in local {
      KnownIdentity(m, db, remote, local, uuid, s, p);
    } else if k :| 0 <= k < |remote| && remote[k].id == p {
      NewIdentity(m, db, remote, local, uuid, s, k);
      forall j | 0 <= j < |remote| && remote[j].id == p ensures remote[j] == remote[k] {
        SameEntry(remote, remote[j], k);
      }
    } else {
      forall t | Fits(m, remote, local, uuid, t) ensures t.uid != p {
        if !t.Disable? { FitsInRemote(m, remote, local, uuid, t); }
      }
      SyncedElsewhere(m, db, remote, local, uuid, s, p);
      assert IdentityAt(s.db, p) == IdentityAt(db, p);
    }
  }

  /** Each user whose entry has left the directory is disabled. */
  lemma DepartedAreDisabled(m: Emails, db: Db, remote: seq<Remote>, local: seq<Uid>, uuid: Uid -> UserId, s: Sync,
                            p: Uid)
    requires Synced(m, db, remote, local, uuid, s) && p in local && !InRemote(remote, p)
    ensures var x := db.identities[p].user; x in s.db.users && s.db.users[x] == db.users[x].(disabled := true)
  {
    DisablesAre(remote, local);
    SyncedTask(m, db, remote, local, uuid, s, Disable(p));
    assert UserAt(s.db, db.identities[p].user).Some?;
  }

  /** No entry with a valid address is for this user, and none that has left the directory was. */
  ghost predicate NotConcerned(m: Emails, db: Db, remote: seq<Remote>, local: seq<Uid>, uuid: Uid -> UserId, x: UserId)
    requires Lists(local, db)
  {
    && (forall k :: 0 <= k < |remote| && m.valid(remote[k].email) ==>
          if remote[k].id in local then db.identities[remote[k].id].user != x else uuid(remote[k].id) != x)
    && (forall p :: p in local && db.identities[p].user == x ==> InRemote(remote, p))
  }

  lemma FitsElsewhere(m: Emails, db: Db, remote: seq<Remote>, local: seq<Uid>, uuid: Uid -> UserId, x: UserId, t: Task)
    requires Lists(local, db) && NotConcerned(m, db, remote, local, uuid, x)
    requires Fits(m, remote, local, uuid, t) && TaskOk(db, t)
    ensures Target(db, t) != x
  {
    if !t.Disable? { var k :| 0 <= k < |remote| && remote[k] == t.fields; }
  }

  /** A user without directory identity, or whose entry is still there but has no valid address, stays as it is. */
  lemma OthersUntouched(m: Emails, db: Db, remote: seq<Remote>, local: seq<Uid>, uuid: Uid -> UserId, s: Sync,
                        x: UserId)
    requires Synced(m, db, remote, local, uuid, s) && NotConcerned(m, db, remote, local, uuid, x)
    ensures (x in s.db.users <==> x in db.users) && (x in db.users ==> s.db.users[x] == db.users[x])
  {
    var tasks := Plan(m, remote, local, uuid);
    SyncedMatches(m, db, remote, local, uuid, s);
    PlanIs(m, db, remote, local, uuid);
    forall i | 0 <= i < |tasks| && TaskOk(db, tasks[i]) ensures Target(db, tasks[i]) != x {
      FitsElsewhere(m, db, remote, local, uuid, x, tasks[i]);
    }
    assert !IsTarget(db, tasks, x);
    assert UserAt(s.db, x) == UserAt(db, x);
  }

  /** A sync that is rolled back leaves the database as it was. */
  lemma RolledBackLeavesAll(m: Emails, db: Db, remote: seq<Remote>, local: seq<Uid>, uuid: Uid -> UserId,
                            schedule: seq<nat>)
    requires Setting(m, db, remote, local, uuid)
    ensures var tasks := Plan(m, remote, local, uuid);
      var s := Run(m, db, tasks, Begin(db, tasks), schedule);
      s.aborted ==> s.db == db
  {
    var tasks := Plan(m, remote, local, uuid);
    PlanIsOk(m, db, remote, local, uuid);
    BeginMatches(m, db, tasks);
    RunSound(m, db, tasks, Begin(db, tasks), schedule);
  }

  lemma UpdatedTwice(m: Emails, row: User, r: Remote)
    ensures Updated(m, Updated(m, row, r), r) == Updated(m, row, r)
    ensures Updated(m, NewUser(m, r), r) == NewUser(m, r)
  {
  }

  /** After a sync the row of everyone in the directory says what the entry says, and nobody is enabled or disabled. */
  lemma PresentAreCurrent(m: Emails, db: Db, remote: seq<Remote>, local: seq<Uid>, uuid: Uid -> UserId, s: Sync, k: nat)
    requires Synced(m, db, remote, local, uuid, s) && k < |remote| && m.valid(remote[k].email)
    ensures remote[k].id in s.db.identities && s.db.identities[remote[k].id].user in s.db.users
    ensures var x := s.db.identities[remote[k].id].user;
      var row := s.db.users[x];
      && row.email == m.lower(remote[k].email)
      && row.firstName == remote[k].firstName && row.lastName == remote[k].lastName
      && if remote[k].id in local then
           x == db.identities[remote[k].id].user && x in db.users && row.disabled == db.users[x].disabled
         else x == uuid(remote[k].id) && !row.disabled
    ensures var row := s.db.users[s.db.identities[remote[k].id].user]; Updated(m, row, remote[k]) == row
  {
    var p, r := remote[k].id, remote[k];
    if p in local {
      KnownIdentity(m, db, remote, local, uuid, s, p);
      UpdatesAre(m, remote, local, uuid);
      assert r in remote && Update(p, r) in ValidUpdates(m, remote, local);
      SyncedTask(m, db, remote, local, uuid, s, Update(p, r));
      var x := db.identities[p].user;
      assert UserAt(s.db, x) == Some(Updated(m, db.users[x], r));
      UpdatedTwice(m, db.users[x], r);
    } else {
      NewIdentity(m, db, remote, local, uuid, s, k);
      UpdatedTwice(m, NewUser(m, r), r);
    }
  }

  /** A second sync with the same directory only compares: none of its tasks creates, disables or changes anything. */
  lemma SecondPlanIsIdle(m: Emails, db: Db, remote: seq<Remote>, local: seq<Uid>, uuid: Uid -> UserId, s: Sync,
                         again: seq<Uid>, newUuid: Uid -> UserId, t: Task)
    requires Synced(m, db, remote, local, uuid, s) && Lists(again, s.db)
    requires Fits(m, remote, again, newUuid, t)
    ensures t.Update? && t.uid in s.db.identities && s.db.identities[t.uid].user in s.db.users
    ensures var row := s.db.users[s.db.identities[t.uid].user]; Updated(m, row, t.fields) == row
  {
    IdentitiesExact(m, db, remote, local, uuid, s, t.uid);
    if !t.Disable? {
      var k :| 0 <= k < |remote| && remote[k] == t.fields;
      PresentAreCurrent(m, db, remote, local, uuid, s, k);
    }
  }

  // ---------- a second sync ----------

  ghost predicate LowerTwice(m: Emails) { forall e :: m.lower(m.lower(e)) == m.lower(e) }

  lemma LinkedAfter(m: Emails, db: Db, remote: seq<Remote>, local: seq<Uid>, uuid: Uid -> UserId, s: Sync, p: Uid)
    requires Synced(m, db, remote, local, uuid, s) && p in s.db.identities
    ensures s.db.identities[p].user in s.db.users
    ensures forall q :: q in s.db.identities && s.db.identities[q].user == s.db.identities[p].user ==> q == p
  {
    SyncedMatches(m, db, remote, local, uuid, s);
    var tasks := Plan(m, remote, local, uuid);
    var x := s.db.identities[p].user;
    assert IdentityAt(s.db, p) == Some(s.db.identities[p]);
    if i :| 0 <= i < |tasks| && TaskOk(db, tasks[i]) && Target(db, tasks[i]) == x {
      forall q | q in s.db.identities && s.db.identities[q].user == x ensures q == tasks[i].uid {
        OneIdentityPerUser(m, db, tasks, s, i, q);
      }
      assert TaskMatches(m, db, s.db, tasks[i], s.pcs[i]);
    } else {
      forall q | q in s.db.identities && s.db.identities[q].user == x ensures IdentityAt(db, q) == IdentityAt(s.db, q) {
        UntargetedIdentity(m, db, remote, local, uuid, s, q);
      }
      assert UserAt(s.db, x) == UserAt(db, x);
      assert IdentityAt(db, p) == Some(s.db.identities[p]);
      assert x in db.users;
    }
  }

  /** An identity that no task leads to is as it was. */
  lemma UntargetedIdentity(m: Emails, db: Db, remote: seq<Remote>, local: seq<Uid>, uuid: Uid -> UserId, s: Sync,
                           q: Uid)
    requires Synced(m, db, remote, local, uuid, s) && q in s.db.identities
    requires !IsTarget(db, Plan(m, remote, local, uuid), s.db.identities[q].user)
    ensures IdentityAt(db, q) == IdentityAt(s.db, q)
  {
    SyncedMatches(m, db, remote, local, uuid, s);
    var tasks := Plan(m, remote, local, uuid);
    assert IdentityAt(s.db, q).Some?;
    if i :| 0 <= i < |tasks| && tasks[i].uid == q {
      assert TaskOk(db, tasks[i]) && TaskMatches(m, db, s.db, tasks[i], s.pcs[i]);
    }
  }

  lemma SaneAfter(m: Emails, db: Db, remote: seq<Remote>, local: seq<Uid>, uuid: Uid -> UserId, s: Sync)
    requires Synced(m, db, remote, local, uuid, s) && LowerTwice(m)
    ensures Sane(m, s.db)
  {
    var tasks := Plan(m, remote, local, uuid);
    SyncedMatches(m, db, remote, local, uuid, s);
    var schedule :| s == Run(m, db, tasks, Begin(db, tasks), schedule);
    BeginMatches(m, db, tasks);
    RunKeepsAddresses(m, db, tasks, Begin(db, tasks), schedule);
    forall p | p in s.db.identities
      ensures s.db.identities[p].user in s.db.users
      ensures forall q :: q in s.db.identities && s.db.identities[q].user == s.db.identities[p].user ==> q == p
    {
      LinkedAfter(m, db, remote, local, uuid, s, p);
    }
  }

  lemma OwnIdsAfter(m: Emails, db: Db, remote: seq<Remote>, local: seq<Uid>, uuid: Uid -> UserId, s: Sync)
    requires Synced(m, db, remote, local, uuid, s)
    ensures OwnIds(s.db, remote)
  {
    forall k | 0 <= k < |remote| && remote[k].id in s.db.identities ensures s.db.identities[remote[k].id].ldap {
      var p := remote[k].id;
      assert IdentityAt(s.db, p) == Some(s.db.identities[p]);
      if p in local {
        KnownIdentity(m, db, remote, local, uuid, s, p);
      } else {
        NewIdentity(m, db, remote, local, uuid, s, k);
      }
    }
  }

  /** A second sync with the same directory changes nothing, in any interleaving and at any point of it. */
  lemma SecondSyncIsIdle(m: Emails, db: Db, remote: seq<Remote>, local: seq<Uid>, uuid: Uid -> UserId, s: Sync,
                         again: seq<Uid>, newUuid: Uid -> UserId, schedule: seq<nat>)
    requires Synced(m, db, remote, local, uuid, s) && LowerTwice(m) && Lists(again, s.db) && NewIds(s.db, newUuid)
    ensures var tasks := Plan(m, remote, again, newUuid);
      Run(m, s.db, tasks, Begin(s.db, tasks), schedule).db == s.db
  {
    var tasks := Plan(m, remote, again, newUuid);
    SaneAfter(m, db, remote, local, uuid, s);
    OwnIdsAfter(m, db, remote, local, uuid, s);
    PlanIsOk(m, s.db, remote, again, newUuid);
    PlanIs(m, s.db, remote, again, newUuid);
    BeginMatches(m, s.db, tasks);
    RunSound(m, s.db, tasks, Begin(s.db, tasks), schedule);
    var t := Run(m, s.db, tasks, Begin(s.db, tasks), schedule);
    if !t.aborted {
      forall i | 0 <= i < |tasks| ensures TaskOk(s.db, tasks[i]) && IdleAt(m, s.db, t.db, tasks[i]) {
        assert TaskOk(s.db, tasks[i]);
        assert Fits(m, remote, again, newUuid, tasks[i]);
        assert TaskMatches(m, s.db, t.db, tasks[i], t.pcs[i]);
        SecondPlanIsIdle(m, db, remote, local, uuid, s, again, newUuid, tasks[i]);
      }
      IdleTasks(m, s.db, tasks, t);
    }
  }

  /** The task has left its user and its identity as they were. */
  predicate IdleAt(m: Emails, init: Db, db: Db, t: Task)
    requires TaskOk(init, t)
  {
    UserAt(db, Target(init, t)) == UserAt(init, Target(init, t)) && IdentityAt(db, t.uid) == IdentityAt(init, t.uid)
  }

  lemma IdleTasks(m: Emails, init: Db, tasks: seq<Task>, s: Sync)
    requires TasksOk(init, tasks) && Matches(m, init, tasks, s)
    requires forall i :: 0 <= i < |tasks| ==> TaskOk(init, tasks[i]) && IdleAt(m, init, s.db, tasks[i])
    ensures s.db == init
  {
    forall x ensures UserAt(s.db, x) == UserAt(init, x) {
      if i :| 0 <= i < |tasks| && TaskOk(init, tasks[i]) && Target(init, tasks[i]) == x {
        assert IdleAt(m, init, s.db, tasks[i]);
      }
    }
    forall p ensures IdentityAt(s.db, p) == IdentityAt(init, p) {
      if i :| 0 <= i < |tasks| && tasks[i].uid == p { assert IdleAt(m, init, s.db, tasks[i]); }
    }
    SameDb(s.db, init);
  }

  /** The differences of any well-formed directory and database give tasks that converge. */
  lemma SyncsConverge(m: Emails, db: Db, remote: seq<Remote>, local: seq<Uid>, uuid: Uid -> UserId, s: Sync, t: Sync)
    requires Synced(m, db, remote, local, uuid, s) && Synced(m, db, remote, local, uuid, t)
    ensures s.db == t.db
  {
    var tasks := Plan(m, remote, local, uuid);
    PlanIsOk(m, db, remote, local, uuid);
    var a :| s == Run(m, db, tasks, Begin(db, tasks), a);
    var b :| t == Run(m, db, tasks, Begin(db, tasks), b);
    Converges(m, db, tasks, a, b);
  }
}
