/**
 Repairing the credentials of a workflow's nodes (workflow-helpers.ts, replaceInvalidCredentials): two caches in front
 of the credential lookups. Types, ids and names are numbers here; only their identity matters.
 */
module CredentialRepair {
  import opened Wrappers

  type CredType = nat

  type Id = nat

  type Name = nat

  datatype Record = Record(id: Id, name: Name)

  /** The database during one repair: by id and type, and by name and type within the project. */
  datatype Db = Db(byId: (Id, CredType) -> Option<Record>, byName: (Name, CredType) -> seq<Record>)

  /**
   What a node refers to: nothing, a credential managed elsewhere, a bare name, or an id (perhaps null) and a name.
   */
  datatype Cred = Missing | Managed(tag: nat) | Plain(name: Name) | Details(id: Option<Id>, name: Name)

  datatype Entry = Entry(credType: CredType, cred: Cred)

  datatype Node = Node(disabled: bool, credentials: Option<seq<Entry>>)

  datatype Key = Key(credType: CredType, key: nat)

  datatype Caches = Caches(byName: map<Key, Cred>, byId: map<Key, Cred>)

  const EMPTY: Caches := Caches(map[], map[])

  predicate OldStyle(c: Cred) { c.Plain? || (c.Details? && c.id.None?) }

  predicate WithId(c: Cred) { c.Details? && c.id.Some? }

  function Found(r: Record): Cred { Details(Some(r.id), r.name) }

  // ---------- one credential ----------

  datatype Repaired = Repaired(cred: Cred, caches: Caches)

  function RepairByName(db: Db, caches: Caches, t: CredType, c: Cred): Repaired
    requires OldStyle(c)
  {
    var key := Key(t, c.name);
    if key in caches.byName then Repaired(caches.byName[key], caches)
    else if |db.byName(c.name, t)| == 1 then
      var found := Found(db.byName(c.name, t)[0]);
      Repaired(found, caches.(byName := caches.byName[key := found]))
    else Repaired(c, caches.(byName := caches.byName[key := Details(None, c.name)]))
  }

  /** A hit by name is cached under the id that was found, not under the one that was asked for. */
  function RepairById(db: Db, caches: Caches, t: CredType, c: Cred): Repaired
    requires WithId(c)
  {
    var key := Key(t, c.id.value);
    if key in caches.byId then Repaired(caches.byId[key], caches)
    else match db.byId(c.id.value, t)
      case Some(r) => Repaired(Found(r), caches.(byId := caches.byId[key := Found(r)]))
      case None =>
        if |db.byName(c.name, t)| == 1 then
          var r := db.byName(c.name, t)[0];
          Repaired(Found(r), caches.(byId := caches.byId[Key(t, r.id) := Found(r)]))
        else Repaired(c, caches.(byId := caches.byId[key := c]))
  }

  function RepairOne(db: Db, caches: Caches, e: Entry): Repaired {
    if OldStyle(e.cred) then RepairByName(db, caches, e.credType, e.cred)
    else if WithId(e.cred) then RepairById(db, caches, e.credType, e.cred)
    else Repaired(e.cred, caches)
  }

  // ---------- all of them ----------

  datatype RepairedEntries = RepairedEntries(entries: seq<Entry>, caches: Caches)

  function RepairEntries(db: Db, caches: Caches, entries: seq<Entry>): (r: RepairedEntries)
    ensures |r.entries| == |entries|
    decreases |entries|
  {
    if entries == [] then RepairedEntries([], caches) else
      var front := RepairEntries(db, caches, entries[..|entries| - 1]);
      var last := entries[|entries| - 1];
      var one := RepairOne(db, front.caches, last);
      RepairedEntries(front.entries + [Entry(last.credType, one.cred)], one.caches)
  }

  predicate Skipped(n: Node) { n.disabled || n.credentials.None? }

  datatype RepairedNodes = RepairedNodes(nodes: seq<Node>, caches: Caches)

  function RepairNodes(db: Db, caches: Caches, nodes: seq<Node>): (r: RepairedNodes)
    ensures |r.nodes| == |nodes|
    decreases |nodes|
  {
    if nodes == [] then RepairedNodes([], caches) else
      var front := RepairNodes(db, caches, nodes[..|nodes| - 1]);
      var last := nodes[|nodes| - 1];
      if Skipped(last) then RepairedNodes(front.nodes + [last], front.caches)
      else
        var r := RepairEntries(db, front.caches, last.credentials.value);
        RepairedNodes(front.nodes + [last.(credentials := Some(r.entries))], r.caches)
  }

  method ReplaceInvalidCredentials(db: Db, nodes: array<Node>)
    modifies nodes
    ensures nodes[..] == RepairNodes(db, EMPTY, old(nodes[..])).nodes
  {
    var caches := EMPTY;
    for i := 0 to nodes.Length
      invariant RepairNodes(db, EMPTY, old(nodes[..])[..i]) == RepairedNodes(nodes[..i], caches)
      invariant nodes[i..] == old(nodes[..])[i..]
    {
      var node := nodes[i];
      assert node == nodes[i..][0] == old(nodes[..])[i];
      assert old(nodes[..])[..i + 1][..i] == old(nodes[..])[..i];
      if Skipped(node) {
        assert nodes[..i + 1] == nodes[..i] + [node];
        continue;
      }
      var entries, after := RepairNode(db, caches, node.credentials.value);
      ghost var front := nodes[..i];
      nodes[i] := node.(credentials := Some(entries));
      caches := after;
      assert nodes[..i + 1] == front + [nodes[i]];
    }
    assert old(nodes[..])[..nodes.Length] == old(nodes[..]) && nodes[..nodes.Length] == nodes[..];
  }

  /** The inner loop, over the credentials of one node. */
  method RepairNode(db: Db, before: Caches, credentials: seq<Entry>) returns (entries: seq<Entry>, caches: Caches)
    ensures RepairedEntries(entries, caches) == RepairEntries(db, before, credentials)
  {
    entries, caches := credentials, before;
    for i := 0 to |credentials|
      invariant |entries| == |credentials| && forall j :: i <= j < |credentials| ==> entries[j] == credentials[j]
      invariant RepairedEntries(entries[..i], caches) == RepairEntries(db, before, credentials[..i])
    {
      var e := credentials[i];
      assert credentials[..i + 1][..i] == credentials[..i];
      ghost var front := entries[..i];
      ghost var expected := RepairOne(db, caches, e);
      if OldStyle(e.cred) {
        var key := Key(e.credType, e.cred.name);
        if key !in caches.byName {
          var records := db.byName(e.cred.name, e.credType);
          if |records| == 1 {
            caches := caches.(byName := caches.byName[key := Found(records[0])]);
            entries := entries[i := Entry(e.credType, caches.byName[key])];
          } else {
            caches := caches.(byName := caches.byName[key := Details(None, e.cred.name)]);
          }
        } else {
          entries := entries[i := Entry(e.credType, caches.byName[key])];
        }
      } else if WithId(e.cred) {
        var key := Key(e.credType, e.cred.id.value);
        if key !in caches.byId {
          var record := db.byId(e.cred.id.value, e.credType);
          var records := db.byName(e.cred.name, e.credType);
          if record.Some? {
            caches := caches.(byId := caches.byId[key := Found(record.value)]);
            entries := entries[i := Entry(e.credType, caches.byId[key])];
          } else if |records| == 1 {
            caches := caches.(byId := caches.byId[Key(e.credType, records[0].id) := Found(records[0])]);
            entries := entries[i := Entry(e.credType, caches.byId[Key(e.credType, records[0].id)])];
          } else {
            caches := caches.(byId := caches.byId[key := e.cred]);
          }
        } else {
          entries := entries[i := Entry(e.credType, caches.byId[key])];
        }
      }
      assert entries[i] == Entry(e.credType, expected.cred) && caches == expected.caches;
      assert entries[..i + 1] == front + [entries[i]];
    }
    assert credentials[..|credentials|] == credentials && entries[..|credentials|] == entries;
  }

  /** The credentials of all nodes that are not skipped, in order. */
  function Occurrences(nodes: seq<Node>): seq<Entry>
    decreases |nodes|
  {
    if nodes == [] then [] else
      var last := nodes[|nodes| - 1];
      Occurrences(nodes[..|nodes| - 1]) + (if Skipped(last) then [] else last.credentials.value)
  }

  lemma {:induction false} RepairConcat(db: Db, caches: Caches, a: seq<Entry>, b: seq<Entry>)
    ensures var first := RepairEntries(db, caches, a);
      var second := RepairEntries(db, first.caches, b);
      RepairEntries(db, caches, a + b) == RepairedEntries(first.entries + second.entries, second.caches)
    decreases |b|
  {
    if b == [] {
      assert a + b == a;
    } else {
      var n := |b| - 1;
      assert (a + b)[..|a + b| - 1] == a + b[..n];
      RepairConcat(db, caches, a, b[..n]);
    }
  }

  lemma OccurrencesPush(nodes: seq<Node>, last: Node)
    ensures Occurrences(nodes + [last]) == Occurrences(nodes) + (if Skipped(last) then [] else last.credentials.value)
  {
    assert (nodes + [last])[..|nodes|] == nodes;
  }

  lemma {:induction false} OccurrencesRepaired(db: Db, nodes: seq<Node>)
    ensures var r := RepairNodes(db, EMPTY, nodes);
      RepairEntries(db, EMPTY, Occurrences(nodes)) == RepairedEntries(Occurrences(r.nodes), r.caches)
    decreases |nodes|
  {
    if nodes != [] {
      var front, last := nodes[..|nodes| - 1], nodes[|nodes| - 1];
      OccurrencesRepaired(db, front);
      var before := RepairNodes(db, EMPTY, front);
      if Skipped(last) {
        OccurrencesPush(before.nodes, last);
        assert Occurrences(nodes) == Occurrences(front);
      } else {
        var entries := RepairEntries(db, before.caches, last.credentials.value).entries;
        OccurrencesPush(before.nodes, last.(credentials := Some(entries)));
        RepairConcat(db, EMPTY, Occurrences(front), last.credentials.value);
      }
    }
  }

  // ---------- the lookup the caches stand for ----------

  /** Records are found under their own id, and what is found by name is found by id. */
  ghost predicate Consistent(db: Db) {
    && (forall id, t :: db.byId(id, t).Some? ==> db.byId(id, t).value.id == id)
    && (forall name, t, i :: 0 <= i < |db.byName(name, t)| ==>
          db.byId(db.byName(name, t)[i].id, t) == Some(db.byName(name, t)[i]))
  }

  function Resolve(db: Db, e: Entry): Cred {
    if OldStyle(e.cred) then
      if |db.byName(e.cred.name, e.credType)| == 1 then Found(db.byName(e.cred.name, e.credType)[0]) else e.cred
    else if WithId(e.cred) then
      match db.byId(e.cred.id.value, e.credType)
      case Some(r) => Found(r)
      case None =>
        if |db.byName(e.cred.name, e.credType)| == 1 then Found(db.byName(e.cred.name, e.credType)[0]) else e.cred
    else e.cred
  }

  /**
   A bare name, or one with a null id, is replaced by the only record of that name; an id by the record that has it, or
   failing that by the only record of its name. Everything else, and everything that finds nothing, stays.
   */
  lemma ResolveExact(db: Db, t: CredType, name: Name, id: Id, tag: nat)
    ensures var named := db.byName(name, t);
      && Resolve(db, Entry(t, Plain(name)))
         == (if |named| == 1 then Details(Some(named[0].id), named[0].name) else Plain(name))
      && Resolve(db, Entry(t, Details(None, name)))
         == (if |named| == 1 then Details(Some(named[0].id), named[0].name) else Details(None, name))
      && Resolve(db, Entry(t, Details(Some(id), name)))
         == (if db.byId(id, t).Some? then Details(Some(db.byId(id, t).value.id), db.byId(id, t).value.name)
             else if |named| == 1 then Details(Some(named[0].id), named[0].name)
             else Details(Some(id), name))
      && Resolve(db, Entry(t, Missing)) == Missing && Resolve(db, Entry(t, Managed(tag))) == Managed(tag)
  {
  }

  /** The two ways of writing an unresolved old-style credential. */
  function Normal(c: Cred): Cred { if c.Plain? then Details(None, c.name) else c }

  /** The credential has this id, and neither its id nor its name leads anywhere. */
  predicate Fails(db: Db, e: Entry, t: CredType, id: Id) {
    && e.credType == t && WithId(e.cred) && e.cred.id.value == id
    && db.byId(id, t) == None && |db.byName(e.cred.name, t)| != 1
  }

  function FirstFailing(db: Db, entries: seq<Entry>, t: CredType, id: Id): (r: Option<nat>)
    ensures r.Some? ==> r.value < |entries| && Fails(db, entries[r.value], t, id)
    ensures forall i :: 0 <= i < |entries| && Fails(db, entries[i], t, id) ==> r.Some? && r.value <= i
    decreases |entries|
  {
    if entries == [] then None else
      var n := |entries| - 1;
      match FirstFailing(db, entries[..n], t, id)
      case Some(i) => Some(i)
      case None => if Fails(db, entries[n], t, id) then Some(n) else None
  }

  predicate SeenOld(entries: seq<Entry>, t: CredType, name: Name) {
    exists i :: 0 <= i < |entries| && OldStyle(entries[i].cred) && entries[i].credType == t
      && entries[i].cred.name == name
  }

  /** What the repair makes of an entry after the given ones. */
  function Exact(db: Db, before: seq<Entry>, e: Entry): Cred {
    if OldStyle(e.cred) then
      (if |db.byName(e.cred.name, e.credType)| != 1 && SeenOld(before, e.credType, e.cred.name)
       then Details(None, e.cred.name) else Resolve(db, e))
    else if WithId(e.cred) && db.byId(e.cred.id.value, e.credType) == None then
      (match FirstFailing(db, before, e.credType, e.cred.id.value)
       case Some(j) => before[j].cred
       case None => Resolve(db, e))
    else Resolve(db, e)
  }

  ghost predicate NameCacheOk(db: Db, entries: seq<Entry>, cache: map<Key, Cred>) {
    && (forall t, name :: Key(t, name) in cache <==> SeenOld(entries, t, name))
    && (forall t, name :: Key(t, name) in cache ==>
          cache[Key(t, name)]
          == if |db.byName(name, t)| == 1 then Found(db.byName(name, t)[0]) else Details(None, name))
  }

  ghost predicate IdCacheAt(db: Db, entries: seq<Entry>, cache: map<Key, Cred>, t: CredType, id: Id) {
    match db.byId(id, t)
    case Some(r) => Key(t, id) in cache ==> cache[Key(t, id)] == Found(r)
    case None =>
      match FirstFailing(db, entries, t, id)
      case Some(j) => Key(t, id) in cache && cache[Key(t, id)] == entries[j].cred
      case None => Key(t, id) !in cache
  }

  ghost predicate IdCacheOk(db: Db, entries: seq<Entry>, cache: map<Key, Cred>) {
    forall t, id :: IdCacheAt(db, entries, cache, t, id)
  }

  lemma SeenOldPush(entries: seq<Entry>, e: Entry, t: CredType, name: Name)
    ensures SeenOld(entries + [e], t, name)
       <==> SeenOld(entries, t, name) || (OldStyle(e.cred) && e.credType == t && e.cred.name == name)
  {
    var more := entries + [e];
    if SeenOld(entries, t, name) {
      var i :| 0 <= i < |entries| && OldStyle(entries[i].cred) && entries[i].credType == t
        && entries[i].cred.name == name;
      assert more[i] == entries[i];
    }
    if OldStyle(e.cred) && e.credType == t && e.cred.name == name { assert more[|entries|] == e; }
  }

  lemma FirstFailingPush(db: Db, entries: seq<Entry>, e: Entry, t: CredType, id: Id)
    ensures FirstFailing(db, entries + [e], t, id)
         == match FirstFailing(db, entries, t, id)
            case Some(i) => Some(i)
            case None => if Fails(db, e, t, id) then Some(|entries|) else None
  {
    assert (entries + [e])[..|entries|] == entries;
  }

  lemma NameCacheStep(db: Db, entries: seq<Entry>, caches: Caches, e: Entry)
    requires NameCacheOk(db, entries, caches.byName)
    ensures NameCacheOk(db, entries + [e], RepairOne(db, caches, e).caches.byName)
  {
    forall t, name ensures SeenOld(entries + [e], t, name)
      <==> SeenOld(entries, t, name) || (OldStyle(e.cred) && e.credType == t && e.cred.name == name)
    {
      SeenOldPush(entries, e, t, name);
    }
  }

  /** An entry that does not fail under this type and id leaves what is cached there right. */
  lemma IdCacheStays(db: Db, entries: seq<Entry>, e: Entry, before: map<Key, Cred>, after: map<Key, Cred>, t: CredType,
                     id: Id)
    requires IdCacheAt(db, entries, before, t, id) && (!Fails(db, e, t, id) || Key(t, id) in before)
    requires (Key(t, id) in after <==> Key(t, id) in before)
          && (Key(t, id) in before ==> after[Key(t, id)] == before[Key(t, id)])
    ensures IdCacheAt(db, entries + [e], after, t, id)
  {
    FirstFailingPush(db, entries, e, t, id);
  }

  lemma IdCacheStepAt(db: Db, entries: seq<Entry>, caches: Caches, e: Entry, t: CredType, id: Id)
    requires Consistent(db) && IdCacheAt(db, entries, caches.byId, t, id)
    ensures IdCacheAt(db, entries + [e], RepairOne(db, caches, e).caches.byId, t, id)
  {
    var after := RepairOne(db, caches, e).caches.byId;
    if !WithId(e.cred) || Key(e.credType, e.cred.id.value) in caches.byId {
      IdCacheStays(db, entries, e, caches.byId, after, t, id);
    } else if db.byId(e.cred.id.value, e.credType).None? && |db.byName(e.cred.name, e.credType)| == 1 {
      var r := db.byName(e.cred.name, e.credType)[0];
      assert db.byId(r.id, e.credType) == Some(r);
      if Key(t, id) != Key(e.credType, r.id) { IdCacheStays(db, entries, e, caches.byId, after, t, id); }
    } else if Key(t, id) != Key(e.credType, e.cred.id.value) {
      IdCacheStays(db, entries, e, caches.byId, after, t, id);
    } else {
      FirstFailingPush(db, entries, e, t, id);
    }
  }

  lemma IdCacheStep(db: Db, entries: seq<Entry>, caches: Caches, e: Entry)
    requires Consistent(db) && IdCacheOk(db, entries, caches.byId)
    ensures IdCacheOk(db, entries + [e], RepairOne(db, caches, e).caches.byId)
  {
    forall t, id ensures IdCacheAt(db, entries + [e], RepairOne(db, caches, e).caches.byId, t, id) {
      assert IdCacheAt(db, entries, caches.byId, t, id);
      IdCacheStepAt(db, entries, caches, e, t, id);
    }
  }

  lemma OneIsExact(db: Db, entries: seq<Entry>, caches: Caches, e: Entry)
    requires Consistent(db) && NameCacheOk(db, entries, caches.byName) && IdCacheOk(db, entries, caches.byId)
    ensures RepairOne(db, caches, e).cred == Exact(db, entries, e)
  {
    if OldStyle(e.cred) {
      assert Key(e.credType, e.cred.name) in caches.byName <==> SeenOld(entries, e.credType, e.cred.name);
    } else if WithId(e.cred) {
      assert IdCacheAt(db, entries, caches.byId, e.credType, e.cred.id.value);
    }
  }

  lemma {:induction false} RepairIsExact(db: Db, entries: seq<Entry>)
    requires Consistent(db)
    ensures var r := RepairEntries(db, EMPTY, entries);
      && NameCacheOk(db, entries, r.caches.byName) && IdCacheOk(db, entries, r.caches.byId)
      && forall i :: 0 <= i < |entries| ==>
           r.entries[i] == Entry(entries[i].credType, Exact(db, entries[..i], entries[i]))
    decreases |entries|
  {
    if entries != [] {
      var front, last := entries[..|entries| - 1], entries[|entries| - 1];
      RepairIsExact(db, front);
      var before := RepairEntries(db, EMPTY, front);
      assert entries == front + [last];
      NameCacheStep(db, front, before.caches, last);
      IdCacheStep(db, front, before.caches, last);
      OneIsExact(db, front, before.caches, last);
      forall i | 0 <= i < |front|
        ensures before.entries[i] == Entry(entries[i].credType, Exact(db, entries[..i], entries[i]))
      {
        assert front[..i] == entries[..i];
      }
    }
  }

  // ---------- when the caches are invisible ----------

  /** What the repair makes of the i-th occurrence. */
  function Outcome(db: Db, entries: seq<Entry>, i: nat): Cred
    requires i < |entries|
  {
    RepairEntries(db, EMPTY, entries).entries[i].cred
  }

  /** An earlier occurrence fails under the same type and unknown id, but with another name. */
  predicate Clashes(db: Db, entries: seq<Entry>, j: nat, i: nat)
    requires j < i < |entries|
  {
    && WithId(entries[i].cred) && Fails(db, entries[j], entries[i].credType, entries[i].cred.id.value)
    && entries[j].cred.name != entries[i].cred.name
  }

  ghost predicate ClashFree(db: Db, entries: seq<Entry>) {
    forall j, i :: 0 <= j < i < |entries| ==> !Clashes(db, entries, j, i)
  }

  /** One occurrence: the cache answers as the lookup would, unless the first failure it remembers has another name. */
  lemma OneRefines(db: Db, entries: seq<Entry>, i: nat)
    requires Consistent(db) && i < |entries|
    ensures Normal(Outcome(db, entries, i)) == Normal(Resolve(db, entries[i]))
       <==> !(WithId(entries[i].cred) && db.byId(entries[i].cred.id.value, entries[i].credType) == None
              && var first := FirstFailing(db, entries[..i], entries[i].credType, entries[i].cred.id.value);
                 first.Some? && entries[first.value].cred.name != entries[i].cred.name)
  {
    RepairIsExact(db, entries);
    var e := entries[i];
    if WithId(e.cred) && db.byId(e.cred.id.value, e.credType) == None {
      var first := FirstFailing(db, entries[..i], e.credType, e.cred.id.value);
      if first.Some? && |db.byName(e.cred.name, e.credType)| == 1 {
        assert db.byId(db.byName(e.cred.name, e.credType)[0].id, e.credType).Some?;
      }
    }
  }

  /**
   The repair does what the lookup of each credential on its own would do, up to writing an unresolved old-style
   credential as a null id and its name, if and only if no two credentials share a type and an unknown id under
   different names, the first of them with a name that is not unique either.
   */
  lemma RefinesExactly(db: Db, entries: seq<Entry>)
    requires Consistent(db)
    ensures (forall i :: 0 <= i < |entries| ==> Normal(Outcome(db, entries, i)) == Normal(Resolve(db, entries[i])))
       <==> ClashFree(db, entries)
  {
    if ClashFree(db, entries) {
      forall i | 0 <= i < |entries| ensures Normal(Outcome(db, entries, i)) == Normal(Resolve(db, entries[i])) {
        OneRefines(db, entries, i);
        if WithId(entries[i].cred) {
          var first := FirstFailing(db, entries[..i], entries[i].credType, entries[i].cred.id.value);
          if first.Some? {
            assert entries[..i][first.value] == entries[first.value] && !Clashes(db, entries, first.value, i);
          }
        }
      }
    } else {
      var j, i :| 0 <= j < i < |entries| && Clashes(db, entries, j, i);
      var k := ClashShows(db, entries, j, i);
      assert Normal(Outcome(db, entries, k)) != Normal(Resolve(db, entries[k]));
    }
  }

  /** A clash shows at the later of the two, or between the first failure and the earlier of them. */
  lemma ClashShows(db: Db, entries: seq<Entry>, j: nat, i: nat) returns (k: nat)
    requires Consistent(db) && j < i < |entries| && Clashes(db, entries, j, i)
    ensures k < |entries| && Normal(Outcome(db, entries, k)) != Normal(Resolve(db, entries[k]))
  {
    var t, id := entries[i].credType, entries[i].cred.id.value;
    assert entries[..i][j] == entries[j];
    var first := FirstFailing(db, entries[..i], t, id).value;
    assert entries[..i][first] == entries[first];
    if entries[first].cred.name != entries[i].cred.name {
      k := i;
    } else {
      k := j;
      assert entries[..j][first] == entries[first];
      var second := FirstFailing(db, entries[..j], t, id).value;
      assert entries[..i][second] == entries[second] == entries[..j][second];
    }
    OneRefines(db, entries, k);
  }

  // ---------- repairing twice ----------

  lemma {:induction false} FirstFailingStays(db: Db, entries: seq<Entry>, i: nat, t: CredType, id: Id)
    requires i <= |entries| && FirstFailing(db, entries[..i], t, id).Some?
    ensures FirstFailing(db, entries, t, id) == FirstFailing(db, entries[..i], t, id)
  {
    var a := FirstFailing(db, entries[..i], t, id).value;
    assert entries[..i][a] == entries[a];
    var b := FirstFailing(db, entries, t, id).value;
    assert b <= a && entries[..i][b] == entries[b];
  }

  /**
   A repaired credential is a record, an old-style one whose name is not unique, or the first failure under its id.
   */
  lemma ExactKinds(db: Db, before: seq<Entry>, e: Entry)
    requires Consistent(db)
    ensures var c, t := Exact(db, before, e), e.credType;
      && (OldStyle(c) ==> |db.byName(c.name, t)| != 1)
      && (WithId(c) && db.byId(c.id.value, t).Some? ==> c == Found(db.byId(c.id.value, t).value))
      && (WithId(c) && db.byId(c.id.value, t).None? ==>
            Fails(db, Entry(t, c), t, c.id.value)
            && match FirstFailing(db, before, t, c.id.value)
               case Some(j) => c == before[j].cred
               case None => c == e.cred)
  {
    if (OldStyle(e.cred) || WithId(e.cred)) && |db.byName(e.cred.name, e.credType)| == 1 {
      var r := db.byName(e.cred.name, e.credType)[0];
      assert db.byId(r.id, e.credType) == Some(r);
    }
  }

  /** An unknown id that the repair leaves behind carries the details of its first failure. */
  lemma LeftoverIsFirstFailure(db: Db, entries: seq<Entry>, i: nat)
    requires Consistent(db) && i < |entries|
    requires var c := Exact(db, entries[..i], entries[i]); WithId(c) && db.byId(c.id.value, entries[i].credType).None?
    ensures var c := Exact(db, entries[..i], entries[i]);
      var first := FirstFailing(db, entries, entries[i].credType, c.id.value);
      first.Some? && c == entries[first.value].cred
  {
    var e, t := entries[i], entries[i].credType;
    var c := Exact(db, entries[..i], e);
    ExactKinds(db, entries[..i], e);
    FirstFailingPush(db, entries[..i], e, t, c.id.value);
    assert entries[..i + 1] == entries[..i] + [e];
    FirstFailingStays(db, entries, i + 1, t, c.id.value);
  }

  /** A second repair keeps a repaired credential whose first failure, if there is one, has the same details. */
  lemma RepairedStays(db: Db, before: seq<Entry>, e: Entry)
    requires OldStyle(e.cred) ==> |db.byName(e.cred.name, e.credType)| != 1
    requires WithId(e.cred) ==>
      match db.byId(e.cred.id.value, e.credType)
      case Some(r) => e.cred == Found(r)
      case None =>
        && |db.byName(e.cred.name, e.credType)| != 1
        && match FirstFailing(db, before, e.credType, e.cred.id.value)
           case Some(j) => before[j].cred == e.cred
           case None => true
    ensures Normal(Exact(db, before, e)) == Normal(e.cred)
  {
  }

  lemma SecondRepair(db: Db, entries: seq<Entry>, once: seq<Entry>, i: nat)
    requires Consistent(db) && i < |entries| == |once|
    requires forall k :: 0 <= k < |entries| ==>
               once[k] == Entry(entries[k].credType, Exact(db, entries[..k], entries[k]))
    ensures Normal(Exact(db, once[..i], once[i])) == Normal(once[i].cred)
  {
    var c, t := once[i].cred, entries[i].credType;
    ExactKinds(db, entries[..i], entries[i]);
    if WithId(c) && db.byId(c.id.value, t).None? {
      SameLeftovers(db, entries, once, i);
    }
    RepairedStays(db, once[..i], once[i]);
  }

  /** A second repair changes nothing more, again up to the writing of unresolved old-style credentials. */
  lemma RepairIsIdempotent(db: Db, entries: seq<Entry>, i: nat)
    requires Consistent(db) && i < |entries|
    ensures var once := RepairEntries(db, EMPTY, entries).entries;
      Normal(Outcome(db, once, i)) == Normal(once[i].cred)
  {
    var once := RepairEntries(db, EMPTY, entries).entries;
    RepairIsExact(db, entries);
    RepairIsExact(db, once);
    SecondRepair(db, entries, once, i);
  }

  lemma SameLeftovers(db: Db, entries: seq<Entry>, once: seq<Entry>, i: nat)
    requires Consistent(db) && i < |entries| == |once|
    requires forall k :: 0 <= k < |entries| ==>
               once[k] == Entry(entries[k].credType, Exact(db, entries[..k], entries[k]))
    requires WithId(once[i].cred) && db.byId(once[i].cred.id.value, once[i].credType).None?
    ensures match FirstFailing(db, once[..i], once[i].credType, once[i].cred.id.value)
            case Some(j) => once[..i][j].cred == once[i].cred
            case None => true
  {
    LeftoverIsFirstFailure(db, entries, i);
    match FirstFailing(db, once[..i], once[i].credType, once[i].cred.id.value)
    case Some(j) =>
      assert once[..i][j] == once[j];
      LeftoverIsFirstFailure(db, entries, j);
    case None =>
  }

  // ---------- the nodes of a workflow ----------

  /** The repair touches nothing of a node but the credentials of the types it has, and nothing of a skipped one. */
  predicate SameShape(before: Node, after: Node) {
    if before.disabled || before.credentials == None then after == before else
      && after.disabled == before.disabled && after.credentials.Some?
      && |after.credentials.value| == |before.credentials.value|
      && forall i :: 0 <= i < |before.credentials.value| ==>
           after.credentials.value[i].credType == before.credentials.value[i].credType
  }

  lemma {:induction false} RepairKeepsTypes(db: Db, caches: Caches, entries: seq<Entry>)
    ensures var r := RepairEntries(db, caches, entries).entries;
      forall i :: 0 <= i < |entries| ==> r[i].credType == entries[i].credType
    decreases |entries|
  {
    if entries != [] { RepairKeepsTypes(db, caches, entries[..|entries| - 1]); }
  }

  lemma {:induction false} RepairKeepsShape(db: Db, nodes: seq<Node>)
    ensures var r := RepairNodes(db, EMPTY, nodes).nodes;
      forall k :: 0 <= k < |nodes| ==> SameShape(nodes[k], r[k])
    decreases |nodes|
  {
    if nodes != [] {
      var front, last := nodes[..|nodes| - 1], nodes[|nodes| - 1];
      RepairKeepsShape(db, front);
      if !Skipped(last) { RepairKeepsTypes(db, RepairNodes(db, EMPTY, front).caches, last.credentials.value); }
    }
  }

  /** The credentials of the workflow after the repair. */
  function RepairedOccurrences(db: Db, nodes: seq<Node>): seq<Entry> {
    Occurrences(RepairNodes(db, EMPTY, nodes).nodes)
  }

  /** For whole workflows: each credential is resolved on its own if and only if the workflow is free of clashes. */
  lemma NodesRefineExactly(db: Db, nodes: seq<Node>)
    requires Consistent(db)
    ensures var before, after := Occurrences(nodes), RepairedOccurrences(db, nodes);
      && |after| == |before|
      && ((forall i :: 0 <= i < |before| ==> Normal(after[i].cred) == Normal(Resolve(db, before[i])))
          <==> ClashFree(db, before))
  {
    OccurrencesRepaired(db, nodes);
    var before, after := Occurrences(nodes), RepairedOccurrences(db, nodes);
    assert forall i :: 0 <= i < |before| ==> Outcome(db, before, i) == after[i].cred;
    RefinesExactly(db, before);
  }

  /** For whole workflows: a second repair keeps every credential. */
  lemma SecondRepairKeepsNodes(db: Db, nodes: seq<Node>)
    requires Consistent(db)
    ensures var once := RepairNodes(db, EMPTY, nodes).nodes;
      var first, second := Occurrences(once), RepairedOccurrences(db, once);
      |second| == |first| && forall i :: 0 <= i < |first| ==> Normal(second[i].cred) == Normal(first[i].cred)
  {
    var once := RepairNodes(db, EMPTY, nodes).nodes;
    var before, first := Occurrences(nodes), Occurrences(once);
    OccurrencesRepaired(db, nodes);
    OccurrencesRepaired(db, once);
    forall i | 0 <= i < |first| ensures Normal(RepairedOccurrences(db, once)[i].cred) == Normal(first[i].cred) {
      assert Outcome(db, first, i) == RepairedOccurrences(db, once)[i].cred;
      RepairIsIdempotent(db, before, i);
    }
  }

  /** A database without credentials. */
  function NoRecords(): Db { Db((_, _) => None, (_, _) => []) }

  function OneCredential(id: Id, name: Name): Node { Node(false, Some([Entry(0, Details(Some(id), name))])) }

  /** Two nodes refer to the unknown id 9 under the names 1 and 2: the second node gets the name of the
   first, where the lookup on its own would have left it alone. */
  lemma SecondNameIsLost()
    ensures Consistent(NoRecords())
    ensures var nodes := [OneCredential(9, 1), OneCredential(9, 2)];
      RepairNodes(NoRecords(), EMPTY, nodes).nodes == [OneCredential(9, 1), OneCredential(9, 1)]
    ensures Resolve(NoRecords(), Entry(0, Details(Some(9), 2))) == Details(Some(9), 2)
  {
    var db, nodes := NoRecords(), [OneCredential(9, 1), OneCredential(9, 2)];
    var c := Details(Some(9), 1);
    assert nodes[..1] == [OneCredential(9, 1)] && nodes[..1][..0] == [];
    RepairOneNode(db, EMPTY, 9, 1);
    var cached := EMPTY.(byId := map[Key(0, 9) := c]);
    assert RepairById(db, EMPTY, 0, c) == Repaired(c, cached);
    assert RepairNodes(db, EMPTY, nodes[..1]) == RepairedNodes([OneCredential(9, 1)], cached);
    RepairOneNode(db, cached, 9, 2);
    assert RepairById(db, cached, 0, Details(Some(9), 2)) == Repaired(c, cached);
  }

  lemma RepairOneNode(db: Db, caches: Caches, id: Id, name: Name)
    ensures var one := RepairById(db, caches, 0, Details(Some(id), name));
      RepairEntries(db, caches, OneCredential(id, name).credentials.value)
      == RepairedEntries([Entry(0, one.cred)], one.caches)
  {
    var entries := OneCredential(id, name).credentials.value;
    assert entries[..0] == [];
    assert RepairEntries(db, caches, entries[..0]) == RepairedEntries([], caches);
  }
}
