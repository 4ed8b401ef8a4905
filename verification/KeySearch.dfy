/**
 Looking a token up in a response body (HttpTokenApi.credentials.ts, getByPath and findFirstKey): the walk along a
 path, and the depth-first search with its set of visited objects, on any object graph.
 */
module KeySearch {
  import opened Wrappers
  import opened PathParser
  import Ranking

  datatype Val = Undefined | Null | Scalar(id: nat) | Ref(addr: nat)

  datatype Prop = Prop(name: string, value: Val)

  /** `named` and `inherited` are what a name finds on an array beside its elements, and on an object's prototypes. */
  datatype Node = ArrNode(items: seq<Val>, named: seq<Prop>) | ObjNode(own: seq<Prop>, inherited: seq<Prop>)

  type Heap = seq<Node>

  function NodeAt(heap: Heap, v: Val): Option<Node> {
    if v.Ref? && v.addr < |heap| then Some(heap[v.addr]) else None
  }

  function Lookup(props: seq<Prop>, name: string): Option<Val> {
    if props == [] then None
    else if props[0].name == name then Some(props[0].value)
    else Lookup(props[1..], name)
  }

  function Values(props: seq<Prop>): seq<Val> {
    seq(|props|, i requires 0 <= i < |props| => props[i].value)
  }

  // ---------- walking a path ----------

  /** `key in r ? r[key]`: an array answers to the decimal names of its elements. */
  function Member(node: Node, key: string): Option<Val> {
    match node
    case ArrNode(items, named) =>
      if Digits(key) && key == Numeral(Decimal(key))
      then (if Decimal(key) < |items| then Some(items[Decimal(key)]) else None)
      else Lookup(named, key)
    case ObjNode(own, inherited) =>
      (match Lookup(own, key) case Some(v) => Some(v) case None => Lookup(inherited, key))
  }

  function Step(heap: Heap, v: Val, segment: Segment): Option<Val> {
    match NodeAt(heap, v)
    case None => None
    case Some(node) =>
      match segment
      case Key(key) => Member(node, key)
      case Index(i) => if node.ArrNode? && i < |node.items| then Some(node.items[i]) else None
  }

  /** An element of an array is reached by its index and by its decimal name alike. */
  lemma IndexByName(heap: Heap, v: Val, i: nat)
    requires NodeAt(heap, v).Some? && NodeAt(heap, v).value.ArrNode?
    ensures Step(heap, v, Key(Numeral(i))) == Step(heap, v, Index(i))
  {
    DecimalOfNumeral(i);
  }

  /** The direct walk along the segments. */
  function Walk(heap: Heap, v: Val, segments: seq<Segment>): Val
    decreases |segments|
  {
    if segments == [] then v else
      match Step(heap, v, segments[0])
      case None => Undefined
      case Some(next) => Walk(heap, next, segments[1..])
  }

  method GetByPath(heap: Heap, obj: Val, path: string) returns (r: Val)
    ensures r == Walk(heap, obj, Parse(path))
  {
    var segments := ParsePath(path);
    r := obj;
    for i := 0 to |segments|
      invariant Walk(heap, obj, segments) == Walk(heap, r, segments[i..])
    {
      assert segments[i..][1..] == segments[i + 1..];
      match Step(heap, r, segments[i])
      case None => return Undefined;
      case Some(next) => r := next;
    }
  }

  /** Looking up a rendered segment list is the walk along it. */
  lemma GetByRenderedPath(heap: Heap, obj: Val, segments: seq<Segment>)
    requires AllClean(segments) && Trimmed(Render(segments))
    ensures Walk(heap, obj, Parse(Render(segments))) == Walk(heap, obj, segments)
  {
    RoundTrip(segments);
  }

  lemma {:induction false} WalkInParts(heap: Heap, v: Val, a: seq<Segment>, b: seq<Segment>)
    ensures Walk(heap, v, a + b) == Walk(heap, Walk(heap, v, a), b)
    decreases |a|
  {
    if a == [] {
      assert a + b == b;
    } else {
      assert (a + b)[1..] == a[1..] + b;
      match Step(heap, v, a[0])
      case None =>
      case Some(next) => WalkInParts(heap, next, a[1..], b);
    }
  }

  // ---------- what one step of a path reaches ----------

  /** The first property of this name has this value. */
  ghost predicate FirstOf(props: seq<Prop>, name: string, v: Val) {
    exists i: nat :: FirstAt(props, name, v, i)
  }

  predicate FirstAt(props: seq<Prop>, name: string, v: Val, i: nat) {
    && i < |props| && props[i].name == name && props[i].value == v
    && forall j :: 0 <= j < i ==> props[j].name != name
  }

  predicate HasName(props: seq<Prop>, name: string) {
    exists i :: 0 <= i < |props| && props[i].name == name
  }

  lemma {:induction false} LookupIsFirst(props: seq<Prop>, name: string)
    ensures match Lookup(props, name)
            case Some(v) => FirstOf(props, name, v) && HasName(props, name)
            case None => !HasName(props, name)
    ensures forall v :: FirstOf(props, name, v) ==> Lookup(props, name) == Some(v)
  {
    if props != [] {
      LookupIsFirst(props[1..], name);
      if props[0].name == name {
        assert FirstAt(props, name, props[0].value, 0);
      } else {
        if v, i: nat :| FirstAt(props[1..], name, v, i) { assert FirstAt(props, name, v, i + 1); }
        forall v | FirstOf(props, name, v) ensures FirstOf(props[1..], name, v) {
          var i: nat :| FirstAt(props, name, v, i);
          assert FirstAt(props[1..], name, v, i - 1);
        }
      }
    }
  }

  /** A key leads to the object's own property of that name, failing that to an inherited one, failing that nowhere. */
  lemma KeyStepExact(heap: Heap, a: nat, key: string)
    requires a < |heap| && heap[a].ObjNode?
    ensures var r := Walk(heap, Ref(a), [Key(key)]);
      if HasName(heap[a].own, key) then FirstOf(heap[a].own, key, r)
      else if HasName(heap[a].inherited, key) then FirstOf(heap[a].inherited, key, r)
      else r == Undefined
  {
    LookupIsFirst(heap[a].own, key);
    LookupIsFirst(heap[a].inherited, key);
    WalkOne(heap, Ref(a), Key(key));
  }

  lemma WalkOne(heap: Heap, v: Val, segment: Segment)
    ensures Walk(heap, v, [segment]) == match Step(heap, v, segment) case None => Undefined case Some(w) => w
  {
    assert [segment][1..] == [];
  }

  /** An index leads to the element at that place, and only in an array that has one. */
  lemma IndexStepExact(heap: Heap, v: Val, i: nat)
    ensures var r := Walk(heap, v, [Index(i)]);
      if v.Ref? && v.addr < |heap| && heap[v.addr].ArrNode? && i < |heap[v.addr].items|
      then r == heap[v.addr].items[i]
      else r == Undefined
  {
    WalkOne(heap, v, Index(i));
  }

  /** Nothing is found in what is neither an object nor an array. */
  lemma NothingInScalars(heap: Heap, v: Val, segments: seq<Segment>)
    requires !(v.Ref? && v.addr < |heap|) && segments != []
    ensures Walk(heap, v, segments) == Undefined
  {
  }

  /** The name of an element that an array does not have is looked up among its other properties. */
  lemma ArrayKeyExact(heap: Heap, a: nat, key: string)
    requires a < |heap| && heap[a].ArrNode? && !Digits(key)
    ensures var r := Walk(heap, Ref(a), [Key(key)]);
      if HasName(heap[a].named, key) then FirstOf(heap[a].named, key, r) else r == Undefined
  {
    LookupIsFirst(heap[a].named, key);
    WalkOne(heap, Ref(a), Key(key));
  }

  // ---------- the search ----------

  predicate Nullish(v: Val) { v == Undefined || v == Null }

  function Children(heap: Heap, v: Val): seq<Val> {
    match NodeAt(heap, v)
    case None => []
    case Some(ArrNode(items, _)) => items
    case Some(ObjNode(own, _)) => Values(own)
  }

  predicate IsArray(heap: Heap, v: Val) { NodeAt(heap, v).Some? && NodeAt(heap, v).value.ArrNode? }

  predicate IsObject(heap: Heap, v: Val) { NodeAt(heap, v).Some? && NodeAt(heap, v).value.ObjNode? }

  /** The object has the key as its own property, with a value. */
  predicate Holds(heap: Heap, key: string, v: Val) {
    IsObject(heap, v) && Lookup(NodeAt(heap, v).value.own, key).Some?
    && !Nullish(Lookup(NodeAt(heap, v).value.own, key).value)
  }

  function Held(heap: Heap, key: string, v: Val): Val
    requires Holds(heap, key, v)
  {
    Lookup(NodeAt(heap, v).value.own, key).value
  }

  /** The children are the elements of an array or the values of an object's own properties, in order. */
  lemma ChildrenExact(heap: Heap, v: Val)
    ensures var children := Children(heap, v);
      if !(v.Ref? && v.addr < |heap|) then children == []
      else match heap[v.addr]
        case ArrNode(items, _) => children == items
        case ObjNode(own, _) =>
          |children| == |own| && forall i :: 0 <= i < |own| ==> children[i] == own[i].value
  {
  }

  /** What an object holds under a key is the value of its own property, when that is neither null nor undefined. */
  lemma HoldsExact(heap: Heap, key: string, v: Val)
    ensures Holds(heap, key, v) <==>
      && v.Ref? && v.addr < |heap| && heap[v.addr].ObjNode?
      && exists x :: FirstOf(heap[v.addr].own, key, x) && x != Null && x != Undefined
    ensures Holds(heap, key, v) ==> FirstOf(heap[v.addr].own, key, Held(heap, key, v))
  {
    if v.Ref? && v.addr < |heap| && heap[v.addr].ObjNode? { LookupIsFirst(heap[v.addr].own, key); }
  }

  /** For a plain key the path and the search agree on what an object holds. */
  lemma PathReachesHeld(heap: Heap, key: string, v: Val)
    requires Holds(heap, key, v) && Clean(Key(key)) && Trimmed(key)
    ensures Walk(heap, v, Parse(key)) == Held(heap, key, v)
  {
    var segments := [Key(key)];
    assert segments[1..] == [] && RenderFrom(segments[1..], false) == "";
    assert Render(segments) == key + "";
    assert key + "" == key;
    RoundTripOfTrimmedKeys(segments);
    WalkOne(heap, v, Key(key));
  }

  type Rank = nat -> nat

  function Level(heap: Heap, rank: Rank, v: Val): nat {
    if IsArray(heap, v) then rank(v.addr) + 1 else 0
  }

  /** No cycle runs through arrays alone: an array directly inside an array has a lower rank. */
  ghost predicate Ranked(heap: Heap, rank: Rank) {
    forall a :: 0 <= a < |heap| && heap[a].ArrNode? ==>
      rank(a) < |heap| && forall i :: 0 <= i < |heap[a].items| ==> Level(heap, rank, heap[a].items[i]) <= rank(a)
  }

  /** The addresses directly inside an array; the size of the heap stands for a value that is none. */
  function ItemAddrs(heap: Heap, a: nat): seq<nat> {
    if a < |heap| && heap[a].ArrNode? then
      var items := heap[a].items;
      seq(|items|, i requires 0 <= i < |items| => if items[i].Ref? then items[i].addr else |heap|)
    else []
  }

  function Inner(heap: Heap): Ranking.Edges { a => ItemAddrs(heap, a) }

  ghost function Arrays(heap: Heap): set<nat> { set a: nat | a < |heap| && heap[a].ArrNode? }

  lemma InnerItems(heap: Heap, a: nat, i: nat)
    requires a in Arrays(heap) && i < |heap[a].items|
    ensures |Inner(heap)(a)| == |heap[a].items|
    ensures IsArray(heap, heap[a].items[i])
       <==> Inner(heap)(a)[i] in Arrays(heap) && heap[a].items[i] == Ref(Inner(heap)(a)[i])
    ensures Inner(heap)(a)[i] in Arrays(heap) ==> IsArray(heap, heap[a].items[i])
  {
  }

  lemma RankFalls(heap: Heap, rank: Rank)
    requires Ranked(heap, rank)
    ensures Ranking.FallsAlongEdges(Inner(heap), Arrays(heap), rank)
  {
    forall x, y | x in Arrays(heap) && y in Arrays(heap) && y in Inner(heap)(x) ensures rank(y) < rank(x) {
      var i :| 0 <= i < |Inner(heap)(x)| && Inner(heap)(x)[i] == y;
      InnerItems(heap, x, i);
      assert Level(heap, rank, heap[x].items[i]) <= rank(x);
    }
  }

  lemma FallsIsRanked(heap: Heap, rank: Rank)
    requires Ranking.Falls(Inner(heap), Arrays(heap), rank)
    ensures Ranked(heap, rank)
  {
    ArraysInHeap(heap, |heap|);
    forall a | 0 <= a < |heap| && heap[a].ArrNode?
      ensures rank(a) < |heap| && forall i :: 0 <= i < |heap[a].items| ==>
                Level(heap, rank, heap[a].items[i]) <= rank(a)
    {
      assert a in Arrays(heap);
      forall i | 0 <= i < |heap[a].items| ensures Level(heap, rank, heap[a].items[i]) <= rank(a) {
        InnerItems(heap, a, i);
      }
    }
  }

  lemma {:induction false} ArraysInHeap(heap: Heap, n: nat)
    requires n <= |heap|
    ensures |set a: nat | a < n && heap[a].ArrNode?| <= n
    ensures n == |heap| ==> Arrays(heap) == set a: nat | a < n && heap[a].ArrNode?
  {
    if n > 0 {
      ArraysInHeap(heap, n - 1);
      var below := set a: nat | a < n - 1 && heap[a].ArrNode?;
      assert (set a: nat | a < n && heap[a].ArrNode?) == if heap[n - 1].ArrNode? then below + {n - 1} else below;
    }
  }

  /** A heap can be ranked exactly when no cycle runs through arrays alone. */
  lemma RankedExactly(heap: Heap)
    ensures (exists rank :: Ranked(heap, rank)) <==> Ranking.NoCycle(Inner(heap), Arrays(heap))
  {
    if rank :| Ranked(heap, rank) {
      RankFalls(heap, rank);
      Ranking.FallingHasNoCycle(Inner(heap), Arrays(heap), rank);
    }
    if Ranking.NoCycle(Inner(heap), Arrays(heap)) {
      var rank := Ranking.CanBeRanked(Inner(heap), Arrays(heap));
      FallsIsRanked(heap, rank);
    }
  }

  datatype Search = Search(found: Val, seen: set<nat>)

  ghost function Unseen(heap: Heap, seen: set<nat>): set<nat> {
    set a: nat | a < |heap| && a !in seen
  }

  lemma UnseenShrinks(heap: Heap, seen: set<nat>, more: set<nat>)
    requires seen <= more
    ensures |Unseen(heap, more)| <= |Unseen(heap, seen)|
    ensures (exists a: nat :: a < |heap| && a in more - seen) ==> |Unseen(heap, more)| < |Unseen(heap, seen)|
  {
    SubsetSize(Unseen(heap, more), Unseen(heap, seen));
    if a: nat :| a < |heap| && a in more - seen {
      SubsetSize(Unseen(heap, more), Unseen(heap, seen) - {a});
    }
  }

  lemma {:induction false} SubsetSize(s: set<nat>, t: set<nat>)
    requires s <= t
    ensures |s| <= |t|
  {
    if a :| a in s {
      SubsetSize(s - {a}, t - {a});
    }
  }

  /** The search from one value, with the objects seen before it. */
  ghost function Find(heap: Heap, rank: Rank, key: string, v: Val, seen: set<nat>): (r: Search)
    requires Ranked(heap, rank)
    ensures seen <= r.seen
    decreases |Unseen(heap, seen)|, Level(heap, rank, v), 0, 0
  {
    if IsArray(heap, v) then FindAll(heap, rank, key, Children(heap, v), seen, rank(v.addr))
    else if !IsObject(heap, v) || v.addr in seen then Search(Undefined, seen)
    else
      var marked := seen + {v.addr};
      UnseenShrinks(heap, seen, marked);
      if Holds(heap, key, v) then Search(Held(heap, key, v), marked)
      else FindAll(heap, rank, key, Children(heap, v), marked, |heap|)
  }

  /** The search through a list of values, up to the first that yields something. */
  ghost function FindAll(heap: Heap, rank: Rank, key: string, vals: seq<Val>, seen: set<nat>, level: nat): (r: Search)
    requires Ranked(heap, rank) && forall i :: 0 <= i < |vals| ==> Level(heap, rank, vals[i]) <= level
    ensures seen <= r.seen
    decreases |Unseen(heap, seen)|, level, 1, |vals|
  {
    if vals == [] then Search(Undefined, seen) else
      var first := Find(heap, rank, key, vals[0], seen);
      UnseenShrinks(heap, seen, first.seen);
      if first.found != Undefined then first else FindAll(heap, rank, key, vals[1..], first.seen, level)
  }

  /** `findFirstKey`: the key is trimmed, and an empty one finds nothing. */
  ghost function FindFirst(heap: Heap, rank: Rank, keyName: string, v: Val, seen: set<nat>): Search
    requires Ranked(heap, rank)
  {
    if Trim(keyName) == "" then Search(Undefined, seen) else Find(heap, rank, Trim(keyName), v, seen)
  }

  /** The `WeakSet` a search hands from call to call. */
  class SeenSet {
    var addrs: set<nat>

    constructor ()
      ensures addrs == {}
    {
      addrs := {};
    }
  }

  method FindFirstKey(heap: Heap, ghost rank: Rank, obj: Val, keyName: string, seen: SeenSet) returns (r: Val)
    requires Ranked(heap, rank)
    modifies seen
    ensures Search(r, seen.addrs) == FindFirst(heap, rank, keyName, obj, old(seen.addrs))
    decreases |Unseen(heap, seen.addrs)|, Level(heap, rank, obj), 0, 0
  {
    if !obj.Ref? || obj.addr >= |heap| { return Undefined; }
    var key := Trim(keyName);
    if key == "" { return Undefined; }
    var node := heap[obj.addr];
    if node.ArrNode? {
      r := FindInValues(heap, rank, node.items, keyName, seen, rank(obj.addr));
      return;
    }
    if obj.addr in seen.addrs { return Undefined; }
    UnseenShrinks(heap, seen.addrs, seen.addrs + {obj.addr});
    seen.addrs := seen.addrs + {obj.addr};
    match Lookup(node.own, key) {
      case Some(val) => if !Nullish(val) { return val; }
      case None =>
    }
    r := FindInValues(heap, rank, Values(node.own), keyName, seen, |heap|);
  }

  /** The loop over the items of an array, and over the values of an object's keys. */
  method FindInValues(heap: Heap, ghost rank: Rank, vals: seq<Val>, keyName: string, seen: SeenSet, ghost level: nat)
      returns (r: Val)
    requires Ranked(heap, rank) && Trim(keyName) != ""
    requires forall i :: 0 <= i < |vals| ==> Level(heap, rank, vals[i]) <= level
    modifies seen
    ensures Search(r, seen.addrs) == FindAll(heap, rank, Trim(keyName), vals, old(seen.addrs), level)
    decreases |Unseen(heap, seen.addrs)|, level, 1, |vals|
  {
    ghost var key, before := Trim(keyName), seen.addrs;
    for i := 0 to |vals|
      invariant before <= seen.addrs
      invariant FindAll(heap, rank, key, vals, before, level) == FindAll(heap, rank, key, vals[i..], seen.addrs, level)
    {
      UnseenShrinks(heap, before, seen.addrs);
      r := FindFirstKey(heap, rank, vals[i], keyName, seen);
      if r != Undefined { return; }
    }
    r := Undefined;
  }

  // ---------- what it finds ----------

  /** The steps lead from v to w, each to a child by position. */
  ghost predicate Leads(heap: Heap, v: Val, steps: seq<nat>, w: Val)
    decreases |steps|
  {
    if steps == [] then v == w
    else steps[0] < |Children(heap, v)| && Leads(heap, Children(heap, v)[steps[0]], steps[1..], w)
  }

  ghost predicate Reachable(heap: Heap, v: Val, w: Val) {
    exists steps :: Leads(heap, v, steps, w)
  }

  ghost predicate ReachesHolder(heap: Heap, key: string, v: Val, found: Val) {
    exists w :: Reachable(heap, v, w) && Holds(heap, key, w) && Held(heap, key, w) == found
  }

  lemma ReachesSelf(heap: Heap, v: Val)
    ensures Reachable(heap, v, v)
  {
    assert Leads(heap, v, [], v);
  }

  lemma ReachesThroughChild(heap: Heap, v: Val, i: nat, w: Val)
    requires i < |Children(heap, v)| && Reachable(heap, Children(heap, v)[i], w)
    ensures Reachable(heap, v, w)
  {
    var steps :| Leads(heap, Children(heap, v)[i], steps, w);
    assert ([i] + steps)[1..] == steps;
    assert Leads(heap, v, [i] + steps, w);
  }

  /** What is found is held by an object the search can reach. */
  lemma {:induction false} FindSound(heap: Heap, rank: Rank, key: string, v: Val, seen: set<nat>)
    requires Ranked(heap, rank) && Find(heap, rank, key, v, seen).found != Undefined
    ensures ReachesHolder(heap, key, v, Find(heap, rank, key, v, seen).found)
    decreases |Unseen(heap, seen)|, Level(heap, rank, v), 0, 0
  {
    var found := Find(heap, rank, key, v, seen).found;
    if Holds(heap, key, v) {
      ReachesSelf(heap, v);
    } else {
      var marked := if IsArray(heap, v) then seen else seen + {v.addr};
      UnseenShrinks(heap, seen, marked);
      var i := FindAllSound(heap, rank, key, Children(heap, v), marked,
                            if IsArray(heap, v) then rank(v.addr) else |heap|);
      var w :| Reachable(heap, Children(heap, v)[i], w) && Holds(heap, key, w) && Held(heap, key, w) == found;
      ReachesThroughChild(heap, v, i, w);
    }
  }

  lemma {:induction false} FindAllSound(heap: Heap, rank: Rank, key: string, vals: seq<Val>, seen: set<nat>, level: nat)
      returns (i: nat)
    requires Ranked(heap, rank) && forall i :: 0 <= i < |vals| ==> Level(heap, rank, vals[i]) <= level
    requires FindAll(heap, rank, key, vals, seen, level).found != Undefined
    ensures i < |vals| && ReachesHolder(heap, key, vals[i], FindAll(heap, rank, key, vals, seen, level).found)
    decreases |Unseen(heap, seen)|, level, 1, |vals|
  {
    var first := Find(heap, rank, key, vals[0], seen);
    if first.found != Undefined {
      FindSound(heap, rank, key, vals[0], seen);
      i := 0;
    } else {
      UnseenShrinks(heap, seen, first.seen);
      var j := FindAllSound(heap, rank, key, vals[1..], first.seen, level);
      i := j + 1;
    }
  }

  /** The objects that arrays alone separate from v have all been seen. */
  ghost predicate Covered(heap: Heap, rank: Rank, v: Val, seen: set<nat>)
    requires Ranked(heap, rank)
    decreases Level(heap, rank, v)
  {
    (IsObject(heap, v) ==> v.addr in seen)
    && (IsArray(heap, v) ==>
          forall i :: 0 <= i < |heap[v.addr].items| ==> Covered(heap, rank, heap[v.addr].items[i], seen))
  }

  /** Nothing was found at this object, and everything below it has been seen. */
  ghost predicate Exhausted(heap: Heap, rank: Rank, key: string, a: nat, seen: set<nat>)
    requires Ranked(heap, rank)
  {
    !Holds(heap, key, Ref(a))
    && forall i :: 0 <= i < |Children(heap, Ref(a))| ==> Covered(heap, rank, Children(heap, Ref(a))[i], seen)
  }

  lemma {:induction false} CoveredByMore(heap: Heap, rank: Rank, v: Val, seen: set<nat>, more: set<nat>)
    requires Ranked(heap, rank) && Covered(heap, rank, v, seen) && seen <= more
    ensures Covered(heap, rank, v, more)
    decreases Level(heap, rank, v)
  {
    if IsArray(heap, v) {
      var items := heap[v.addr].items;
      forall i | 0 <= i < |items| ensures Covered(heap, rank, items[i], more) {
        CoveredByMore(heap, rank, items[i], seen, more);
      }
    }
  }

  lemma ExhaustedByMore(heap: Heap, rank: Rank, key: string, a: nat, seen: set<nat>, more: set<nat>)
    requires Ranked(heap, rank) && Exhausted(heap, rank, key, a, seen) && seen <= more
    ensures Exhausted(heap, rank, key, a, more)
  {
    var vals := Children(heap, Ref(a));
    forall i | 0 <= i < |vals| ensures Covered(heap, rank, vals[i], more) {
      CoveredByMore(heap, rank, vals[i], seen, more);
    }
  }

  /** A search that finds nothing has exhausted every object it marked. */
  lemma {:induction false} FindExhausts(heap: Heap, rank: Rank, key: string, v: Val, seen: set<nat>)
    requires Ranked(heap, rank) && Find(heap, rank, key, v, seen).found == Undefined
    ensures var after := Find(heap, rank, key, v, seen).seen;
      && Covered(heap, rank, v, after)
      && forall a :: a in after - seen ==> Exhausted(heap, rank, key, a, after)
    decreases |Unseen(heap, seen)|, Level(heap, rank, v), 0, 0
  {
    if IsArray(heap, v) {
      FindAllExhausts(heap, rank, key, Children(heap, v), seen, rank(v.addr));
    } else if IsObject(heap, v) && v.addr !in seen {
      var marked := seen + {v.addr};
      UnseenShrinks(heap, seen, marked);
      FindAllExhausts(heap, rank, key, Children(heap, v), marked, |heap|);
      assert v == Ref(v.addr);
    }
  }

  lemma {:induction false} FindAllExhausts(heap: Heap, rank: Rank, key: string, vals: seq<Val>, seen: set<nat>,
                                           level: nat)
    requires Ranked(heap, rank) && forall i :: 0 <= i < |vals| ==> Level(heap, rank, vals[i]) <= level
    requires FindAll(heap, rank, key, vals, seen, level).found == Undefined
    ensures var after := FindAll(heap, rank, key, vals, seen, level).seen;
      && (forall i :: 0 <= i < |vals| ==> Covered(heap, rank, vals[i], after))
      && forall a :: a in after - seen ==> Exhausted(heap, rank, key, a, after)
    decreases |Unseen(heap, seen)|, level, 1, |vals|
  {
    if vals != [] {
      var first := Find(heap, rank, key, vals[0], seen);
      var after := FindAll(heap, rank, key, vals, seen, level).seen;
      FindExhausts(heap, rank, key, vals[0], seen);
      UnseenShrinks(heap, seen, first.seen);
      FindAllExhausts(heap, rank, key, vals[1..], first.seen, level);
      CoveredByMore(heap, rank, vals[0], first.seen, after);
      forall a | a in after - seen ensures Exhausted(heap, rank, key, a, after) {
        if a in first.seen { ExhaustedByMore(heap, rank, key, a, first.seen, after); }
      }
      forall i | 0 <= i < |vals| ensures Covered(heap, rank, vals[i], after) {
        if i > 0 { assert vals[i] == vals[1..][i - 1]; }
      }
    }
  }

  /** No path out of an exhausted set ends at a holder. */
  lemma {:induction false} ExhaustedHoldsNothing(heap: Heap, rank: Rank, key: string, v: Val, steps: seq<nat>, w: Val,
                                                 seen: set<nat>)
    requires Ranked(heap, rank) && Covered(heap, rank, v, seen) && Leads(heap, v, steps, w)
    requires forall a :: a in seen ==> Exhausted(heap, rank, key, a, seen)
    ensures !Holds(heap, key, w)
    decreases |steps|
  {
    if IsObject(heap, v) {
      assert v == Ref(v.addr) && Exhausted(heap, rank, key, v.addr, seen);
    }
    if steps != [] {
      ExhaustedHoldsNothing(heap, rank, key, Children(heap, v)[steps[0]], steps[1..], w, seen);
    }
  }

  /**
   On any graph whose cycles all pass through an object the search ends, and it comes back empty exactly when the key
   is blank or no reachable object has it as its own property with a value; otherwise it returns such a value.
   */
  lemma FindFirstExact(heap: Heap, rank: Rank, keyName: string, v: Val)
    requires Ranked(heap, rank)
    ensures var key, found := Trim(keyName), FindFirst(heap, rank, keyName, v, {}).found;
      && (found == Undefined <==> key == "" || forall w :: Reachable(heap, v, w) ==> !Holds(heap, key, w))
      && (found != Undefined ==> ReachesHolder(heap, key, v, found))
  {
    var key := Trim(keyName);
    if key != "" {
      var search := Find(heap, rank, key, v, {});
      if search.found == Undefined {
        FindExhausts(heap, rank, key, v, {});
        forall w | Reachable(heap, v, w) ensures !Holds(heap, key, w) {
          var steps :| Leads(heap, v, steps, w);
          ExhaustedHoldsNothing(heap, rank, key, v, steps, w, search.seen);
        }
      } else {
        FindSound(heap, rank, key, v, {});
      }
    }
  }

  /** Which ranking shows that the search ends makes no difference to it. */
  lemma {:induction false} RankIrrelevant(heap: Heap, r: Rank, s: Rank, key: string, v: Val, seen: set<nat>)
    requires Ranked(heap, r) && Ranked(heap, s)
    ensures Find(heap, r, key, v, seen) == Find(heap, s, key, v, seen)
    decreases |Unseen(heap, seen)|, Level(heap, r, v), 0, 0
  {
    if IsArray(heap, v) {
      RankIrrelevantAll(heap, r, s, key, Children(heap, v), seen, r(v.addr), s(v.addr));
    } else if IsObject(heap, v) && v.addr !in seen {
      UnseenShrinks(heap, seen, seen + {v.addr});
      RankIrrelevantAll(heap, r, s, key, Children(heap, v), seen + {v.addr}, |heap|, |heap|);
    }
  }

  lemma {:induction false} RankIrrelevantAll(heap: Heap, r: Rank, s: Rank, key: string, vals: seq<Val>, seen: set<nat>,
                                             level: nat, other: nat)
    requires Ranked(heap, r) && forall i :: 0 <= i < |vals| ==> Level(heap, r, vals[i]) <= level
    requires Ranked(heap, s) && forall i :: 0 <= i < |vals| ==> Level(heap, s, vals[i]) <= other
    ensures FindAll(heap, r, key, vals, seen, level) == FindAll(heap, s, key, vals, seen, other)
    decreases |Unseen(heap, seen)|, level, 1, |vals|
  {
    if vals != [] {
      RankIrrelevant(heap, r, s, key, vals[0], seen);
      var first := Find(heap, r, key, vals[0], seen);
      UnseenShrinks(heap, seen, first.seen);
      RankIrrelevantAll(heap, r, s, key, vals[1..], first.seen, level, other);
    }
  }

  // ---------- without the visited set ----------

  function Height(heap: Heap, rank: Rank, v: Val): nat {
    if NodeAt(heap, v).Some? then rank(v.addr) + 1 else 0
  }

  /** No cycles at all: every child has a lower rank. Shared objects are allowed. */
  ghost predicate Acyclic(heap: Heap, rank: Rank) {
    forall a :: 0 <= a < |heap| ==>
      rank(a) < |heap|
      && forall i :: 0 <= i < |Children(heap, Ref(a))| ==> Height(heap, rank, Children(heap, Ref(a))[i]) <= rank(a)
  }

  /** The pre-order search that remembers nothing. */
  ghost function Plain(heap: Heap, rank: Rank, key: string, v: Val): Val
    requires Acyclic(heap, rank)
    decreases Height(heap, rank, v), 0, 0
  {
    if NodeAt(heap, v).None? then Undefined
    else if Holds(heap, key, v) then Held(heap, key, v)
    else
      assert v == Ref(v.addr);
      PlainAll(heap, rank, key, Children(heap, v), rank(v.addr))
  }

  ghost function PlainAll(heap: Heap, rank: Rank, key: string, vals: seq<Val>, height: nat): Val
    requires Acyclic(heap, rank) && forall i :: 0 <= i < |vals| ==> Height(heap, rank, vals[i]) <= height
    decreases height, 1, |vals|
  {
    if vals == [] then Undefined
    else if Plain(heap, rank, key, vals[0]) != Undefined then Plain(heap, rank, key, vals[0])
    else PlainAll(heap, rank, key, vals[1..], height)
  }

  ghost predicate EarliestAt(heap: Heap, rank: Rank, key: string, vals: seq<Val>, i: nat)
    requires Acyclic(heap, rank)
  {
    && i < |vals| && Plain(heap, rank, key, vals[i]) != Undefined
    && forall j :: 0 <= j < i ==> Plain(heap, rank, key, vals[j]) == Undefined
  }

  lemma {:induction false} EarliestOfAll(heap: Heap, rank: Rank, key: string, vals: seq<Val>, height: nat)
    requires Acyclic(heap, rank) && forall i :: 0 <= i < |vals| ==> Height(heap, rank, vals[i]) <= height
    ensures var r := PlainAll(heap, rank, key, vals, height);
      && (forall i: nat :: EarliestAt(heap, rank, key, vals, i) ==> r == Plain(heap, rank, key, vals[i]))
      && (r == Undefined <==> forall i :: 0 <= i < |vals| ==> Plain(heap, rank, key, vals[i]) == Undefined)
    decreases |vals|
  {
    if vals != [] {
      EarliestOfAll(heap, rank, key, vals[1..], height);
      forall i: nat | EarliestAt(heap, rank, key, vals, i)
        ensures PlainAll(heap, rank, key, vals, height) == Plain(heap, rank, key, vals[i])
      {
        if i > 0 { assert EarliestAt(heap, rank, key, vals[1..], i - 1) && vals[1..][i - 1] == vals[i]; }
      }
      forall i | 0 < i < |vals| ensures vals[i] == vals[1..][i - 1] {}
    }
  }

  /** What the object holds itself comes first, then what is found under its earliest child. */
  lemma PlainIsPreOrder(heap: Heap, rank: Rank, key: string, v: Val)
    requires Acyclic(heap, rank)
    ensures Holds(heap, key, v) ==> Plain(heap, rank, key, v) == Held(heap, key, v)
    ensures !Holds(heap, key, v) ==>
      && (forall i: nat :: EarliestAt(heap, rank, key, Children(heap, v), i) ==>
            Plain(heap, rank, key, v) == Plain(heap, rank, key, Children(heap, v)[i]))
      && ((forall i :: 0 <= i < |Children(heap, v)| ==> Plain(heap, rank, key, Children(heap, v)[i]) == Undefined)
          <==> Plain(heap, rank, key, v) == Undefined)
  {
    if NodeAt(heap, v).Some? && !Holds(heap, key, v) {
      assert v == Ref(v.addr);
      EarliestOfAll(heap, rank, key, Children(heap, v), rank(v.addr));
    }
  }

  lemma AcyclicIsRanked(heap: Heap, rank: Rank)
    requires Acyclic(heap, rank)
    ensures Ranked(heap, rank)
  {
    forall a | 0 <= a < |heap| && heap[a].ArrNode?
      ensures rank(a) < |heap| && forall i :: 0 <= i < |heap[a].items| ==>
                Level(heap, rank, heap[a].items[i]) <= rank(a)
    {
      assert Children(heap, Ref(a)) == heap[a].items;
    }
  }

  /** Seen objects below the height are known to lead nowhere. */
  ghost predicate SeenBarren(heap: Heap, rank: Rank, key: string, seen: set<nat>, height: nat)
    requires Acyclic(heap, rank)
  {
    forall a :: a in seen ==> Height(heap, rank, Ref(a)) > height || Plain(heap, rank, key, Ref(a)) == Undefined
  }

  ghost predicate Barren(heap: Heap, rank: Rank, key: string, addrs: set<nat>)
    requires Acyclic(heap, rank)
  {
    forall a :: a in addrs ==> Plain(heap, rank, key, Ref(a)) == Undefined
  }

  lemma {:induction false} FindIsPlain(heap: Heap, rank: Rank, key: string, v: Val, seen: set<nat>)
    requires Acyclic(heap, rank) && Ranked(heap, rank)
    requires SeenBarren(heap, rank, key, seen, Height(heap, rank, v))
    ensures var r := Find(heap, rank, key, v, seen);
      r.found == Plain(heap, rank, key, v) && (r.found == Undefined ==> Barren(heap, rank, key, r.seen - seen))
    decreases Height(heap, rank, v), 0, 0
  {
    if NodeAt(heap, v).Some? && !Holds(heap, key, v) {
      assert v == Ref(v.addr);
      if IsArray(heap, v) {
        FindAllIsPlain(heap, rank, key, Children(heap, v), seen, rank(v.addr), rank(v.addr));
      } else if v.addr !in seen {
        FindAllIsPlain(heap, rank, key, Children(heap, v), seen + {v.addr}, rank(v.addr), |heap|);
      }
    }
  }

  lemma {:induction false} FindAllIsPlain(heap: Heap, rank: Rank, key: string, vals: seq<Val>, seen: set<nat>,
                                          height: nat, level: nat)
    requires Acyclic(heap, rank) && Ranked(heap, rank)
    requires forall i :: 0 <= i < |vals| ==> Height(heap, rank, vals[i]) <= height
    requires forall i :: 0 <= i < |vals| ==> Level(heap, rank, vals[i]) <= level
    requires SeenBarren(heap, rank, key, seen, height)
    ensures var r := FindAll(heap, rank, key, vals, seen, level);
      && r.found == PlainAll(heap, rank, key, vals, height)
      && (r.found == Undefined ==> Barren(heap, rank, key, r.seen - seen))
    decreases height, 1, |vals|
  {
    if vals != [] {
      FindIsPlain(heap, rank, key, vals[0], seen);
      var first := Find(heap, rank, key, vals[0], seen);
      if first.found == Undefined {
        forall a | a in first.seen
          ensures Height(heap, rank, Ref(a)) > height || Plain(heap, rank, key, Ref(a)) == Undefined
        {
          if a !in seen { assert a in first.seen - seen; }
        }
        FindAllIsPlain(heap, rank, key, vals[1..], first.seen, height, level);
        var last := FindAll(heap, rank, key, vals[1..], first.seen, level);
        if last.found == Undefined {
          forall a | a in last.seen - seen ensures Plain(heap, rank, key, Ref(a)) == Undefined {
            if a in first.seen { assert a in first.seen - seen; } else { assert a in last.seen - first.seen; }
          }
        }
      }
    }
  }

  /** On every graph without cycles, trees or not, the visited set changes nothing but the cost. */
  lemma VisitedSetInvisible(heap: Heap, rank: Rank, keyName: string, v: Val)
    requires Acyclic(heap, rank)
    ensures Ranked(heap, rank)
    ensures FindFirst(heap, rank, keyName, v, {}).found
         == if Trim(keyName) == "" then Undefined else Plain(heap, rank, Trim(keyName), v)
  {
    AcyclicIsRanked(heap, rank);
    FindIsPlain(heap, rank, Trim(keyName), v, {});
  }
}
