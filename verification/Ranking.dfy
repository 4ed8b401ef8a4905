/** Finite graphs: a ranking of the nodes that falls along every edge, and the cycles that rule it out. */
module Ranking {
  type Edges = nat -> seq<nat>

  /** Each node on the path is led to by the one before; the path starts after x and ends at y. */
  ghost predicate Path(next: Edges, nodes: set<nat>, x: nat, path: seq<nat>, y: nat)
    decreases |path|
  {
    if path == [] then x == y
    else path[0] in next(x) && path[0] in nodes && Path(next, nodes, path[0], path[1..], y)
  }

  ghost predicate NoCycle(next: Edges, nodes: set<nat>) {
    forall x, path :: x in nodes && path != [] ==> !Path(next, nodes, x, path, x)
  }

  ghost predicate FallsAlongEdges(next: Edges, nodes: set<nat>, rank: nat -> nat) {
    forall x, y :: x in nodes && y in nodes && y in next(x) ==> rank(y) < rank(x)
  }

  /** And the ranks are less than the number of nodes. */
  ghost predicate Falls(next: Edges, nodes: set<nat>, rank: nat -> nat) {
    FallsAlongEdges(next, nodes, rank) && forall x :: x in nodes ==> rank(x) < |nodes|
  }

  lemma {:induction false} FallsAlongPath(next: Edges, nodes: set<nat>, rank: nat -> nat, x: nat, path: seq<nat>,
                                          y: nat)
    requires FallsAlongEdges(next, nodes, rank) && x in nodes && Path(next, nodes, x, path, y)
    ensures rank(y) <= rank(x) && (path != [] ==> rank(y) < rank(x))
    decreases |path|
  {
    if path != [] { FallsAlongPath(next, nodes, rank, path[0], path[1..], y); }
  }

  lemma FallingHasNoCycle(next: Edges, nodes: set<nat>, rank: nat -> nat)
    requires FallsAlongEdges(next, nodes, rank)
    ensures NoCycle(next, nodes)
  {
    forall x, path | x in nodes && path != [] ensures !Path(next, nodes, x, path, x) {
      if Path(next, nodes, x, path, x) { FallsAlongPath(next, nodes, rank, x, path, x); }
    }
  }

  lemma {:induction false} PathFurther(next: Edges, nodes: set<nat>, x: nat, path: seq<nat>, y: nat, z: nat)
    requires Path(next, nodes, x, path, y) && z in next(y) && z in nodes
    ensures Path(next, nodes, x, path + [z], z)
    decreases |path|
  {
    if path == [] {
      assert [z][1..] == [] && path + [z] == [z];
    } else {
      assert (path + [z])[1..] == path[1..] + [z];
      PathFurther(next, nodes, path[0], path[1..], y, z);
    }
  }

  lemma {:induction false} PathInMore(next: Edges, nodes: set<nat>, more: set<nat>, x: nat, path: seq<nat>, y: nat)
    requires nodes <= more && Path(next, nodes, x, path, y)
    ensures Path(next, more, x, path, y)
    decreases |path|
  {
    if path != [] { PathInMore(next, nodes, more, path[0], path[1..], y); }
  }

  ghost predicate Reaches(next: Edges, nodes: set<nat>, x: nat, y: nat) {
    exists path :: Path(next, nodes, x, path, y)
  }

  ghost predicate Sink(next: Edges, nodes: set<nat>, m: nat) {
    m in nodes && forall y :: y in next(m) ==> y !in nodes
  }

  /** Walking on from x; every node that has been visited leads to x. */
  lemma {:induction false} FindSink(next: Edges, nodes: set<nat>, unvisited: set<nat>, x: nat) returns (m: nat)
    requires NoCycle(next, nodes) && x in nodes && unvisited <= nodes
    requires forall v :: v in nodes && v !in unvisited ==> Reaches(next, nodes, v, x)
    ensures Sink(next, nodes, m)
    decreases |unvisited|
  {
    if Sink(next, nodes, x) {
      m := x;
    } else {
      var y :| y in next(x) && y in nodes;
      if y !in unvisited { ClosesCycle(next, nodes, x, y); }
      forall v | v in nodes && v !in unvisited - {y} ensures Reaches(next, nodes, v, y) {
        if v == y {
          assert Path(next, nodes, y, [], y);
        } else {
          var path :| Path(next, nodes, v, path, x);
          PathFurther(next, nodes, v, path, x, y);
        }
      }
      m := FindSink(next, nodes, unvisited - {y}, y);
    }
  }

  lemma ClosesCycle(next: Edges, nodes: set<nat>, x: nat, y: nat)
    requires NoCycle(next, nodes) && x in nodes && y in nodes && y in next(x)
    ensures !Reaches(next, nodes, y, x)
  {
    if path :| Path(next, nodes, y, path, x) {
      assert ([y] + path)[1..] == path;
      assert Path(next, nodes, x, [y] + path, x);
    }
  }

  lemma FewerNodesNoCycle(next: Edges, nodes: set<nat>, more: set<nat>)
    requires nodes <= more && NoCycle(next, more)
    ensures NoCycle(next, nodes)
  {
    forall x, path | x in nodes && path != [] ensures !Path(next, nodes, x, path, x) {
      if Path(next, nodes, x, path, x) { PathInMore(next, nodes, more, x, path, x); }
    }
  }

  lemma SinkIsLowest(next: Edges, nodes: set<nat>, m: nat, above: nat -> nat, rank: nat -> nat)
    requires Sink(next, nodes, m) && Falls(next, nodes - {m}, above)
    requires forall v :: rank(v) == if v == m then 0 else above(v) + 1
    ensures Falls(next, nodes, rank)
  {
    assert |nodes - {m}| == |nodes| - 1;
    forall x | x in nodes ensures rank(x) < |nodes| {
      if x != m { assert x in nodes - {m}; }
    }
    forall x, y | x in nodes && y in nodes && y in next(x) ensures rank(y) < rank(x) {
      if y != m { assert x in nodes - {m} && y in nodes - {m}; }
    }
  }

  /**
   Without cycles the nodes can be ranked: a node that leads nowhere is the lowest, and the others are ranked first.
   */
  lemma {:induction false} CanBeRanked(next: Edges, nodes: set<nat>) returns (rank: nat -> nat)
    requires NoCycle(next, nodes)
    ensures Falls(next, nodes, rank)
    decreases |nodes|
  {
    if x :| x in nodes {
      assert Path(next, nodes, x, [], x);
      var m := FindSink(next, nodes, nodes - {x}, x);
      FewerNodesNoCycle(next, nodes - {m}, nodes);
      var above := CanBeRanked(next, nodes - {m});
      rank := v => if v == m then 0 else above(v) + 1;
      SinkIsLowest(next, nodes, m, above, rank);
    } else {
      rank := _ => 0;
    }
  }
}
