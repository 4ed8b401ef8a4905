/**
 The queue behind the concurrency limit (concurrency-queue.ts): who is let through, who waits, and when more are let
 through than the limit allows.
 */
module ConcurrencyQueue {
  type Id = nat

  /** `granted` lists the executions let through, in order; `returned` counts those that gave their slot back. */
  datatype State = State(capacity: int, queue: seq<Id>, granted: seq<Id>, returned: nat)

  function Initial(limit: nat): State { State(limit, [], [], 0) }

  function Held(s: State): int { |s.granted| - s.returned }

  function ResolveNextOutcome(s: State): State {
    if s.queue == [] then s else s.(queue := s.queue[1..], granted := s.granted + [s.queue[0]])
  }

  function EnqueueOutcome(s: State, id: Id): State {
    if s.capacity - 1 < 0 then s.(capacity := s.capacity - 1, queue := s.queue + [id])
    else s.(capacity := s.capacity - 1, granted := s.granted + [id])
  }

  /** Called by a holder that returns its slot. */
  function DequeueOutcome(s: State): State {
    ResolveNextOutcome(s.(capacity := s.capacity + 1, returned := s.returned + 1))
  }

  function Position(queue: seq<Id>, id: Id): (i: nat)
    ensures i <= |queue| && (i < |queue| ==> queue[i] == id)
    ensures forall j :: 0 <= j < i ==> queue[j] != id
  {
    if queue == [] || queue[0] == id then 0 else 1 + Position(queue[1..], id)
  }

  function RemoveOutcome(s: State, id: Id): State {
    var i := Position(s.queue, id);
    if i >= |s.queue| then s
    else ResolveNextOutcome(s.(queue := s.queue[..i] + s.queue[i + 1..], capacity := s.capacity + 1))
  }

  class ConcurrencyQueue {
    var queue: seq<Id>
    var capacity: int
    var granted: seq<Id>
    var returned: nat

    constructor (capacity: nat)
      ensures Snapshot() == Initial(capacity)
    {
      queue, this.capacity, granted, returned := [], capacity, [], 0;
    }

    function Snapshot(): State
      reads this
    {
      State(capacity, queue, granted, returned)
    }

    /** The promise is resolved at once, or its resolver is queued. */
    method Enqueue(id: Id)
      modifies this
      ensures Snapshot() == EnqueueOutcome(old(Snapshot()), id)
    {
      capacity := capacity - 1;
      if capacity < 0 { queue := queue + [id]; } else { granted := granted + [id]; }
    }

    method Dequeue()
      modifies this
      ensures Snapshot() == DequeueOutcome(old(Snapshot()))
    {
      capacity := capacity + 1;
      returned := returned + 1;
      ResolveNext();
    }

    method Remove(id: Id)
      modifies this
      ensures Snapshot() == RemoveOutcome(old(Snapshot()), id)
    {
      var index := FindIndex(id);
      if index < |queue| {
        queue := queue[..index] + queue[index + 1..];
        capacity := capacity + 1;
        ResolveNext();
      }
    }

    method FindIndex(id: Id) returns (index: nat)
      ensures index == Position(queue, id)
    {
      index := 0;
      while index < |queue| && queue[index] != id
        invariant index <= |queue| && Position(queue, id) == index + Position(queue[index..], id)
      {
        index := index + 1;
      }
    }

    method ResolveNext()
      modifies this
      ensures Snapshot() == ResolveNextOutcome(old(Snapshot()))
    {
      if |queue| == 0 { return; }
      granted := granted + [queue[0]];
      queue := queue[1..];
    }
  }

  // ---------- over whole runs ----------

  datatype Op = Enqueue(id: Id) | Dequeue | Remove(id: Id)

  /** Only a holder can return a slot. */
  function Step(s: State, op: Op): State {
    match op
    case Enqueue(id) => EnqueueOutcome(s, id)
    case Dequeue => if Held(s) > 0 then DequeueOutcome(s) else s
    case Remove(id) => RemoveOutcome(s, id)
  }

  function Run(s: State, ops: seq<Op>): State
    decreases |ops|
  {
    if ops == [] then s else Step(Run(s, ops[..|ops| - 1]), ops[|ops| - 1])
  }

  /** Every slot is free, held or owed to someone waiting, and nobody waits while a slot is free. */
  predicate Balanced(s: State, limit: nat) {
    s.capacity + Held(s) + |s.queue| == limit && Held(s) >= 0 && (s.queue != [] ==> Held(s) >= limit)
  }

  lemma {:induction false} RunBalanced(limit: nat, ops: seq<Op>)
    ensures Balanced(Run(Initial(limit), ops), limit)
    decreases |ops|
  {
    if ops != [] {
      RunBalanced(limit, ops[..|ops| - 1]);
    }
  }

  /** The step takes an execution out of the queue while another one waits. */
  predicate RemovesAmongOthers(s: State, op: Op) {
    op.Remove? && op.id in s.queue && |s.queue| >= 2
  }

  /**
   A removal among others lets one more through without a slot having been returned; no other step exceeds the limit.
   */
  lemma ExceedsExactly(s: State, limit: nat, op: Op)
    requires Balanced(s, limit) && Held(s) <= limit
    ensures Held(Step(s, op)) > limit <==> RemovesAmongOthers(s, op)
    ensures RemovesAmongOthers(s, op) ==> Held(Step(s, op)) == limit + 1
  {
  }

  /** The limit holds at every point of the run. */
  ghost predicate LimitKept(limit: nat, ops: seq<Op>)
    decreases |ops|
  {
    Held(Run(Initial(limit), ops)) <= limit && (ops == [] || LimitKept(limit, ops[..|ops| - 1]))
  }

  ghost predicate NeverRemovesAmongOthers(limit: nat, ops: seq<Op>)
    decreases |ops|
  {
    ops == [] ||
    (var front := ops[..|ops| - 1];
     !RemovesAmongOthers(Run(Initial(limit), front), ops[|ops| - 1]) && NeverRemovesAmongOthers(limit, front))
  }

  /**
   A run keeps to the limit throughout if and only if it never removes a waiting execution while another one waits.
   */
  lemma {:induction false} LimitKeptExactly(limit: nat, ops: seq<Op>)
    ensures LimitKept(limit, ops) <==> NeverRemovesAmongOthers(limit, ops)
    decreases |ops|
  {
    if ops != [] {
      var front := ops[..|ops| - 1];
      LimitKeptExactly(limit, front);
      RunBalanced(limit, front);
      if LimitKept(limit, front) {
        ExceedsExactly(Run(Initial(limit), front), limit, ops[|ops| - 1]);
      }
    }
  }

  /** One slot: two executions wait, the first is stopped, and the second starts beside the one that runs. */
  lemma StoppingAWaiterStartsAnother()
    ensures Held(Run(Initial(1), [Enqueue(1), Enqueue(2), Enqueue(3), Remove(2)])) == 2
  {
    var ops := [Enqueue(1), Enqueue(2), Enqueue(3), Remove(2)];
    assert ops[..3] == [Enqueue(1), Enqueue(2), Enqueue(3)];
    assert ops[..3][..2] == [Enqueue(1), Enqueue(2)] && ops[..3][..2][..1] == [Enqueue(1)];
    assert Run(Initial(1), [Enqueue(1)]) == State(0, [], [1], 0) by { assert [Enqueue(1)][..0] == []; }
    assert Run(Initial(1), [Enqueue(1), Enqueue(2)]) == State(-1, [2], [1], 0);
    assert Run(Initial(1), ops[..3]) == State(-2, [2, 3], [1], 0);
  }

  // ---------- first in, first out ----------

  /** Everybody who was let through or still waits, in this order. */
  function Line(s: State): seq<Id> { s.granted + s.queue }

  /** An execution is let through at once exactly while a slot is free; otherwise it waits at the end. */
  lemma EnqueueJoins(s: State, limit: nat, id: Id)
    requires Balanced(s, limit)
    ensures var t := Step(s, Enqueue(id));
      && Line(t) == Line(s) + [id]
      && if Held(s) < limit then t.granted == s.granted + [id] && t.queue == s.queue == []
         else t.granted == s.granted && t.queue == s.queue + [id]
  {
  }

  /** A returned slot goes to the one who has waited longest. */
  lemma DequeueServesFirst(s: State)
    ensures var t := Step(s, Dequeue);
      && Line(t) == Line(s)
      && (Held(s) > 0 && s.queue != [] ==> t.granted == s.granted + [s.queue[0]] && Held(t) == Held(s))
      && (Held(s) > 0 && s.queue == [] ==> t.granted == s.granted && Held(t) == Held(s) - 1)
      && (Held(s) <= 0 ==> t == s)
  {
  }

  /** The line without the execution's first place in the queue. */
  ghost predicate WithoutFirst(s: State, t: State, id: Id, i: nat) {
    && i < |s.queue| && s.queue[i] == id && (forall j :: 0 <= j < i ==> s.queue[j] != id)
    && Line(t) == s.granted + s.queue[..i] + s.queue[i + 1..] && s.granted <= t.granted
  }

  lemma RemoveTakesOneOut(s: State, id: Id)
    ensures var t := Step(s, Remove(id));
      if id in s.queue then exists i: nat :: WithoutFirst(s, t, id, i) else t == s
  {
    var i := Position(s.queue, id);
    if i < |s.queue| { assert WithoutFirst(s, Step(s, Remove(id)), id, i); }
  }

  function Enqueued(ops: seq<Op>): seq<Id>
    decreases |ops|
  {
    if ops == [] then [] else
      var last := ops[|ops| - 1];
      Enqueued(ops[..|ops| - 1]) + (if last.Enqueue? then [last.id] else [])
  }

  /** As long as nobody is removed, executions are let through in the order in which they came. */
  lemma {:induction false} FirstInFirstOut(limit: nat, ops: seq<Op>)
    requires forall i :: 0 <= i < |ops| ==> !ops[i].Remove?
    ensures Line(Run(Initial(limit), ops)) == Enqueued(ops) && Run(Initial(limit), ops).granted <= Enqueued(ops)
    decreases |ops|
  {
    if ops != [] {
      var front, last := ops[..|ops| - 1], ops[|ops| - 1];
      FirstInFirstOut(limit, front);
      RunBalanced(limit, front);
      match last
      case Enqueue(id) => EnqueueJoins(Run(Initial(limit), front), limit, id);
      case Dequeue => DequeueServesFirst(Run(Initial(limit), front));
    }
  }
}
