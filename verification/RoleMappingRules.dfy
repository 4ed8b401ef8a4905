/**
 Role-mapping rules (role-mapping-rule.service.ts): the rows of the rule table, under the database's
 uniqueness constraint on (type, order), and the operations that keep each kind's orders dense.
 */
module RoleMappingRules {
  import opened Wrappers

  // Ids, slugs and expressions are only ever compared; NO_ID stands for a missing (empty) rule id.
  type RuleId = nat
  type ProjectId = nat
  type Slug = nat
  type Expression = nat

  const NO_ID: RuleId := 0

  datatype Kind = InstanceKind | ProjectKind
  datatype RoleType = GlobalRole | ProjectRole | OtherRole
  datatype Error = BadRequest | NotFound | Conflict | UniqueViolation

  datatype Rule = Rule(expression: Expression, role: Slug, kind: Kind, order: int, projects: set<ProjectId>)

  type Rows = map<RuleId, Rule>

  /** The other tables the service reads. */
  datatype Catalog = Catalog(roles: map<Slug, RoleType>, projects: set<ProjectId>)

  datatype CreateDto = CreateDto(expression: Expression, role: Slug, kind: Kind, order: int,
                                 projectIds: Option<set<ProjectId>>)

  datatype PatchDto = PatchDto(expression: Option<Expression>, role: Option<Slug>, kind: Option<Kind>,
                               order: Option<int>, projectIds: Option<set<ProjectId>>)

  /** What an operation leaves behind: the rows, and whether it returned or threw. */
  datatype Outcome = Outcome(rows: Rows, result: Result<(), Error>)

  // ---------- the table ----------

  predicate IsOf(rows: Rows, kind: Kind, id: RuleId) {
    id in rows && rows[id].kind == kind
  }

  /** The table's uniqueness constraint on (type, order). */
  ghost predicate UniqueOrders(rows: Rows) {
    forall a, b :: NoClash(rows, a, b)
  }

  ghost predicate NoClash(rows: Rows, a: RuleId, b: RuleId) {
    a in rows && b in rows && a != b && rows[a].kind == rows[b].kind ==> rows[a].order != rows[b].order
  }

  /** `ids` enumerates the rows of a kind, each once. */
  ghost predicate Enumerates(rows: Rows, kind: Kind, ids: seq<RuleId>) {
    && (forall i :: 0 <= i < |ids| ==> IsOf(rows, kind, ids[i]))
    && (forall i, j :: 0 <= i < j < |ids| ==> ids[i] != ids[j])
    && (forall id :: IsOf(rows, kind, id) ==> id in ids)
  }

  /** `ids` is the rows of a kind in ascending order. */
  ghost predicate IsListing(rows: Rows, kind: Kind, ids: seq<RuleId>) {
    && Enumerates(rows, kind, ids)
    && (forall i, j :: 0 <= i < j < |ids| ==> rows[ids[i]].order < rows[ids[j]].order)
  }

  /** The orders of a kind are exactly 0..n-1, along the sequence `ids`. */
  ghost predicate DenseAs(rows: Rows, kind: Kind, ids: seq<RuleId>) {
    && (forall i :: 0 <= i < |ids| ==> IsOf(rows, kind, ids[i]) && rows[ids[i]].order == i)
    && (forall id :: IsOf(rows, kind, id) ==> 0 <= rows[id].order < |ids| && ids[rows[id].order] == id)
  }

  /** The sequence of each kind. */
  datatype Listings = Listings(instanceRules: seq<RuleId>, projectRules: seq<RuleId>) {
    function Of(kind: Kind): seq<RuleId> {
      if kind == InstanceKind then instanceRules else projectRules
    }

    function With(kind: Kind, ids: seq<RuleId>): Listings {
      if kind == InstanceKind then this.(instanceRules := ids) else this.(projectRules := ids)
    }
  }

  /** Both kinds are dense, in the sequences given. */
  ghost predicate DenseTable(rows: Rows, listings: Listings) {
    UniqueOrders(rows) && forall kind :: DenseAs(rows, kind, listings.Of(kind))
  }

  /** Nothing but orders differs. */
  ghost predicate SameButOrders(before: Rows, after: Rows) {
    && after.Keys == before.Keys
    && (forall id :: id in before ==> after[id].(order := before[id].order) == before[id])
  }

  /** Nothing but the orders of one kind differs. */
  ghost predicate OnlyOrdersChanged(before: Rows, after: Rows, kind: Kind) {
    && SameButOrders(before, after)
    && (forall id :: id in before && before[id].kind != kind ==> after[id] == before[id])
  }

  // ---------- sorted reading ----------

  function Orders(rows: Rows, kind: Kind): map<RuleId, int> {
    map id | id in rows && rows[id].kind == kind :: rows[id].order
  }

  predicate Least(orders: map<RuleId, int>, id: RuleId) {
    id in orders && forall other :: other in orders && other != id ==> orders[id] < orders[other]
  }

  ghost predicate Injective(orders: map<RuleId, int>) {
    forall a, b :: a in orders && b in orders && a != b ==> orders[a] != orders[b]
  }

  lemma LeastExists(orders: map<RuleId, int>, some: RuleId)
    requires Injective(orders) && some in orders
    ensures exists id :: Least(orders, id)
    decreases orders.Keys
  {
    var rest := orders - {some};
    if next :| next in rest {
      LeastExists(rest, next);
      var least :| Least(rest, least);
      var id := if orders[some] < orders[least] then some else least;
      forall other | other in orders && other != id ensures orders[id] < orders[other] {
        assert other == some || other in rest;
      }
      assert Least(orders, id);
    } else {
      forall other | other in orders ensures other == some {
        assert other == some || other in rest;
      }
      assert Least(orders, some);
    }
  }

  lemma NonEmptyHasLeast(orders: map<RuleId, int>)
    requires Injective(orders) && orders.Keys != {}
    ensures exists id :: Least(orders, id)
  {
    var some :| some in orders.Keys;
    LeastExists(orders, some);
  }

  /** The keys in ascending order of their values. */
  function Sorted(orders: map<RuleId, int>): (ids: seq<RuleId>)
    requires Injective(orders)
    ensures forall i :: 0 <= i < |ids| ==> ids[i] in orders
    decreases orders.Keys
  {
    if orders.Keys == {} then [] else
      NonEmptyHasLeast(orders);
      var least :| Least(orders, least);
      [least] + Sorted(orders - {least})
  }

  lemma SortedAscends(orders: map<RuleId, int>)
    requires Injective(orders)
    ensures forall i, j :: 0 <= i < j < |Sorted(orders)| ==> orders[Sorted(orders)[i]] < orders[Sorted(orders)[j]]
    ensures forall id :: id in orders ==> id in Sorted(orders)
  {
  }

  lemma OrdersDistinct(rows: Rows, kind: Kind)
    requires UniqueOrders(rows)
    ensures Injective(Orders(rows, kind))
  {
    forall a, b | a in Orders(rows, kind) && b in Orders(rows, kind) && a != b
      ensures Orders(rows, kind)[a] != Orders(rows, kind)[b]
    {
      assert NoClash(rows, a, b);
    }
  }

  lemma SortedIsListing(rows: Rows, kind: Kind)
    requires UniqueOrders(rows)
    ensures Injective(Orders(rows, kind))
    ensures IsListing(rows, kind, Sorted(Orders(rows, kind)))
  {
    OrdersDistinct(rows, kind);
    SortedAscends(Orders(rows, kind));
    var ids := Sorted(Orders(rows, kind));
    forall i | 0 <= i < |ids| ensures IsOf(rows, kind, ids[i]) && rows[ids[i]].order == Orders(rows, kind)[ids[i]] {
    }
    forall id | IsOf(rows, kind, id) ensures id in ids {
      assert id in Orders(rows, kind);
    }
  }

  /** `find({ where: { type }, order: { order: 'ASC' } })`. */
  ghost function Listing(rows: Rows, kind: Kind): (ids: seq<RuleId>)
    requires UniqueOrders(rows)
    ensures IsListing(rows, kind, ids)
  {
    SortedIsListing(rows, kind);
    var ids :| IsListing(rows, kind, ids);
    ids
  }

  /** `ids` is the keys of `orders`, ascending. */
  ghost predicate Ascends(orders: map<RuleId, int>, ids: seq<RuleId>) {
    && (forall i :: 0 <= i < |ids| ==> ids[i] in orders)
    && (forall id :: id in orders ==> id in ids)
    && (forall i, j :: 0 <= i < j < |ids| ==> orders[ids[i]] < orders[ids[j]])
  }

  lemma HeadsAgree(orders: map<RuleId, int>, a: seq<RuleId>, b: seq<RuleId>)
    requires Ascends(orders, a) && Ascends(orders, b) && a != []
    ensures b != [] && a[0] == b[0]
  {
    assert a[0] in orders && a[0] in b;
  }

  lemma {:induction false} SameAscending(orders: map<RuleId, int>, a: seq<RuleId>, b: seq<RuleId>, n: nat)
    requires Ascends(orders, a) && Ascends(orders, b) && n <= |a|
    ensures n <= |b| && a[..n] == b[..n]
  {
    if n > 0 {
      HeadsAgree(orders, a, b);
      SameAscending(orders - {a[0]}, a[1..], b[1..], n - 1);
      HeadAndTail(a, n);
      HeadAndTail(b, n);
    }
  }

  lemma HeadAndTail(ids: seq<RuleId>, n: nat)
    requires 0 < n <= |ids|
    ensures ids[..n] == [ids[0]] + ids[1..][..n - 1]
  {
  }

  /** The ascending sequence of a kind is unique, so any sequence seen to be one is what `find` returns. */
  lemma ListingIs(rows: Rows, kind: Kind, ids: seq<RuleId>)
    requires UniqueOrders(rows) && IsListing(rows, kind, ids)
    ensures Listing(rows, kind) == ids
  {
    var orders := Orders(rows, kind);
    var listing := Listing(rows, kind);
    SameAscending(orders, listing, ids, |listing|);
    SameAscending(orders, ids, listing, |ids|);
  }

  lemma DenseIsListing(rows: Rows, kind: Kind, ids: seq<RuleId>)
    requires DenseAs(rows, kind, ids)
    ensures IsListing(rows, kind, ids)
  {
  }

  // ---------- renumbering ----------

  function SetOrder(rows: Rows, id: RuleId, order: int): Rows {
    if id in rows then rows[id := rows[id].(order := order)] else rows
  }

  predicate Taken(rows: Rows, id: RuleId, order: int) {
    id in rows && exists other ::
      other in rows && other != id && rows[other].kind == rows[id].kind && rows[other].order == order
  }

  /** One `UPDATE` of a row's order; the constraint rejects it when another row of the kind holds that order. */
  function UpdateOrder(rows: Rows, id: RuleId, order: int): (r: Result<Rows, Error>)
    ensures r.Err? ==> r.error == UniqueViolation
    ensures r.Ok? && UniqueOrders(rows) ==> UniqueOrders(r.value)
  {
    if Taken(rows, id, order) then Err(UniqueViolation) else
      assert forall a, b {:trigger NoClash(SetOrder(rows, id, order), a, b)} ::
        NoClash(rows, a, b) ==> NoClash(SetOrder(rows, id, order), a, b);
      Ok(SetOrder(rows, id, order))
  }

  /** The t-th of the 2n updates of `writeOrder`: which position it writes, and which order. */
  function TargetAt(n: nat, t: nat): (nat, int)
    requires t < 2 * n
    ensures TargetAt(n, t).0 < n
  {
    if t < n then (t, n + 1000 + t) else (t - n, t - n)
  }

  /** The table after the first t updates, had the constraint not been checked. */
  function AfterWrites(rows: Rows, ids: seq<RuleId>, t: nat): Rows
    requires t <= 2 * |ids|
  {
    if t == 0 then rows else
      var (position, order) := TargetAt(|ids|, t - 1);
      SetOrder(AfterWrites(rows, ids, t - 1), ids[position], order)
  }

  /** The first t updates, each under the constraint. */
  function CheckedWrites(rows: Rows, ids: seq<RuleId>, t: nat): (r: Result<Rows, Error>)
    requires t <= 2 * |ids|
    ensures r.Err? ==> r.error == UniqueViolation
    ensures r.Ok? && UniqueOrders(rows) ==> UniqueOrders(r.value)
  {
    if t == 0 then Ok(rows) else
      match CheckedWrites(rows, ids, t - 1)
      case Err(e) => Err(e)
      case Ok(written) =>
        var (position, order) := TargetAt(|ids|, t - 1);
        UpdateOrder(written, ids[position], order)
  }

  /** `writeOrder`: the transaction commits all updates or none. */
  function WriteOrderOutcome(rows: Rows, ids: seq<RuleId>): (o: Outcome)
    ensures UniqueOrders(rows) ==> UniqueOrders(o.rows)
  {
    match CheckedWrites(rows, ids, 2 * |ids|)
    case Ok(written) => Outcome(written, Ok(()))
    case Err(e) => Outcome(rows, Err(e))
  }

  /** No row sits on an order that an earlier row of the sequence is parked at. */
  ghost predicate ParkingIsClear(rows: Rows, ids: seq<RuleId>)
    requires forall i :: 0 <= i < |ids| ==> ids[i] in rows
  {
    forall j :: 0 <= j < |ids| ==> !(|ids| + 1000 <= rows[ids[j]].order < |ids| + 1000 + j)
  }

  /** The order held at position p after t updates. */
  function OrderAfter(rows: Rows, ids: seq<RuleId>, t: nat, p: nat): int
    requires p < |ids| && ids[p] in rows
  {
    if |ids| + p < t then p else if p < t then |ids| + 1000 + p else rows[ids[p]].order
  }

  lemma {:induction false} OrdersAfterWrites(rows: Rows, kind: Kind, ids: seq<RuleId>, t: nat)
    requires Enumerates(rows, kind, ids) && t <= 2 * |ids|
    ensures OnlyOrdersChanged(rows, AfterWrites(rows, ids, t), kind)
    ensures forall p :: 0 <= p < |ids| ==> AfterWrites(rows, ids, t)[ids[p]].order == OrderAfter(rows, ids, t, p)
  {
    if t > 0 {
      OrdersAfterWrites(rows, kind, ids, t - 1);
    }
  }

  lemma PositionsDistinct(rows: Rows, kind: Kind, ids: seq<RuleId>, t: nat, p: nat, q: nat)
    requires UniqueOrders(rows) && Enumerates(rows, kind, ids) && ParkingIsClear(rows, ids)
    requires t <= 2 * |ids| && p < q < |ids|
    ensures OrderAfter(rows, ids, t, p) != OrderAfter(rows, ids, t, q)
  {
    assert NoClash(rows, ids[p], ids[q]);
  }

  lemma StepDistinct(rows: Rows, kind: Kind, ids: seq<RuleId>, t: nat)
    requires UniqueOrders(rows) && Enumerates(rows, kind, ids) && ParkingIsClear(rows, ids) && t <= 2 * |ids|
    ensures UniqueOrders(AfterWrites(rows, ids, t))
  {
    OrdersAfterWrites(rows, kind, ids, t);
    var after := AfterWrites(rows, ids, t);
    forall a, b | a in after && b in after && a != b && after[a].kind == after[b].kind
      ensures NoClash(after, a, b)
    {
      assert NoClash(rows, a, b);
      if rows[a].kind == kind {
        assert IsOf(rows, kind, a) && IsOf(rows, kind, b);
        var p :| 0 <= p < |ids| && ids[p] == a;
        var q :| 0 <= q < |ids| && ids[q] == b;
        PositionsDistinct(rows, kind, ids, t, if p < q then p else q, if p < q then q else p);
      } else {
        assert after[a] == rows[a] && after[b] == rows[b];
      }
    }
  }

  /** Parking at an order that row j still holds makes a duplicate. */
  lemma ClashWitness(rows: Rows, kind: Kind, ids: seq<RuleId>, j: nat)
    requires Enumerates(rows, kind, ids) && j < |ids|
    requires |ids| + 1000 <= rows[ids[j]].order < |ids| + 1000 + j
    ensures var t := rows[ids[j]].order - |ids| - 1000 + 1; 0 <= t <= |ids| && !UniqueOrders(AfterWrites(rows, ids, t))
  {
    var i := rows[ids[j]].order - |ids| - 1000;
    OrdersAfterWrites(rows, kind, ids, i + 1);
    assert !NoClash(AfterWrites(rows, ids, i + 1), ids[i], ids[j]);
  }

  /** The constraint holds after every single update of the renumbering, if and only if the parking area is clear. */
  lemma IntermediateOrdersDistinct(rows: Rows, kind: Kind, ids: seq<RuleId>)
    requires UniqueOrders(rows) && Enumerates(rows, kind, ids)
    ensures (forall t :: 0 <= t <= 2 * |ids| ==> UniqueOrders(AfterWrites(rows, ids, t))) <==> ParkingIsClear(rows, ids)
  {
    if ParkingIsClear(rows, ids) {
      forall t | 0 <= t <= 2 * |ids| ensures UniqueOrders(AfterWrites(rows, ids, t)) {
        StepDistinct(rows, kind, ids, t);
      }
    } else {
      var j :| 0 <= j < |ids| && |ids| + 1000 <= rows[ids[j]].order < |ids| + 1000 + j;
      ClashWitness(rows, kind, ids, j);
    }
  }

  lemma TakenMakesDuplicate(rows: Rows, id: RuleId, order: int)
    requires Taken(rows, id, order)
    ensures !UniqueOrders(SetOrder(rows, id, order))
  {
    var other :| other in rows && other != id && rows[other].kind == rows[id].kind && rows[other].order == order;
    assert !NoClash(SetOrder(rows, id, order), other, id);
  }

  /** While the constraint holds at each step, the checks change nothing. */
  lemma {:induction false} ChecksPassWhileDistinct(rows: Rows, ids: seq<RuleId>, t: nat)
    requires t <= 2 * |ids|
    requires forall s :: 0 <= s <= t ==> UniqueOrders(AfterWrites(rows, ids, s))
    ensures CheckedWrites(rows, ids, t) == Ok(AfterWrites(rows, ids, t))
  {
    if t > 0 {
      ChecksPassWhileDistinct(rows, ids, t - 1);
      var (position, order) := TargetAt(|ids|, t - 1);
      assert UniqueOrders(AfterWrites(rows, ids, t));
      if Taken(AfterWrites(rows, ids, t - 1), ids[position], order) {
        TakenMakesDuplicate(AfterWrites(rows, ids, t - 1), ids[position], order);
        assert false;
      }
    }
  }

  lemma {:induction false} ChecksKeepDistinct(rows: Rows, ids: seq<RuleId>, t: nat, s: nat)
    requires UniqueOrders(rows) && s <= t <= 2 * |ids| && CheckedWrites(rows, ids, t).Ok?
    ensures CheckedWrites(rows, ids, s) == Ok(AfterWrites(rows, ids, s)) && UniqueOrders(AfterWrites(rows, ids, s))
  {
    if s < t {
      ChecksKeepDistinct(rows, ids, t - 1, s);
    } else if t > 0 {
      ChecksKeepDistinct(rows, ids, t - 1, t - 1);
    }
  }

  lemma FinalOrders(rows: Rows, kind: Kind, ids: seq<RuleId>)
    requires Enumerates(rows, kind, ids)
    ensures DenseAs(AfterWrites(rows, ids, 2 * |ids|), kind, ids)
  {
    OrdersAfterWrites(rows, kind, ids, 2 * |ids|);
    var after := AfterWrites(rows, ids, 2 * |ids|);
    forall id | IsOf(after, kind, id) ensures 0 <= after[id].order < |ids| && ids[after[id].order] == id {
      assert IsOf(rows, kind, id);
      var p :| 0 <= p < |ids| && ids[p] == id;
    }
  }

  /** Renumbering succeeds exactly when the parking area is clear; then the kind is dense in the given sequence. */
  lemma WriteOrderExact(rows: Rows, kind: Kind, ids: seq<RuleId>)
    requires UniqueOrders(rows) && Enumerates(rows, kind, ids)
    ensures WriteOrderOutcome(rows, ids).result.Ok? <==> ParkingIsClear(rows, ids)
    ensures ParkingIsClear(rows, ids) ==>
      DenseAs(WriteOrderOutcome(rows, ids).rows, kind, ids)
        && OnlyOrdersChanged(rows, WriteOrderOutcome(rows, ids).rows, kind)
    ensures !ParkingIsClear(rows, ids) ==> WriteOrderOutcome(rows, ids) == Outcome(rows, Err(UniqueViolation))
  {
    var last := 2 * |ids|;
    IntermediateOrdersDistinct(rows, kind, ids);
    if ParkingIsClear(rows, ids) {
      ChecksPassWhileDistinct(rows, ids, last);
      OrdersAfterWrites(rows, kind, ids, last);
      FinalOrders(rows, kind, ids);
    } else if CheckedWrites(rows, ids, last).Ok? {
      forall t | 0 <= t <= last ensures UniqueOrders(AfterWrites(rows, ids, t)) {
        ChecksKeepDistinct(rows, ids, last, t);
      }
    }
  }

  /** Orders below n + 1000 on entry are enough, for every permutation of the kind. */
  lemma LowOrdersNeverClash(rows: Rows, kind: Kind, ids: seq<RuleId>)
    requires UniqueOrders(rows) && Enumerates(rows, kind, ids)
    requires forall id :: IsOf(rows, kind, id) ==> rows[id].order < |ids| + 1000
    ensures WriteOrderOutcome(rows, ids).result == Ok(())
    ensures forall t :: 0 <= t <= 2 * |ids| ==> UniqueOrders(AfterWrites(rows, ids, t))
  {
    IntermediateOrdersDistinct(rows, kind, ids);
    WriteOrderExact(rows, kind, ids);
  }

  function SampleRule(order: int): Rule { Rule(1, 1, InstanceKind, order, {}) }

  /** The bound is tight: with an order equal to n + 1000, renumbering the rows in ascending order fails. */
  lemma BoundIsTight()
    ensures
      var rows := map[1 := SampleRule(1), 2 := SampleRule(1002)];
      UniqueOrders(rows) && IsListing(rows, InstanceKind, [1, 2])
      && WriteOrderOutcome(rows, [1, 2]) == Outcome(rows, Err(UniqueViolation))
  {
    var rows := map[1 := SampleRule(1), 2 := SampleRule(1002)];
    var ids := [1, 2];
    assert IsListing(rows, InstanceKind, ids);
    assert |ids| + 1000 <= rows[ids[1]].order < |ids| + 1000 + 1;
    WriteOrderExact(rows, InstanceKind, ids);
  }

  /** `reindex`: nothing is written when the orders are already the positions. */
  ghost function ReindexOutcome(rows: Rows, kind: Kind): (o: Outcome)
    requires UniqueOrders(rows)
    ensures UniqueOrders(o.rows)
  {
    var all := Listing(rows, kind);
    if forall i :: 0 <= i < |all| ==> rows[all[i]].order == i
    then Outcome(rows, Ok(()))
    else WriteOrderOutcome(rows, all)
  }

  lemma PositionsAreDense(rows: Rows, kind: Kind, ids: seq<RuleId>)
    requires IsListing(rows, kind, ids) && forall i :: 0 <= i < |ids| ==> rows[ids[i]].order == i
    ensures DenseAs(rows, kind, ids)
  {
  }

  lemma ReindexExact(rows: Rows, kind: Kind, ids: seq<RuleId>)
    requires UniqueOrders(rows) && IsListing(rows, kind, ids)
    ensures ReindexOutcome(rows, kind).result.Ok? <==> ParkingIsClear(rows, ids)
    ensures ParkingIsClear(rows, ids) ==>
      DenseAs(ReindexOutcome(rows, kind).rows, kind, ids)
        && OnlyOrdersChanged(rows, ReindexOutcome(rows, kind).rows, kind)
    ensures !ParkingIsClear(rows, ids) ==> ReindexOutcome(rows, kind) == Outcome(rows, Err(UniqueViolation))
  {
    ListingIs(rows, kind, ids);
    if forall i :: 0 <= i < |ids| ==> rows[ids[i]].order == i {
      PositionsAreDense(rows, kind, ids);
      PositionsAreClear(rows, ids);
    } else {
      WriteOrderExact(rows, kind, ids);
    }
  }

  lemma PositionsAreClear(rows: Rows, ids: seq<RuleId>)
    requires forall i :: 0 <= i < |ids| ==> ids[i] in rows && rows[ids[i]].order == i
    ensures ParkingIsClear(rows, ids)
  {
  }

  // ---------- the operations ----------

  function ValidateRoleKind(roleType: RoleType, kind: Kind): Result<(), Error> {
    if kind == InstanceKind && roleType != GlobalRole then Err(BadRequest)
    else if kind == ProjectKind && roleType != ProjectRole then Err(BadRequest)
    else Ok(())
  }

  function ResolveProjectIds(kind: Kind, explicit: Option<set<ProjectId>>, fallback: set<ProjectId>)
    : Result<set<ProjectId>, Error>
  {
    if kind == InstanceKind then
      if explicit.Some? && explicit.value != {} then Err(BadRequest) else Ok({})
    else
      var ids := if explicit.Some? then explicit.value else fallback;
      if ids == {} then Err(BadRequest) else Ok(ids)
  }

  /** `ensureOrderSlotFree`: is the order held by a row of the kind other than the excluded one? */
  predicate SlotTaken(rows: Rows, kind: Kind, order: int, exclude: Option<RuleId>) {
    exists id :: id in rows && rows[id].kind == kind && rows[id].order == order && Some(id) != exclude
  }

  /** The checks of `create`, in source order; the new row when they pass. */
  function CreateChecks(catalog: Catalog, rows: Rows, dto: CreateDto): Result<Rule, Error> {
    match ResolveProjectIds(dto.kind, dto.projectIds, {})
    case Err(e) => Err(e)
    case Ok(projectIds) =>
      if dto.role !in catalog.roles then Err(NotFound) else
        match ValidateRoleKind(catalog.roles[dto.role], dto.kind)
        case Err(e) => Err(e)
        case Ok(_) =>
          if SlotTaken(rows, dto.kind, dto.order, None) then Err(Conflict)
          else if !(projectIds <= catalog.projects) then Err(BadRequest)
          else Ok(Rule(dto.expression, dto.role, dto.kind, dto.order, projectIds))
  }

  /** The checks of `patch`, in source order; the changed row when they pass. */
  function PatchChecks(catalog: Catalog, rows: Rows, id: RuleId, dto: PatchDto): Result<Rule, Error> {
    if id == NO_ID || dto == PatchDto(None, None, None, None, None) then Err(BadRequest)
    else if id !in rows then Err(NotFound)
    else
      var rule := rows[id];
      var kind := if dto.kind.Some? then dto.kind.value else rule.kind;
      var slug := if dto.role.Some? then dto.role.value else rule.role;
      var order := if dto.order.Some? then dto.order.value else rule.order;
      if slug !in catalog.roles then Err(NotFound) else
        match ValidateRoleKind(catalog.roles[slug], kind)
        case Err(e) => Err(e)
        case Ok(_) =>
          if SlotTaken(rows, kind, order, Some(id)) then Err(Conflict) else
            match ResolveProjectIds(kind, dto.projectIds, rule.projects)
            case Err(e) => Err(e)
            case Ok(projectIds) =>
              if !(projectIds <= catalog.projects) then Err(BadRequest)
              else
                var expression := if dto.expression.Some? then dto.expression.value else rule.expression;
                Ok(Rule(expression, slug, kind, order, projectIds))
  }

  /** Instance rules need a global role, project rules a project role. */
  predicate RoleFits(catalog: Catalog, role: Slug, kind: Kind) {
    role in catalog.roles
    && ((kind == InstanceKind && catalog.roles[role] == GlobalRole)
        || (kind == ProjectKind && catalog.roles[role] == ProjectRole))
  }

  /** Instance rules have no projects, project rules at least one. */
  predicate ProjectsFit(kind: Kind, projects: set<ProjectId>) {
    (kind == InstanceKind && projects == {}) || (kind == ProjectKind && projects != {})
  }

  /** Another rule of the kind has the order. */
  predicate Held(rows: Rows, kind: Kind, order: int, id: RuleId) {
    exists other :: other in rows && other != id && rows[other].kind == kind && rows[other].order == order
  }

  function Given<T>(value: Option<T>, otherwise: T): T { if value.Some? then value.value else otherwise }

  /** What is wrong with a rule to be saved under this id, apart from which error comes first. */
  predicate Acceptable(catalog: Catalog, rows: Rows, rule: Rule, id: RuleId) {
    && RoleFits(catalog, rule.role, rule.kind) && ProjectsFit(rule.kind, rule.projects)
    && rule.projects <= catalog.projects && !Held(rows, rule.kind, rule.order, id)
  }

  /** `create` accepts exactly the rules that fit, and saves them as they were given. */
  lemma CreateChecksExact(catalog: Catalog, rows: Rows, dto: CreateDto, newId: RuleId)
    requires newId !in rows
    ensures var checks := CreateChecks(catalog, rows, dto);
      var rule := Rule(dto.expression, dto.role, dto.kind, dto.order, Given(dto.projectIds, {}));
      && (checks.Ok? <==> Acceptable(catalog, rows, rule, newId)) && (checks.Ok? ==> checks.value == rule)
      && (checks == Err(NotFound) <==> ProjectsFit(dto.kind, rule.projects) && dto.role !in catalog.roles)
      && (checks == Err(Conflict) <==>
            && ProjectsFit(dto.kind, rule.projects) && RoleFits(catalog, dto.role, dto.kind)
            && Held(rows, dto.kind, dto.order, newId))
      && checks != Err(UniqueViolation)
  {
    assert SlotTaken(rows, dto.kind, dto.order, None) <==> Held(rows, dto.kind, dto.order, newId) by {
      if id :| id in rows && rows[id].kind == dto.kind && rows[id].order == dto.order { assert id != newId; }
    }
  }

  /** The rule that `patch` is to save: what is not given stays, but an instance rule has no projects. */
  function PatchedRule(rule: Rule, dto: PatchDto): Rule {
    var kind := Given(dto.kind, rule.kind);
    Rule(Given(dto.expression, rule.expression), Given(dto.role, rule.role), kind, Given(dto.order, rule.order),
         if kind == InstanceKind then {} else Given(dto.projectIds, rule.projects))
  }

  /** `patch` accepts exactly the changes that leave a fitting rule and name no projects for an instance rule. */
  lemma PatchChecksExact(catalog: Catalog, rows: Rows, id: RuleId, dto: PatchDto)
    ensures var checks := PatchChecks(catalog, rows, id, dto);
      if id == NO_ID || (dto.expression == None && dto.role == None && dto.kind == None && dto.order == None
                         && dto.projectIds == None)
      then checks == Err(BadRequest)
      else if id !in rows then checks == Err(NotFound)
      else
        var rule := PatchedRule(rows[id], dto);
        && (checks.Ok? <==>
              && Acceptable(catalog, rows, rule, id)
              && (rule.kind == InstanceKind ==> Given(dto.projectIds, {}) == {}))
        && (checks.Ok? ==> checks.value == rule)
        && (checks == Err(NotFound) <==> rule.role !in catalog.roles)
        && (checks == Err(Conflict) <==>
              RoleFits(catalog, rule.role, rule.kind) && Held(rows, rule.kind, rule.order, id))
        && checks != Err(UniqueViolation)
  {
    if id in rows {
      var rule := PatchedRule(rows[id], dto);
      assert SlotTaken(rows, rule.kind, rule.order, Some(id)) <==> Held(rows, rule.kind, rule.order, id) by {
        if x :| x in rows && rows[x].kind == rule.kind && rows[x].order == rule.order && Some(x) != Some(id) {
          assert x != id;
        }
      }
    }
  }

  lemma SavedRowsUnique(rows: Rows, id: RuleId, rule: Rule)
    requires UniqueOrders(rows) && !SlotTaken(rows, rule.kind, rule.order, Some(id))
    ensures UniqueOrders(rows[id := rule])
  {
    var saved := rows[id := rule];
    forall a, b ensures NoClash(saved, a, b) {
      assert NoClash(rows, a, b);
    }
  }

  lemma RemovedRowsUnique(rows: Rows, id: RuleId)
    requires UniqueOrders(rows)
    ensures UniqueOrders(rows - {id})
  {
    var left := rows - {id};
    forall a, b ensures NoClash(left, a, b) {
      assert NoClash(rows, a, b);
    }
  }

  ghost function CreateOutcome(catalog: Catalog, rows: Rows, dto: CreateDto, newId: RuleId): (o: Outcome)
    requires UniqueOrders(rows) && newId !in rows
    ensures UniqueOrders(o.rows)
  {
    match CreateChecks(catalog, rows, dto)
    case Err(e) => Outcome(rows, Err(e))
    case Ok(rule) =>
      SavedRowsUnique(rows, newId, rule);
      ReindexOutcome(rows[newId := rule], rule.kind)
  }

  /** The part of `patch` after its checks. */
  ghost function SaveChanged(rows: Rows, id: RuleId, rule: Rule): (o: Outcome)
    requires UniqueOrders(rows[id := rule]) && id in rows
    ensures UniqueOrders(o.rows)
  {
    var reindexed := ReindexOutcome(rows[id := rule], rule.kind);
    if reindexed.result.Err? || rows[id].kind == rule.kind then reindexed
    else ReindexOutcome(reindexed.rows, rows[id].kind)
  }

  ghost function PatchOutcome(catalog: Catalog, rows: Rows, id: RuleId, dto: PatchDto): (o: Outcome)
    requires UniqueOrders(rows)
    ensures UniqueOrders(o.rows)
  {
    match PatchChecks(catalog, rows, id, dto)
    case Err(e) => Outcome(rows, Err(e))
    case Ok(rule) =>
      SavedRowsUnique(rows, id, rule);
      SaveChanged(rows, id, rule)
  }

  ghost function RemoveOutcome(rows: Rows, id: RuleId): (o: Outcome)
    requires UniqueOrders(rows)
    ensures UniqueOrders(o.rows)
  {
    if id == NO_ID then Outcome(rows, Err(BadRequest))
    else if id !in rows then Outcome(rows, Err(NotFound))
    else
      RemovedRowsUnique(rows, id);
      ReindexOutcome(rows - {id}, rows[id].kind)
  }

  function RemoveAt(ids: seq<RuleId>, at: nat): seq<RuleId>
    requires at < |ids|
  {
    ids[..at] + ids[at + 1..]
  }

  function InsertAt(ids: seq<RuleId>, at: nat, id: RuleId): seq<RuleId>
    requires at <= |ids|
  {
    ids[..at] + [id] + ids[at..]
  }

  function Min(a: int, b: int): int { if a <= b then a else b }

  /** Where `Array.prototype.splice` inserts, for a start index that may be negative or too large. */
  function SpliceStart(start: int, length: nat): (at: nat)
    ensures at <= length
  {
    if start < 0 then if length + start < 0 then 0 else length + start
    else Min(start, length)
  }

  /** `findIndex`; the length when there is none. */
  function IndexOf(ids: seq<RuleId>, id: RuleId): (at: nat)
    ensures at <= |ids| && (at < |ids| ==> ids[at] == id)
    ensures forall i :: 0 <= i < at ==> ids[i] != id
  {
    if ids == [] || ids[0] == id then 0 else 1 + IndexOf(ids[1..], id)
  }

  /** The sequence `move` writes: the rule spliced out of the listing, then spliced back in. */
  function Respliced(all: seq<RuleId>, id: RuleId, target: int): seq<RuleId>
    requires IndexOf(all, id) < |all|
  {
    InsertAt(RemoveAt(all, IndexOf(all, id)), SpliceStart(Min(target, |all| - 1), |all| - 1), id)
  }

  ghost function MoveOutcome(rows: Rows, id: RuleId, target: int): (o: Outcome)
    requires UniqueOrders(rows)
    ensures UniqueOrders(o.rows)
  {
    if id == NO_ID then Outcome(rows, Err(BadRequest))
    else if id !in rows then Outcome(rows, Err(NotFound))
    else
      var all := Listing(rows, rows[id].kind);
      assert IsOf(rows, rows[id].kind, id) && id in all;
      WriteOrderOutcome(rows, Respliced(all, id, target))
  }

  // ---------- what the operations do to any table ----------

  /** Two rules other than `id` that stood in this sequence in their kind still do. */
  predicate Follows(before: Rows, after: Rows, id: RuleId, a: RuleId, b: RuleId) {
    (a != id && b != id && a in before && b in before && before[a].kind == before[b].kind
     && before[a].order < before[b].order)
    ==> a in after && b in after && after[a].order < after[b].order
  }

  /** All rules but `id` are still there, unchanged but for their orders, and in the same sequence within their kind. */
  ghost predicate OthersKeepPlace(before: Rows, after: Rows, id: RuleId) {
    && (forall a :: a in before && a != id ==> a in after && after[a].(order := before[a].order) == before[a])
    && (forall a, b :: Follows(before, after, id, a, b))
  }

  /**
   What renumbering a kind of a saved table in the given sequence comes to: it succeeds exactly when the parking area
   is clear, and then leaves that kind dense in this sequence and the other kind alone; it fails with nothing written.
   */
  ghost predicate Renumbered(saved: Rows, kind: Kind, ids: seq<RuleId>, o: Outcome)
    requires forall i :: 0 <= i < |ids| ==> ids[i] in saved
  {
    && (o.result.Ok? <==> ParkingIsClear(saved, ids))
    && (o.result.Ok? ==> DenseAs(o.rows, kind, ids) && OnlyOrdersChanged(saved, o.rows, kind))
    && (o.result.Err? ==> o == Outcome(saved, Err(UniqueViolation)))
  }

  /** Density along an ascending listing keeps the sequence. */
  lemma DenseKeepsSequence(saved: Rows, after: Rows, kind: Kind, ids: seq<RuleId>, a: RuleId, b: RuleId)
    requires IsListing(saved, kind, ids) && DenseAs(after, kind, ids) && OnlyOrdersChanged(saved, after, kind)
    requires IsOf(saved, kind, a) && IsOf(saved, kind, b) && saved[a].order < saved[b].order
    ensures after[a].order < after[b].order
  {
    var p, q := PairInListing(saved, kind, ids, a, b);
  }

  /** Reindexing one kind of the saved table keeps the other rules in place. */
  lemma ReindexKeepsPlace(rows: Rows, saved: Rows, id: RuleId, kind: Kind)
    requires UniqueOrders(saved) && OthersKeepPlace(rows, saved, id)
    ensures Renumbered(saved, kind, Listing(saved, kind), ReindexOutcome(saved, kind))
    ensures OthersKeepPlace(rows, ReindexOutcome(saved, kind).rows, id)
  {
    var ids := Listing(saved, kind);
    ReindexExact(saved, kind, ids);
    var o := ReindexOutcome(saved, kind);
    if o.result.Ok? {
      forall a, b ensures Follows(rows, o.rows, id, a, b) {
        assert Follows(rows, saved, id, a, b);
        if a in saved && b in saved && saved[a].kind == saved[b].kind == kind && saved[a].order < saved[b].order {
          DenseKeepsSequence(saved, o.rows, kind, ids, a, b);
        }
      }
    }
  }

  lemma SavingKeepsPlace(rows: Rows, id: RuleId, rule: Rule)
    ensures OthersKeepPlace(rows, rows[id := rule], id) && OthersKeepPlace(rows, rows - {id}, id)
  {
  }

  /**
   `create` on any table: rejected by a check it changes nothing. Otherwise the new row is saved, and the kind is then
   renumbered in ascending order, if and only if the parking area is clear; if it is not, the saved row stays behind.
   */
  lemma CreateExact(catalog: Catalog, rows: Rows, dto: CreateDto, newId: RuleId)
    requires UniqueOrders(rows) && newId !in rows
    ensures
      var o := CreateOutcome(catalog, rows, dto, newId);
      match CreateChecks(catalog, rows, dto)
      case Err(e) => o == Outcome(rows, Err(e))
      case Ok(rule) =>
        var saved := rows[newId := rule];
        && rule.kind == dto.kind && rule.order == dto.order && UniqueOrders(saved)
        && Renumbered(saved, dto.kind, Listing(saved, dto.kind), o) && OthersKeepPlace(rows, o.rows, newId)
  {
    var checks := CreateChecks(catalog, rows, dto);
    if checks.Ok? {
      SavedRowsUnique(rows, newId, checks.value);
      SavingKeepsPlace(rows, newId, checks.value);
      ReindexKeepsPlace(rows, rows[newId := checks.value], newId, dto.kind);
    }
  }

  /**
   `remove` on any table: the rule is gone as soon as it is found, also when closing the gap then fails because the
   parking area is not clear.
   */
  lemma RemoveExact(rows: Rows, id: RuleId)
    requires UniqueOrders(rows)
    ensures
      var o := RemoveOutcome(rows, id);
      if id == NO_ID then o == Outcome(rows, Err(BadRequest))
      else if id !in rows then o == Outcome(rows, Err(NotFound))
      else
        var left, kind := rows - {id}, rows[id].kind;
        && UniqueOrders(left) && id !in o.rows
        && Renumbered(left, kind, Listing(left, kind), o) && OthersKeepPlace(rows, o.rows, id)
  {
    if id != NO_ID && id in rows {
      RemovedRowsUnique(rows, id);
      SavingKeepsPlace(rows, id, rows[id]);
      ReindexKeepsPlace(rows, rows - {id}, id, rows[id].kind);
    }
  }

  /**
   What `patch` leaves once its checks have passed. It succeeds exactly when the parking area is clear for the kind the
   rule goes to and for the one it leaves. When the first is not, only the changed row is saved; when only the second
   is not, the kind the rule goes to is dense and the other one keeps its gap.
   */
  ghost predicate Patched(saved: Rows, from: Kind, to: Kind, o: Outcome)
    requires UniqueOrders(saved)
  {
    var there, here := Listing(saved, to), Listing(saved, from);
    && (o.result.Ok? <==> ParkingIsClear(saved, there) && ParkingIsClear(saved, here))
    && (o.result.Err? ==> o.result == Err(UniqueViolation))
    && (!ParkingIsClear(saved, there) ==> o.rows == saved)
    && (ParkingIsClear(saved, there) ==> DenseAs(o.rows, to, there) && SameButOrders(saved, o.rows))
    && (if o.result.Ok? then DenseAs(o.rows, from, here)
        else forall a :: a in saved && saved[a].kind != to ==> a in o.rows && o.rows[a] == saved[a])
  }

  lemma ListingUntouched(before: Rows, after: Rows, kind: Kind, other: Kind)
    requires UniqueOrders(before) && UniqueOrders(after) && OnlyOrdersChanged(before, after, kind) && other != kind
    ensures Listing(after, other) == Listing(before, other)
    ensures ParkingIsClear(after, Listing(after, other)) <==> ParkingIsClear(before, Listing(before, other))
  {
    var ids := Listing(before, other);
    assert forall id :: IsOf(after, other, id) <==> IsOf(before, other, id);
    ListingIs(after, other, ids);
  }

  lemma SaveChangedExact(rows: Rows, id: RuleId, rule: Rule)
    requires UniqueOrders(rows[id := rule]) && id in rows
    ensures Patched(rows[id := rule], rows[id].kind, rule.kind, SaveChanged(rows, id, rule))
    ensures OthersKeepPlace(rows, SaveChanged(rows, id, rule).rows, id)
  {
    var saved, from := rows[id := rule], rows[id].kind;
    SavingKeepsPlace(rows, id, rule);
    ReindexKeepsPlace(rows, saved, id, rule.kind);
    var first := ReindexOutcome(saved, rule.kind);
    if first.result.Ok? && from != rule.kind {
      ListingUntouched(saved, first.rows, rule.kind, from);
      ReindexKeepsPlace(rows, first.rows, id, from);
      var second := ReindexOutcome(first.rows, from);
      DenseKept(first.rows, second.rows, rule.kind, Listing(saved, rule.kind));
    }
  }

  /** `patch` on any table: rejected by a check it changes nothing, otherwise it does what `Patched` says. */
  lemma PatchExact(catalog: Catalog, rows: Rows, id: RuleId, dto: PatchDto)
    requires UniqueOrders(rows)
    ensures
      var o := PatchOutcome(catalog, rows, id, dto);
      match PatchChecks(catalog, rows, id, dto)
      case Err(e) => o == Outcome(rows, Err(e))
      case Ok(rule) =>
        && id in rows && UniqueOrders(rows[id := rule])
        && Patched(rows[id := rule], rows[id].kind, rule.kind, o) && OthersKeepPlace(rows, o.rows, id)
  {
    var checks := PatchChecks(catalog, rows, id, dto);
    if checks.Ok? {
      SavedRowsUnique(rows, id, checks.value);
      SaveChangedExact(rows, id, checks.value);
    }
  }

  /** Where an element of `all` other than the one at `from` ends up when that one is moved to `at`. */
  function NewPosition(from: nat, at: nat, p: nat): nat
    requires p != from
  {
    var q := if p < from then p else p - 1;
    if q < at then q else q + 1
  }

  lemma MovedElement(all: seq<RuleId>, from: nat, at: nat, id: RuleId, p: nat)
    requires from < |all| && at < |all| && p < |all| && p != from
    ensures InsertAt(RemoveAt(all, from), at, id)[NewPosition(from, at, p)] == all[p]
  {
  }

  lemma MovedEnumerates(rows: Rows, kind: Kind, all: seq<RuleId>, id: RuleId, from: nat, at: nat)
    requires Enumerates(rows, kind, all) && from < |all| && all[from] == id && at < |all|
    ensures Enumerates(rows, kind, InsertAt(RemoveAt(all, from), at, id))
  {
    var rest := RemoveAt(all, from);
    forall other | IsOf(rows - {id}, kind, other) ensures other in rest {
      assert IsOf(rows, kind, other) && other in all;
      var p :| 0 <= p < |all| && all[p] == other;
      assert rest[if p < from then p else p - 1] == other;
    }
    InsertedEnumerates(rows, kind, rest, id, at);
  }

  /**
   `move` on any table: the rule is taken out of the ascending sequence and put back, for a target that is not negative
   at min(target, n - 1), and this succeeds exactly when the parking area is clear for the new sequence. A rejected
   move changes nothing.
   */
  lemma MoveExact(rows: Rows, id: RuleId, target: int)
    requires UniqueOrders(rows)
    ensures
      var o := MoveOutcome(rows, id, target);
      if id == NO_ID then o == Outcome(rows, Err(BadRequest))
      else if id !in rows then o == Outcome(rows, Err(NotFound))
      else
        var kind := rows[id].kind;
        var all := Listing(rows, kind);
        var from := IndexOf(all, id);
        && from < |all|
        && (target >= 0 ==>
              Respliced(all, id, target) == InsertAt(RemoveAt(all, from), Min(target, |all| - 1), id))
        && Enumerates(rows, kind, Respliced(all, id, target))
        && Renumbered(rows, kind, Respliced(all, id, target), o) && OthersKeepPlace(rows, o.rows, id)
  {
    if id != NO_ID && id in rows {
      var kind := rows[id].kind;
      FoundInListing(rows, kind, id);
      ResplicedRenumbers(rows, kind, Listing(rows, kind), id, target);
    }
  }

  lemma ResplicedRenumbers(rows: Rows, kind: Kind, all: seq<RuleId>, id: RuleId, target: int)
    requires UniqueOrders(rows) && IsListing(rows, kind, all) && IndexOf(all, id) < |all|
    ensures
      var moved := Respliced(all, id, target);
      && (target >= 0 ==> moved == InsertAt(RemoveAt(all, IndexOf(all, id)), Min(target, |all| - 1), id))
      && Enumerates(rows, kind, moved) && Renumbered(rows, kind, moved, WriteOrderOutcome(rows, moved))
      && OthersKeepPlace(rows, WriteOrderOutcome(rows, moved).rows, id)
  {
    MovedRenumbers(rows, kind, all, id, IndexOf(all, id), SpliceStart(Min(target, |all| - 1), |all| - 1));
  }

  lemma FoundInListing(rows: Rows, kind: Kind, id: RuleId)
    requires UniqueOrders(rows) && IsOf(rows, kind, id)
    ensures IndexOf(Listing(rows, kind), id) < |Listing(rows, kind)|
  {
    assert id in Listing(rows, kind);
  }

  lemma MovedRenumbers(rows: Rows, kind: Kind, all: seq<RuleId>, id: RuleId, from: nat, at: nat)
    requires UniqueOrders(rows) && IsListing(rows, kind, all) && from < |all| && all[from] == id && at < |all|
    ensures
      var moved := InsertAt(RemoveAt(all, from), at, id);
      && Enumerates(rows, kind, moved) && Renumbered(rows, kind, moved, WriteOrderOutcome(rows, moved))
      && OthersKeepPlace(rows, WriteOrderOutcome(rows, moved).rows, id)
  {
    var moved := InsertAt(RemoveAt(all, from), at, id);
    MovedEnumerates(rows, kind, all, id, from, at);
    WriteOrderExact(rows, kind, moved);
    if WriteOrderOutcome(rows, moved).result.Ok? {
      MoveKeepsPlace(rows, kind, all, id, from, at, WriteOrderOutcome(rows, moved).rows);
    }
  }

  lemma MovedPair(after: Rows, kind: Kind, all: seq<RuleId>, id: RuleId, from: nat, at: nat, p: nat, q: nat)
    requires from < |all| && at < |all| && p < q < |all| && p != from && q != from
    requires DenseAs(after, kind, InsertAt(RemoveAt(all, from), at, id))
    ensures all[p] in after && all[q] in after && after[all[p]].order < after[all[q]].order
  {
    MovedElement(all, from, at, id, p);
    MovedElement(all, from, at, id, q);
  }

  lemma MoveKeepsPlace(rows: Rows, kind: Kind, all: seq<RuleId>, id: RuleId, from: nat, at: nat, after: Rows)
    requires IsListing(rows, kind, all) && from < |all| && all[from] == id && at < |all|
    requires DenseAs(after, kind, InsertAt(RemoveAt(all, from), at, id)) && OnlyOrdersChanged(rows, after, kind)
    ensures OthersKeepPlace(rows, after, id)
  {
    forall a, b ensures Follows(rows, after, id, a, b) {
      if a != id && b != id && IsOf(rows, kind, a) && IsOf(rows, kind, b) && rows[a].order < rows[b].order {
        var p, q := PairInListing(rows, kind, all, a, b);
        MovedPair(after, kind, all, id, from, at, p, q);
      }
    }
  }

  lemma PairInListing(rows: Rows, kind: Kind, ids: seq<RuleId>, a: RuleId, b: RuleId) returns (p: nat, q: nat)
    requires IsListing(rows, kind, ids) && IsOf(rows, kind, a) && IsOf(rows, kind, b) && rows[a].order < rows[b].order
    ensures p < q < |ids| && ids[p] == a && ids[q] == b
  {
    p :| 0 <= p < |ids| && ids[p] == a;
    q :| 0 <= q < |ids| && ids[q] == b;
  }

  // ---------- what the operations do to dense tables ----------

  /** The orders that an n-row renumbering parks at before it reaches the last row. */
  predicate InParkingWindow(order: int, n: nat) {
    n + 1000 <= order <= 2 * n + 998
  }

  /** Where a row with a free order lands among rows whose orders are dense: in front, or at the end. */
  function Placed(others: seq<RuleId>, id: RuleId, order: int): seq<RuleId> {
    if order < 0 then [id] + others else others + [id]
  }

  function OtherKind(kind: Kind): Kind { if kind == InstanceKind then ProjectKind else InstanceKind }

  /** An ascending listing whose orders lie between 0 and its length: dense, or dense with one row taken out. */
  ghost predicate Nearly(rows: Rows, kind: Kind, ids: seq<RuleId>) {
    && IsListing(rows, kind, ids)
    && (forall i :: 0 <= i < |ids| ==> 0 <= rows[ids[i]].order <= |ids|)
  }

  lemma DenseKept(before: Rows, after: Rows, kind: Kind, ids: seq<RuleId>)
    requires DenseAs(before, kind, ids)
    requires forall id :: IsOf(after, kind, id) <==> IsOf(before, kind, id)
    requires forall id :: IsOf(before, kind, id) ==> id in after && after[id] == before[id]
    ensures DenseAs(after, kind, ids)
  {
  }

  /** With every other order below n + 1000, one stray order decides: reindexing fails exactly in the parking window. */
  lemma ReindexWithStray(rows: Rows, kind: Kind, ids: seq<RuleId>, at: nat)
    requires UniqueOrders(rows) && IsListing(rows, kind, ids) && at < |ids|
    requires forall i :: 0 <= i < |ids| && i != at ==> rows[ids[i]].order < |ids| + 1000
    ensures ReindexOutcome(rows, kind).result.Ok? <==> !InParkingWindow(rows[ids[at]].order, |ids|)
    ensures ReindexOutcome(rows, kind).result.Ok? ==>
      DenseAs(ReindexOutcome(rows, kind).rows, kind, ids)
        && OnlyOrdersChanged(rows, ReindexOutcome(rows, kind).rows, kind)
    ensures ReindexOutcome(rows, kind).result.Err? ==> ReindexOutcome(rows, kind) == Outcome(rows, Err(UniqueViolation))
  {
    var n := |ids|;
    assert at == n - 1 || rows[ids[at]].order < rows[ids[n - 1]].order;
    assert ParkingIsClear(rows, ids) <==> !InParkingWindow(rows[ids[at]].order, n);
    ReindexExact(rows, kind, ids);
  }

  lemma ReindexNearly(rows: Rows, kind: Kind, ids: seq<RuleId>)
    requires UniqueOrders(rows) && Nearly(rows, kind, ids)
    ensures ReindexOutcome(rows, kind).result == Ok(())
    ensures DenseAs(ReindexOutcome(rows, kind).rows, kind, ids)
            && OnlyOrdersChanged(rows, ReindexOutcome(rows, kind).rows, kind)
  {
    ReindexExact(rows, kind, ids);
  }

  lemma PlacedIsListing(base: Rows, id: RuleId, rule: Rule, others: seq<RuleId>)
    requires id !in base && Nearly(base, rule.kind, others)
    requires rule.order < 0 || forall i :: 0 <= i < |others| ==> base[others[i]].order < rule.order
    ensures IsListing(base[id := rule], rule.kind, Placed(others, id, rule.order))
  {
    PlacedEnumerates(base, id, rule, others);
    var ids := Placed(others, id, rule.order);
    forall i, j | 0 <= i < j < |ids| ensures base[id := rule][ids[i]].order < base[id := rule][ids[j]].order {
      PlacedAscends(base, id, rule, others, i, j);
    }
  }

  lemma PlacedAscends(base: Rows, id: RuleId, rule: Rule, others: seq<RuleId>, i: nat, j: nat)
    requires id !in base && Nearly(base, rule.kind, others) && i < j <= |others|
    requires rule.order < 0 || forall k :: 0 <= k < |others| ==> base[others[k]].order < rule.order
    ensures var ids := Placed(others, id, rule.order);
      base[id := rule][ids[i]].order < base[id := rule][ids[j]].order
  {
    var p, q := if rule.order < 0 then i - 1 else i, if rule.order < 0 then j - 1 else j;
    if 0 <= p && q < |others| {
      assert base[others[p]].order < base[others[q]].order && others[p] in base && others[q] in base;
    }
  }

  lemma PlacedEnumerates(base: Rows, id: RuleId, rule: Rule, others: seq<RuleId>)
    requires id !in base && Enumerates(base, rule.kind, others)
    ensures Enumerates(base[id := rule], rule.kind, Placed(others, id, rule.order))
  {
    var saved := base[id := rule];
    var ids := Placed(others, id, rule.order);
    forall other | IsOf(saved, rule.kind, other) ensures other in ids {
      if other != id {
        assert IsOf(base, rule.kind, other);
      } else {
        assert ids[if rule.order < 0 then 0 else |others|] == id;
      }
    }
  }

  /** Saving a row with a free order into a nearly dense kind, then reindexing the kind. */
  lemma SaveAndReindex(base: Rows, id: RuleId, rule: Rule, others: seq<RuleId>)
    requires UniqueOrders(base[id := rule]) && id !in base && Nearly(base, rule.kind, others)
    requires rule.order < 0 || forall i :: 0 <= i < |others| ==> base[others[i]].order < rule.order
    ensures
      var saved := base[id := rule];
      var o := ReindexOutcome(saved, rule.kind);
      && (o.result.Ok? <==> !InParkingWindow(rule.order, |others| + 1))
      && (o.result.Ok? ==>
            && DenseAs(o.rows, rule.kind, Placed(others, id, rule.order))
            && OnlyOrdersChanged(saved, o.rows, rule.kind))
      && (o.result.Err? ==> o == Outcome(saved, Err(UniqueViolation)))
  {
    PlacedIsListing(base, id, rule, others);
    ReindexWithStray(base[id := rule], rule.kind, Placed(others, id, rule.order),
                     if rule.order < 0 then 0 else |others|);
  }

  lemma FreeInDense(rows: Rows, kind: Kind, ids: seq<RuleId>, order: int, exclude: Option<RuleId>)
    requires DenseAs(rows, kind, ids) && !SlotTaken(rows, kind, order, exclude)
    ensures order < 0 || order >= |ids| || Some(ids[order]) == exclude
  {
    if 0 <= order < |ids| {
      assert rows[ids[order]].order == order;
    }
  }

  /**
   What saving rule `id` into an n-row kind and reindexing leaves: the dense table `listings`, unless the rule's
   order is in the parking window; then the saved row stays behind with the order it was given.
   */
  ghost predicate PlacedInto(saved: Rows, id: RuleId, n: nat, listings: Listings, o: Outcome)
    requires id in saved
  {
    && (o.result.Ok? <==> !InParkingWindow(saved[id].order, n))
    && (o.result.Err? ==> o == Outcome(saved, Err(UniqueViolation)))
    && (o.result.Ok? ==> DenseTable(o.rows, listings) && SameButOrders(saved, o.rows))
  }

  lemma BothDense(rows: Rows, kind: Kind, listings: Listings)
    requires UniqueOrders(rows)
    requires DenseAs(rows, kind, listings.Of(kind)) && DenseAs(rows, OtherKind(kind), listings.Of(OtherKind(kind)))
    ensures DenseTable(rows, listings)
  {
    forall k ensures DenseAs(rows, k, listings.Of(k)) {
      assert k == kind || k == OtherKind(kind);
    }
  }

  lemma SaveNewOnDense(rows: Rows, listings: Listings, rule: Rule, newId: RuleId)
    requires DenseTable(rows, listings) && newId !in rows && !SlotTaken(rows, rule.kind, rule.order, None)
    requires UniqueOrders(rows[newId := rule])
    ensures
      var others := listings.Of(rule.kind);
      PlacedInto(rows[newId := rule], newId, |others| + 1, listings.With(rule.kind, Placed(others, newId, rule.order)),
                 ReindexOutcome(rows[newId := rule], rule.kind))
  {
    var kind := rule.kind;
    var others, rest := listings.Of(kind), listings.Of(OtherKind(kind));
    assert DenseAs(rows, kind, others) && DenseAs(rows, OtherKind(kind), rest);
    FreeInDense(rows, kind, others, rule.order, None);
    SaveAndReindex(rows, newId, rule, others);
    var o := ReindexOutcome(rows[newId := rule], kind);
    if o.result.Ok? {
      DenseKept(rows, o.rows, OtherKind(kind), rest);
      BothDense(o.rows, kind, listings.With(kind, Placed(others, newId, rule.order)));
    }
  }

  /**
   `create` on a dense table: rejected by a check it changes nothing; otherwise the new rule goes first for a
   negative order and last for any other free one, except that the renumbering fails in the parking window.
   */
  lemma CreateOnDense(catalog: Catalog, rows: Rows, listings: Listings, dto: CreateDto, newId: RuleId)
    requires DenseTable(rows, listings) && newId !in rows
    ensures
      var o := CreateOutcome(catalog, rows, dto, newId);
      match CreateChecks(catalog, rows, dto)
      case Err(e) => o == Outcome(rows, Err(e))
      case Ok(rule) =>
        var others := listings.Of(dto.kind);
        rule.kind == dto.kind && rule.order == dto.order
        && PlacedInto(rows[newId := rule], newId, |others| + 1,
                      listings.With(dto.kind, Placed(others, newId, dto.order)), o)
  {
    var checks := CreateChecks(catalog, rows, dto);
    if checks.Ok? {
      SavedRowsUnique(rows, newId, checks.value);
      SaveNewOnDense(rows, listings, checks.value, newId);
    }
  }

  /** The listings with a rule taken out of its kind; in a dense table its order is its position. */
  ghost function Removed(rows: Rows, listings: Listings, id: RuleId): Listings
    requires DenseTable(rows, listings) && id in rows
  {
    var kind := rows[id].kind;
    assert DenseAs(rows, kind, listings.Of(kind)) && IsOf(rows, kind, id);
    listings.With(kind, RemoveAt(listings.Of(kind), rows[id].order))
  }

  lemma RemoveFromDense(rows: Rows, kind: Kind, ids: seq<RuleId>, at: nat)
    requires DenseAs(rows, kind, ids) && at < |ids|
    ensures Nearly(rows - {ids[at]}, kind, RemoveAt(ids, at))
  {
    var rest := RemoveAt(ids, at);
    var left := rows - {ids[at]};
    forall i | 0 <= i < |rest| ensures IsOf(left, kind, rest[i]) && left[rest[i]].order == if i < at then i else i + 1 {
      assert rest[i] == ids[if i < at then i else i + 1];
    }
    forall other | IsOf(left, kind, other) ensures other in rest {
      assert IsOf(rows, kind, other);
      var p := rows[other].order;
      assert rest[if p < at then p else p - 1] == other;
    }
  }

  lemma RemovedIsNearly(rows: Rows, listings: Listings, id: RuleId, kind: Kind)
    requires DenseTable(rows, listings) && id in rows
    ensures Nearly(rows - {id}, kind, Removed(rows, listings, id).Of(kind))
    ensures kind != rows[id].kind ==> DenseAs(rows - {id}, kind, listings.Of(kind))
  {
    assert DenseAs(rows, kind, listings.Of(kind));
    if kind == rows[id].kind {
      assert IsOf(rows, kind, id);
      RemoveFromDense(rows, kind, listings.Of(kind), rows[id].order);
    } else {
      DenseKept(rows, rows - {id}, kind, listings.Of(kind));
    }
  }

  /** `remove` on a dense table takes the rule out of its kind and closes the gap. */
  lemma RemoveOnDense(rows: Rows, listings: Listings, id: RuleId)
    requires DenseTable(rows, listings)
    ensures
      var o := RemoveOutcome(rows, id);
      if id == NO_ID then o == Outcome(rows, Err(BadRequest))
      else if id !in rows then o == Outcome(rows, Err(NotFound))
      else o.result == Ok(()) && DenseTable(o.rows, Removed(rows, listings, id)) && SameButOrders(rows - {id}, o.rows)
  {
    if id != NO_ID && id in rows {
      var kind := rows[id].kind;
      var left := Removed(rows, listings, id);
      RemovedRowsUnique(rows, id);
      RemovedIsNearly(rows, listings, id, kind);
      RemovedIsNearly(rows, listings, id, OtherKind(kind));
      ReindexNearly(rows - {id}, kind, left.Of(kind));
      var o := ReindexOutcome(rows - {id}, kind);
      DenseKept(rows - {id}, o.rows, OtherKind(kind), left.Of(OtherKind(kind)));
      BothDense(o.rows, kind, left);
    }
  }

  lemma InsertedDistinct(rest: seq<RuleId>, id: RuleId, at: nat, i: nat, j: nat)
    requires at <= |rest| && id !in rest && i < j <= |rest|
    requires forall p, q :: 0 <= p < q < |rest| ==> rest[p] != rest[q]
    ensures InsertAt(rest, at, id)[i] != InsertAt(rest, at, id)[j]
  {
    var moved := InsertAt(rest, at, id);
    if i < at { assert moved[i] == rest[i]; } else if i > at { assert moved[i] == rest[i - 1]; }
    if j < at { assert moved[j] == rest[j]; } else if j > at { assert moved[j] == rest[j - 1]; }
  }

  lemma InsertedEnumerates(rows: Rows, kind: Kind, rest: seq<RuleId>, id: RuleId, at: nat)
    requires Enumerates(rows - {id}, kind, rest) && IsOf(rows, kind, id) && at <= |rest|
    ensures Enumerates(rows, kind, InsertAt(rest, at, id))
  {
    var moved := InsertAt(rest, at, id);
    assert id !in rest;
    forall i | 0 <= i < |moved| ensures IsOf(rows, kind, moved[i]) {
      assert moved[i] == if i < at then rest[i] else if i == at then id else rest[i - 1];
    }
    forall i, j | 0 <= i < j < |moved| ensures moved[i] != moved[j] {
      InsertedDistinct(rest, id, at, i, j);
    }
    forall other | IsOf(rows, kind, other) ensures other in moved {
      if other == id {
        assert moved[at] == id;
      } else {
        assert IsOf(rows - {id}, kind, other);
        var p :| 0 <= p < |rest| && rest[p] == other;
        assert moved[if p < at then p else p + 1] == other;
      }
    }
  }

  /** Writing any sequence of a dense kind makes the kind dense in that sequence. */
  lemma WriteOrderOnDense(rows: Rows, listings: Listings, kind: Kind, ids: seq<RuleId>)
    requires DenseTable(rows, listings) && Enumerates(rows, kind, ids) && |ids| == |listings.Of(kind)|
    ensures
      var o := WriteOrderOutcome(rows, ids);
      o.result == Ok(()) && DenseTable(o.rows, listings.With(kind, ids)) && SameButOrders(rows, o.rows)
  {
    var rest := listings.Of(OtherKind(kind));
    assert DenseAs(rows, kind, listings.Of(kind)) && DenseAs(rows, OtherKind(kind), rest);
    WriteOrderExact(rows, kind, ids);
    var o := WriteOrderOutcome(rows, ids);
    DenseKept(rows, o.rows, OtherKind(kind), rest);
    BothDense(o.rows, kind, listings.With(kind, ids));
  }

  lemma DenseListing(rows: Rows, kind: Kind, ids: seq<RuleId>)
    requires DenseAs(rows, kind, ids) && UniqueOrders(rows)
    ensures Listing(rows, kind) == ids
  {
    DenseIsListing(rows, kind, ids);
    ListingIs(rows, kind, ids);
  }

  lemma MoveWrites(rows: Rows, listings: Listings, id: RuleId, target: int)
    requires DenseTable(rows, listings) && id != NO_ID && id in rows
    ensures
      var kind := rows[id].kind;
      var others := Removed(rows, listings, id).Of(kind);
      var at := SpliceStart(Min(target, |others|), |others|);
      && |others| + 1 == |listings.Of(kind)|
      && MoveOutcome(rows, id, target) == WriteOrderOutcome(rows, InsertAt(others, at, id))
  {
    var kind := rows[id].kind;
    var ids := listings.Of(kind);
    assert DenseAs(rows, kind, ids) && IsOf(rows, kind, id);
    DenseListing(rows, kind, ids);
    PlaceIsOrder(rows, kind, ids, id);
    assert MoveOutcome(rows, id, target) == WriteOrderOutcome(rows, Respliced(ids, id, target));
  }

  lemma PlaceIsOrder(rows: Rows, kind: Kind, ids: seq<RuleId>, id: RuleId)
    requires DenseAs(rows, kind, ids) && IsOf(rows, kind, id)
    ensures 0 <= rows[id].order < |ids| && IndexOf(ids, id) == rows[id].order
    ensures |RemoveAt(ids, rows[id].order)| + 1 == |ids|
  {
    var i := IndexOf(ids, id);
    assert i <= rows[id].order;
    assert rows[ids[i]].order == i;
  }

  /** `move` on a dense table is remove-then-insert; for a target that is not negative, at min(target, n - 1). */
  lemma MoveOnDense(rows: Rows, listings: Listings, id: RuleId, target: int)
    requires DenseTable(rows, listings)
    ensures
      var o := MoveOutcome(rows, id, target);
      if id == NO_ID then o == Outcome(rows, Err(BadRequest))
      else if id !in rows then o == Outcome(rows, Err(NotFound))
      else
        var kind := rows[id].kind;
        var others := Removed(rows, listings, id).Of(kind);
        var at := SpliceStart(Min(target, |others|), |others|);
        && o.result == Ok(()) && SameButOrders(rows, o.rows)
        && DenseTable(o.rows, listings.With(kind, InsertAt(others, at, id)))
        && (target >= 0 ==> at == Min(target, |others|))
  {
    if id != NO_ID && id in rows {
      var kind := rows[id].kind;
      var others := Removed(rows, listings, id).Of(kind);
      var at := SpliceStart(Min(target, |others|), |others|);
      MoveWrites(rows, listings, id, target);
      assert IsOf(rows, kind, id);
      RemovedIsNearly(rows, listings, id, kind);
      InsertedEnumerates(rows, kind, others, id, at);
      WriteOrderOnDense(rows, listings, kind, InsertAt(others, at, id));
    }
  }

  /** A patch that leaves kind and order as they are reindexes nothing. */
  lemma PatchKeepingPlace(rows: Rows, listings: Listings, id: RuleId, rule: Rule)
    requires DenseTable(rows, listings) && id in rows && rule.kind == rows[id].kind && rule.order == rows[id].order
    requires UniqueOrders(rows[id := rule])
    ensures ReindexOutcome(rows[id := rule], rule.kind) == Outcome(rows[id := rule], Ok(()))
    ensures DenseTable(rows[id := rule], listings)
  {
    var saved := rows[id := rule];
    forall kind ensures DenseAs(saved, kind, listings.Of(kind)) {
      assert DenseAs(rows, kind, listings.Of(kind));
      assert forall other :: IsOf(saved, kind, other) <==> IsOf(rows, kind, other);
    }
    DenseIsListing(saved, rule.kind, listings.Of(rule.kind));
    ListingIs(saved, rule.kind, listings.Of(rule.kind));
  }

  /** The rule's new order is before or after all others of the kind it goes to. */
  lemma PatchedOrderIsFree(rows: Rows, listings: Listings, id: RuleId, rule: Rule)
    requires DenseTable(rows, listings) && id in rows && !SlotTaken(rows, rule.kind, rule.order, Some(id))
    requires rule.kind != rows[id].kind || rule.order != rows[id].order
    ensures
      var others := Removed(rows, listings, id).Of(rule.kind);
      rule.order < 0 || forall i :: 0 <= i < |others| ==> others[i] in rows && rows[others[i]].order < rule.order
  {
    var ids := listings.Of(rule.kind);
    assert DenseAs(rows, rule.kind, ids);
    FreeInDense(rows, rule.kind, ids, rule.order, Some(id));
    RemovedIsNearly(rows, listings, id, rule.kind);
    var others := Removed(rows, listings, id).Of(rule.kind);
    forall i | 0 <= i < |others| ensures others[i] in rows && rows[others[i]].order < |ids| {
      assert IsOf(rows - {id}, rule.kind, others[i]);
      assert IsOf(rows, rule.kind, others[i]);
    }
  }

  /** The kind a rule has left is closed up, without a clash. */
  lemma LeftKindCloses(rows: Rows, listings: Listings, id: RuleId, rule: Rule, moved: Rows, ids: seq<RuleId>)
    requires DenseTable(rows, listings) && id in rows && UniqueOrders(moved)
    requires OnlyOrdersChanged(rows[id := rule], moved, rule.kind) && DenseAs(moved, rule.kind, ids)
    ensures
      var left := Removed(rows, listings, id).With(rule.kind, ids);
      var o := if rows[id].kind == rule.kind then Outcome(moved, Ok(())) else ReindexOutcome(moved, rows[id].kind);
      o.result == Ok(()) && DenseTable(o.rows, left) && SameButOrders(rows[id := rule], o.rows)
  {
    var other := OtherKind(rule.kind);
    var left := Removed(rows, listings, id).With(rule.kind, ids);
    RemovedIsNearly(rows, listings, id, other);
    assert forall o :: IsOf(moved, other, o) <==> IsOf(rows - {id}, other, o);
    if rows[id].kind == rule.kind {
      DenseKept(rows - {id}, moved, other, left.Of(other));
      BothDense(moved, rule.kind, left);
    } else {
      OtherKindCloses(moved, rule.kind, left);
    }
  }

  lemma OtherKindCloses(moved: Rows, kind: Kind, left: Listings)
    requires UniqueOrders(moved) && DenseAs(moved, kind, left.Of(kind))
    requires Nearly(moved, OtherKind(kind), left.Of(OtherKind(kind)))
    ensures var o := ReindexOutcome(moved, OtherKind(kind));
      o.result == Ok(()) && DenseTable(o.rows, left) && SameButOrders(moved, o.rows)
  {
    var other := OtherKind(kind);
    ReindexNearly(moved, other, left.Of(other));
    DenseKept(moved, ReindexOutcome(moved, other).rows, kind, left.Of(kind));
    BothDense(ReindexOutcome(moved, other).rows, kind, left);
  }

  lemma PatchSaved(rows: Rows, listings: Listings, id: RuleId, rule: Rule)
    requires DenseTable(rows, listings) && id in rows && !SlotTaken(rows, rule.kind, rule.order, Some(id))
    requires UniqueOrders(rows[id := rule]) && (rule.kind != rows[id].kind || rule.order != rows[id].order)
    ensures
      var left := Removed(rows, listings, id);
      var others := left.Of(rule.kind);
      PlacedInto(rows[id := rule], id, |others| + 1, left.With(rule.kind, Placed(others, id, rule.order)),
                 SaveChanged(rows, id, rule))
  {
    var others := Removed(rows, listings, id).Of(rule.kind);
    RemovedIsNearly(rows, listings, id, rule.kind);
    PatchedOrderIsFree(rows, listings, id, rule);
    assert (rows - {id})[id := rule] == rows[id := rule];
    SaveAndReindex(rows - {id}, id, rule, others);
    var first := ReindexOutcome(rows[id := rule], rule.kind);
    if first.result.Ok? {
      LeftKindCloses(rows, listings, id, rule, first.rows, Placed(others, id, rule.order));
    }
  }

  /**
   `patch` on a dense table: a rejected one changes nothing; one that keeps kind and order keeps every place; any
   other takes the rule out of its kind, closing the gap, and places it as `create` does. When the renumbering
   fails, the changed row stays saved and the kind it left is not renumbered.
   */
  lemma PatchOnDense(catalog: Catalog, rows: Rows, listings: Listings, id: RuleId, dto: PatchDto)
    requires DenseTable(rows, listings)
    ensures
      var o := PatchOutcome(catalog, rows, id, dto);
      match PatchChecks(catalog, rows, id, dto)
      case Err(e) => o == Outcome(rows, Err(e))
      case Ok(rule) =>
        && id in rows
        && if rule.kind == rows[id].kind && rule.order == rows[id].order then
             o == Outcome(rows[id := rule], Ok(())) && DenseTable(o.rows, listings)
           else
             var left := Removed(rows, listings, id);
             var others := left.Of(rule.kind);
             PlacedInto(rows[id := rule], id, |others| + 1, left.With(rule.kind, Placed(others, id, rule.order)), o)
  {
    var checks := PatchChecks(catalog, rows, id, dto);
    if checks.Ok? {
      var rule := checks.value;
      SavedRowsUnique(rows, id, rule);
      if rule.kind == rows[id].kind && rule.order == rows[id].order {
        PatchKeepingPlace(rows, listings, id, rule);
      } else {
        PatchSaved(rows, listings, id, rule);
      }
    }
  }

  // ---------- the service ----------

  lemma {:induction false} FailureStays(rows: Rows, ids: seq<RuleId>, s: nat, t: nat)
    requires s <= t <= 2 * |ids| && CheckedWrites(rows, ids, s).Err?
    ensures CheckedWrites(rows, ids, t) == Err(UniqueViolation)
  {
    if s < t {
      FailureStays(rows, ids, s, t - 1);
    }
  }

  class CustomRoleMappingRuleService {
    const catalog: Catalog
    var rows: Rows

    constructor (catalog: Catalog)
      ensures this.catalog == catalog && rows == map[] && UniqueOrders(rows)
    {
      this.catalog := catalog;
      rows := map[];
    }

    method Find(kind: Kind) returns (ids: seq<RuleId>)
      requires UniqueOrders(rows)
      ensures ids == Listing(rows, kind)
    {
      SortedIsListing(rows, kind);
      ids := Sorted(Orders(rows, kind));
      ListingIs(rows, kind, ids);
    }

    method WriteOrder(ids: seq<RuleId>) returns (r: Result<(), Error>)
      modifies this
      ensures WriteOrderOutcome(old(rows), ids) == Outcome(rows, r)
    {
      if |ids| == 0 { return Ok(()); }
      var before := rows;
      var base := |ids| + 1000;
      for i := 0 to |ids|
        invariant CheckedWrites(before, ids, i) == Ok(rows)
      {
        if Taken(rows, ids[i], base + i) {
          rows := before;
          FailureStays(before, ids, i + 1, 2 * |ids|);
          return Err(UniqueViolation);
        }
        rows := SetOrder(rows, ids[i], base + i);
      }
      for i := 0 to |ids|
        invariant CheckedWrites(before, ids, |ids| + i) == Ok(rows)
      {
        if Taken(rows, ids[i], i) {
          rows := before;
          FailureStays(before, ids, |ids| + i + 1, 2 * |ids|);
          return Err(UniqueViolation);
        }
        rows := SetOrder(rows, ids[i], i);
      }
      return Ok(());
    }

    method Reindex(kind: Kind) returns (r: Result<(), Error>)
      requires UniqueOrders(rows)
      modifies this
      ensures ReindexOutcome(old(rows), kind) == Outcome(rows, r)
    {
      var all := Find(kind);
      if forall i :: 0 <= i < |all| ==> rows[all[i]].order == i {
        return Ok(());
      }
      r := WriteOrder(all);
    }

    method Create(dto: CreateDto, newId: RuleId) returns (r: Result<(), Error>)
      requires UniqueOrders(rows) && newId !in rows
      modifies this
      ensures CreateOutcome(catalog, old(rows), dto, newId) == Outcome(rows, r)
    {
      match CreateChecks(catalog, rows, dto)
      case Err(e) => return Err(e);
      case Ok(rule) =>
        SavedRowsUnique(rows, newId, rule);
        rows := rows[newId := rule];
        r := Reindex(rule.kind);
    }

    method Patch(id: RuleId, dto: PatchDto) returns (r: Result<(), Error>)
      requires UniqueOrders(rows)
      modifies this
      ensures PatchOutcome(catalog, old(rows), id, dto) == Outcome(rows, r)
    {
      match PatchChecks(catalog, rows, id, dto)
      case Err(e) => return Err(e);
      case Ok(rule) =>
        var original := rows[id].kind;
        SavedRowsUnique(rows, id, rule);
        rows := rows[id := rule];
        r := Reindex(rule.kind);
        if r.Err? { return r; }
        if original != rule.kind { r := Reindex(original); }
    }

    method Remove(id: RuleId) returns (r: Result<(), Error>)
      requires UniqueOrders(rows)
      modifies this
      ensures RemoveOutcome(old(rows), id) == Outcome(rows, r)
    {
      if id == NO_ID { return Err(BadRequest); }
      if id !in rows { return Err(NotFound); }
      var kind := rows[id].kind;
      RemovedRowsUnique(rows, id);
      rows := rows - {id};
      r := Reindex(kind);
    }

    method Move(id: RuleId, target: int) returns (r: Result<(), Error>)
      requires UniqueOrders(rows)
      modifies this
      ensures MoveOutcome(old(rows), id, target) == Outcome(rows, r)
    {
      if id == NO_ID { return Err(BadRequest); }
      if id !in rows { return Err(NotFound); }
      var all := Find(rows[id].kind);
      assert IsOf(rows, rows[id].kind, id) && id in all;
      var from := IndexOf(all, id);
      var to := Min(target, |all| - 1);
      var reordered := RemoveAt(all, from);
      reordered := InsertAt(reordered, SpliceStart(to, |reordered|), all[from]);
      r := WriteOrder(reordered);
    }
  }
}
