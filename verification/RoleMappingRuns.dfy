/**
 Whole runs of the operations on role-mapping rules (role-mapping-rule.service.ts), from the empty table.
 */
module RoleMappingRuns {
  import opened RoleMappingRules
  import opened Wrappers

  // ---------- runs ----------

  datatype Operation =
    | OpCreate(create: CreateDto, newId: RuleId)
    | OpPatch(id: RuleId, patch: PatchDto)
    | OpRemove(id: RuleId)
    | OpMove(id: RuleId, target: int)

  ghost function Apply(catalog: Catalog, rows: Rows, op: Operation): (o: Outcome)
    requires UniqueOrders(rows)
    ensures UniqueOrders(o.rows)
  {
    match op
    case OpCreate(dto, newId) =>
      if newId in rows then Outcome(rows, Err(UniqueViolation)) else CreateOutcome(catalog, rows, dto, newId)
    case OpPatch(id, dto) => PatchOutcome(catalog, rows, id, dto)
    case OpRemove(id) => RemoveOutcome(rows, id)
    case OpMove(id, target) => MoveOutcome(rows, id, target)
  }

  ghost function Run(catalog: Catalog, rows: Rows, ops: seq<Operation>): (after: Rows)
    requires UniqueOrders(rows)
    ensures UniqueOrders(after)
    decreases |ops|
  {
    if ops == [] then rows else Run(catalog, Apply(catalog, rows, ops[0]).rows, ops[1..])
  }

  ghost predicate Dense(rows: Rows) { exists listings :: DenseTable(rows, listings) }

  /** How many rules of the kind there are besides this one. */
  ghost function Others(rows: Rows, kind: Kind, id: RuleId): nat
    requires UniqueOrders(rows)
  {
    RemovedRowsUnique(rows, id);
    |Listing(rows - {id}, kind)|
  }

  /** An accepted `create` or `patch` gives its rule an order in the parking window of the kind it goes to. */
  ghost predicate LandsInWindow(catalog: Catalog, rows: Rows, op: Operation)
    requires UniqueOrders(rows)
  {
    match op
    case OpCreate(dto, newId) =>
      && newId !in rows && CreateChecks(catalog, rows, dto).Ok?
      && InParkingWindow(dto.order, Others(rows, dto.kind, newId) + 1)
    case OpPatch(id, dto) =>
      var checks := PatchChecks(catalog, rows, id, dto);
      checks.Ok? && InParkingWindow(checks.value.order, Others(rows, checks.value.kind, id) + 1)
    case OpRemove(_) => false
    case OpMove(_, _) => false
  }

  lemma OthersIs(rows: Rows, kind: Kind, id: RuleId, others: seq<RuleId>)
    requires UniqueOrders(rows) && IsListing(rows - {id}, kind, others)
    ensures Others(rows, kind, id) == |others|
  {
    RemovedRowsUnique(rows, id);
    ListingIs(rows - {id}, kind, others);
  }

  /** A row whose order is not below the number of its kind is out of place in any dense table. */
  lemma StrayIsNotDense(rows: Rows, kind: Kind, ids: seq<RuleId>, id: RuleId)
    requires UniqueOrders(rows) && IsListing(rows, kind, ids) && IsOf(rows, kind, id) && rows[id].order >= |ids|
    ensures !Dense(rows)
  {
    if listings :| DenseTable(rows, listings) {
      assert DenseAs(rows, kind, listings.Of(kind));
      DenseListing(rows, kind, listings.Of(kind));
      ListingIs(rows, kind, ids);
    }
  }

  /** The rule is out of place when it was saved with an order in the parking window. */
  lemma LandedIsNotDense(base: Rows, id: RuleId, rule: Rule, others: seq<RuleId>)
    requires UniqueOrders(base[id := rule]) && id !in base && Nearly(base, rule.kind, others)
    requires InParkingWindow(rule.order, |others| + 1)
    ensures !Dense(base[id := rule])
  {
    var ids := Placed(others, id, rule.order);
    PlacedIsListing(base, id, rule, others);
    StrayIsNotDense(base[id := rule], rule.kind, ids, id);
  }

  lemma CreateDenseExactly(catalog: Catalog, rows: Rows, listings: Listings, dto: CreateDto, newId: RuleId)
    requires DenseTable(rows, listings) && newId !in rows
    ensures
      var o, lands := CreateOutcome(catalog, rows, dto, newId), LandsInWindow(catalog, rows, OpCreate(dto, newId));
      && (Dense(o.rows) <==> !lands) && (lands ==> o.result == Err(UniqueViolation))
      && (o.result.Err? && !lands ==> o.rows == rows)
  {
    CreateOnDense(catalog, rows, listings, dto, newId);
    var others := listings.Of(dto.kind);
    assert DenseAs(rows, dto.kind, others);
    assert rows - {newId} == rows;
    DenseIsListing(rows, dto.kind, others);
    OthersIs(rows, dto.kind, newId, others);
    match CreateChecks(catalog, rows, dto)
    case Err(_) => assert DenseTable(rows, listings);
    case Ok(rule) =>
      if InParkingWindow(dto.order, |others| + 1) {
        SavedRowsUnique(rows, newId, rule);
        LandedIsNotDense(rows, newId, rule, others);
      } else {
        assert DenseTable(CreateOutcome(catalog, rows, dto, newId).rows,
                          listings.With(dto.kind, Placed(others, newId, dto.order)));
      }
  }

  /** The outcome of placing a saved rule is dense exactly outside the window. */
  lemma PlacedDenseExactly(base: Rows, id: RuleId, rule: Rule, others: seq<RuleId>, listings: Listings, o: Outcome)
    requires UniqueOrders(base[id := rule]) && id !in base && Nearly(base, rule.kind, others)
    requires PlacedInto(base[id := rule], id, |others| + 1, listings, o)
    ensures var lands := InParkingWindow(rule.order, |others| + 1);
      (Dense(o.rows) <==> !lands) && (o.result.Err? <==> lands) && (lands ==> o.result == Err(UniqueViolation))
  {
    if InParkingWindow(rule.order, |others| + 1) {
      LandedIsNotDense(base, id, rule, others);
    } else {
      assert DenseTable(o.rows, listings);
    }
  }

  lemma PatchOthers(rows: Rows, listings: Listings, id: RuleId, kind: Kind)
    requires UniqueOrders(rows) && DenseTable(rows, listings) && id in rows
    ensures Nearly(rows - {id}, kind, Removed(rows, listings, id).Of(kind))
    ensures Others(rows, kind, id) == |Removed(rows, listings, id).Of(kind)|
    ensures kind == rows[id].kind ==> rows[id].order <= Others(rows, kind, id)
  {
    RemovedIsNearly(rows, listings, id, kind);
    OthersIs(rows, kind, id, Removed(rows, listings, id).Of(kind));
    if kind == rows[id].kind { PlaceIsLow(rows, listings, id, kind); }
  }

  lemma PatchDenseExactly(catalog: Catalog, rows: Rows, listings: Listings, id: RuleId, dto: PatchDto)
    requires DenseTable(rows, listings)
    ensures
      var o, lands := PatchOutcome(catalog, rows, id, dto), LandsInWindow(catalog, rows, OpPatch(id, dto));
      && (Dense(o.rows) <==> !lands) && (lands ==> o.result == Err(UniqueViolation))
      && (o.result.Err? && !lands ==> o.rows == rows)
  {
    PatchOnDense(catalog, rows, listings, id, dto);
    match PatchChecks(catalog, rows, id, dto)
    case Err(_) => assert Dense(rows);
    case Ok(rule) =>
      PatchPasses(catalog, rows, id, dto);
      SavedRowsUnique(rows, id, rule);
      PatchOthers(rows, listings, id, rule.kind);
      if rule.kind == rows[id].kind && rule.order == rows[id].order {
        assert Dense(rows[id := rule]);
      } else {
        MovedByPatch(rows, listings, id, rule, PatchOutcome(catalog, rows, id, dto));
      }
  }

  lemma MovedByPatch(rows: Rows, listings: Listings, id: RuleId, rule: Rule, o: Outcome)
    requires DenseTable(rows, listings) && id in rows && UniqueOrders(rows[id := rule])
    requires
      var left := Removed(rows, listings, id);
      var others := left.Of(rule.kind);
      && Nearly(rows - {id}, rule.kind, others)
      && PlacedInto(rows[id := rule], id, |others| + 1, left.With(rule.kind, Placed(others, id, rule.order)), o)
    ensures
      var lands := InParkingWindow(rule.order, |Removed(rows, listings, id).Of(rule.kind)| + 1);
      (Dense(o.rows) <==> !lands) && (o.result.Err? <==> lands) && (lands ==> o.result == Err(UniqueViolation))
  {
    var left := Removed(rows, listings, id);
    var others := left.Of(rule.kind);
    assert (rows - {id})[id := rule] == rows[id := rule];
    PlacedDenseExactly(rows - {id}, id, rule, others, left.With(rule.kind, Placed(others, id, rule.order)), o);
  }

  lemma PatchPasses(catalog: Catalog, rows: Rows, id: RuleId, dto: PatchDto)
    requires PatchChecks(catalog, rows, id, dto).Ok?
    ensures var rule := PatchChecks(catalog, rows, id, dto).value;
      id in rows && !SlotTaken(rows, rule.kind, rule.order, Some(id))
  {
  }

  lemma PlaceIsLow(rows: Rows, listings: Listings, id: RuleId, kind: Kind)
    requires DenseTable(rows, listings) && IsOf(rows, kind, id)
    ensures rows[id].order <= |Removed(rows, listings, id).Of(kind)|
  {
    assert DenseAs(rows, kind, listings.Of(kind));
  }

  /**
   One operation on a dense table leaves a dense table if and only if it does not land in the parking window; it then
   changes nothing when it throws.
   */
  lemma StepDenseExactly(catalog: Catalog, rows: Rows, op: Operation)
    requires UniqueOrders(rows) && Dense(rows)
    ensures Dense(Apply(catalog, rows, op).rows) <==> !LandsInWindow(catalog, rows, op)
    ensures LandsInWindow(catalog, rows, op) ==> Apply(catalog, rows, op).result == Err(UniqueViolation)
    ensures !LandsInWindow(catalog, rows, op) && Apply(catalog, rows, op).result.Err? ==>
      Apply(catalog, rows, op).rows == rows
  {
    var listings :| DenseTable(rows, listings);
    match op
    case OpCreate(dto, newId) => if newId !in rows { CreateDenseExactly(catalog, rows, listings, dto, newId); }
    case OpPatch(id, dto) => PatchDenseExactly(catalog, rows, listings, id, dto);
    case OpRemove(id) =>
      RemoveOnDense(rows, listings, id);
      assert DenseTable(RemoveOutcome(rows, id).rows,
                        if id != NO_ID && id in rows then Removed(rows, listings, id) else listings);
    case OpMove(id, target) => MoveStaysDense(rows, listings, id, target);
  }

  lemma MoveStaysDense(rows: Rows, listings: Listings, id: RuleId, target: int)
    requires DenseTable(rows, listings)
    ensures Dense(MoveOutcome(rows, id, target).rows)
    ensures MoveOutcome(rows, id, target).result.Err? ==> MoveOutcome(rows, id, target).rows == rows
  {
    MoveOnDense(rows, listings, id, target);
    if id != NO_ID && id in rows {
      var others := Removed(rows, listings, id).Of(rows[id].kind);
      var at := SpliceStart(Min(target, |others|), |others|);
      assert DenseTable(MoveOutcome(rows, id, target).rows, listings.With(rows[id].kind, InsertAt(others, at, id)));
    } else {
      assert DenseTable(MoveOutcome(rows, id, target).rows, listings);
    }
  }

  /** The table is dense at the start and after every operation. */
  ghost predicate DenseThroughout(catalog: Catalog, rows: Rows, ops: seq<Operation>)
    requires UniqueOrders(rows)
    decreases |ops|
  {
    Dense(rows) && (ops == [] || DenseThroughout(catalog, Apply(catalog, rows, ops[0]).rows, ops[1..]))
  }

  ghost predicate NeverLands(catalog: Catalog, rows: Rows, ops: seq<Operation>)
    requires UniqueOrders(rows)
    decreases |ops|
  {
    ops == [] || (!LandsInWindow(catalog, rows, ops[0])
                  && NeverLands(catalog, Apply(catalog, rows, ops[0]).rows, ops[1..]))
  }

  lemma {:induction false} RunFromDense(catalog: Catalog, rows: Rows, ops: seq<Operation>)
    requires UniqueOrders(rows) && Dense(rows)
    ensures DenseThroughout(catalog, rows, ops) <==> NeverLands(catalog, rows, ops)
    decreases |ops|
  {
    if ops != [] {
      StepDenseExactly(catalog, rows, ops[0]);
      var next := Apply(catalog, rows, ops[0]).rows;
      if Dense(next) { RunFromDense(catalog, next, ops[1..]); }
    }
  }

  lemma EmptyIsDense()
    ensures DenseTable(map[], Listings([], []))
  {
  }

  /**
   From the empty table, every table of a run has the orders of each kind at exactly 0..n-1 if and only if no accepted
   `create` or `patch` of the run gives an order in the parking window.
   */
  lemma DenseThroughoutExactly(catalog: Catalog, ops: seq<Operation>)
    ensures DenseThroughout(catalog, map[], ops) <==> NeverLands(catalog, map[], ops)
  {
    EmptyIsDense();
    RunFromDense(catalog, map[], ops);
  }

  /** Every order given by a caller is at most 1000, and a change of kind gives one. */
  predicate Modest(op: Operation) {
    match op
    case OpCreate(dto, _) => dto.order <= 1000
    case OpPatch(_, dto) => if dto.order.Some? then dto.order.value <= 1000 else dto.kind == None
    case OpRemove(_) => true
    case OpMove(_, _) => true
  }

  lemma ModestDoesNotLand(catalog: Catalog, rows: Rows, op: Operation)
    requires UniqueOrders(rows) && Dense(rows) && Modest(op)
    ensures !LandsInWindow(catalog, rows, op)
  {
    if op.OpPatch? && PatchChecks(catalog, rows, op.id, op.patch).Ok? && op.patch.order.None? {
      var listings :| DenseTable(rows, listings);
      var kind := rows[op.id].kind;
      RemovedIsNearly(rows, listings, op.id, kind);
      OthersIs(rows, kind, op.id, Removed(rows, listings, op.id).Of(kind));
      PlaceIsLow(rows, listings, op.id, kind);
    }
  }

  lemma {:induction false} ModestNeverLands(catalog: Catalog, rows: Rows, ops: seq<Operation>)
    requires UniqueOrders(rows) && Dense(rows) && forall i :: 0 <= i < |ops| ==> Modest(ops[i])
    ensures NeverLands(catalog, rows, ops)
    decreases |ops|
  {
    if ops != [] {
      ModestDoesNotLand(catalog, rows, ops[0]);
      StepDenseExactly(catalog, rows, ops[0]);
      ModestNeverLands(catalog, Apply(catalog, rows, ops[0]).rows, ops[1..]);
    }
  }

  /** In particular, from the empty table no order of at most 1000 ever leads to a gap. */
  lemma ModestRunsStayDense(catalog: Catalog, ops: seq<Operation>)
    requires forall i :: 0 <= i < |ops| ==> Modest(ops[i])
    ensures DenseThroughout(catalog, map[], ops)
  {
    EmptyIsDense();
    ModestNeverLands(catalog, map[], ops);
    DenseThroughoutExactly(catalog, ops);
  }

  // ---------- a stray row ----------

  function Roles(): Catalog { Catalog(map[1 := GlobalRole], {}) }

  /** Three rules at 0, 1 and 2; creating a fourth at 1004 throws and keeps it there. */
  lemma ClashLeavesStrayOrder()
    ensures
      var rows := map[1 := SampleRule(0), 2 := SampleRule(1), 3 := SampleRule(2)];
      && DenseTable(rows, Listings([1, 2, 3], []))
      && CreateOutcome(Roles(), rows, CreateDto(1, 1, InstanceKind, 1004, None), 4)
         == Outcome(rows[4 := SampleRule(1004)], Err(UniqueViolation))
  {
    var rows := map[1 := SampleRule(0), 2 := SampleRule(1), 3 := SampleRule(2)];
    var dto := CreateDto(1, 1, InstanceKind, 1004, None);
    assert CreateChecks(Roles(), rows, dto) == Ok(SampleRule(1004));
    CreateOnDense(Roles(), rows, Listings([1, 2, 3], []), dto, 4);
  }

  /** Removing the first rule of that table then throws with the rule gone, and the others not renumbered. */
  lemma RemoveThrowsAfterDeleting()
    ensures
      var rows := map[1 := SampleRule(0), 2 := SampleRule(1), 3 := SampleRule(2), 4 := SampleRule(1004)];
      && UniqueOrders(rows) && RemoveOutcome(rows, 1) == Outcome(rows - {1}, Err(UniqueViolation))
  {
    var rows := map[1 := SampleRule(0), 2 := SampleRule(1), 3 := SampleRule(2), 4 := SampleRule(1004)];
    var left := rows - {1};
    assert IsListing(left, InstanceKind, [2, 3, 4]);
    RemovedRowsUnique(rows, 1);
    ReindexExact(left, InstanceKind, [2, 3, 4]);
    assert left[[2, 3, 4][2]].order == 1004;
  }
}
