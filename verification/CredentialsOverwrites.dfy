/**
 Credential overwrites (credentials-overwrites.ts), and the properties the frontend is told about
 (overwriteCredentialsProperties in frontend.service.ts).
 */
module Overwrites {
  import opened Wrappers
  import opened CredentialTypes

  type Field = nat

  /** A stored value; a field that is not there is undefined. */
  datatype Value = Null | Empty | Other(id: nat)

  type Fields = map<Field, Value>

  type Data = map<TypeName, Fields>

  function Stored(data: Data, t: TypeName): Option<Fields> {
    if t in data then Some(data[t]) else None
  }

  /** What `Object.assign` takes from a type: nothing when it has no entry. */
  function FieldsOf(data: Data, t: TypeName): Fields {
    if t in data then data[t] else map[]
  }

  function Lookup(fields: Fields, k: Field): Option<Value> {
    if k in fields then Some(fields[k]) else None
  }

  // ---------- get ----------

  /** `[...types].reverse()` reduced by `Object.assign`: the last type first, so the first type wins. */
  function Merge(data: Data, types: seq<TypeName>): Fields {
    if types == [] then map[] else Merge(data, types[1..]) + FieldsOf(data, types[0])
  }

  ghost function Lineage(c: Catalogue, rank: Rank, t: TypeName): seq<TypeName>
    requires Acyclic(c, rank)
  {
    [t] + Parents(c, rank, t)
  }

  ghost function Effective(c: Catalogue, rank: Rank, data: Data, t: TypeName): Fields
    requires Acyclic(c, rank)
  {
    Merge(data, Lineage(c, rank, t))
  }

  /** The earliest type of the list that has the field decides. */
  lemma {:induction false} MergeFirstWins(data: Data, types: seq<TypeName>, i: nat, k: Field)
    requires i < |types| && k in FieldsOf(data, types[i])
    requires forall j :: 0 <= j < i ==> k !in FieldsOf(data, types[j])
    ensures Lookup(Merge(data, types), k) == Some(FieldsOf(data, types[i])[k])
  {
    if i > 0 {
      MergeFirstWins(data, types[1..], i - 1, k);
    }
  }

  lemma {:induction false} MergeDomain(data: Data, types: seq<TypeName>, k: Field)
    ensures k in Merge(data, types) <==> exists t :: t in types && k in FieldsOf(data, t)
  {
    if types != [] {
      MergeDomain(data, types[1..], k);
      assert types[0] in types;
      if t :| t in types[1..] && k in FieldsOf(data, t) { assert t in types; }
      if t :| t in types && k in FieldsOf(data, t) { assert t == types[0] || t in types[1..]; }
    }
  }

  /** The fields of a type are those that it or one of its ancestors has an overwrite for. */
  lemma EffectiveDomain(c: Catalogue, rank: Rank, data: Data, t: TypeName, k: Field)
    requires Acyclic(c, rank)
    ensures k in Effective(c, rank, data, t) <==> exists a :: AncestorOrSelf(c, t, a) && k in FieldsOf(data, a)
  {
    var line := Lineage(c, rank, t);
    MergeDomain(data, line, k);
    if a :| a in line && k in FieldsOf(data, a) {
      if a != t { ParentTypesExact(c, rank, t, a); }
      assert AncestorOrSelf(c, t, a);
    }
    if a :| AncestorOrSelf(c, t, a) && k in FieldsOf(data, a) {
      if a != t { ParentTypesExact(c, rank, t, a); }
      assert a in line;
    }
  }

  // ---------- getOverwrites and setPlainData ----------

  datatype Memo = Memo(result: Option<Fields>, resolved: seq<TypeName>)

  /** A type already resolved gives its stored entry; what is merged here is not stored. */
  ghost function GetOverwritesOutcome(c: Catalogue, rank: Rank, data: Data, resolved: seq<TypeName>, t: TypeName): Memo
    requires Acyclic(c, rank)
    decreases rank(t), 1, 0
  {
    if t in resolved then Memo(Stored(data, t), resolved)
    else if !c.recognizes(t) then Memo(None, resolved)
    else match c.declared(t)
      case None => Memo(Stored(data, t), resolved + [t])
      case Some(parents) =>
        assert Below(rank, Extends(c, t), rank(t));
        var above := AssignAll(c, rank, data, map[], resolved, parents, rank(t));
        Memo(Some(above.result.value + FieldsOf(data, t)), above.resolved + [t])
  }

  ghost function AssignAll(c: Catalogue, rank: Rank, data: Data, fields: Fields, resolved: seq<TypeName>,
                           parents: seq<TypeName>, n: nat): (r: Memo)
    requires Acyclic(c, rank) && Below(rank, parents, n)
    ensures r.result.Some?
    decreases n, 0, |parents|
  {
    if parents == [] then Memo(Some(fields), resolved) else
      assert rank(parents[0]) < n;
      var first := GetOverwritesOutcome(c, rank, data, resolved, parents[0]);
      AssignAll(c, rank, data, Assign(fields, first.result), first.resolved, parents[1..], n)
  }

  function Assign(fields: Fields, source: Option<Fields>): Fields {
    match source case Some(more) => fields + more case None => fields
  }

  ghost function VisitAll(c: Catalogue, rank: Rank, data: Data, resolved: seq<TypeName>, order: seq<TypeName>): Data
    requires Acyclic(c, rank)
    decreases |order|
  {
    if order == [] then data else
      var memo := GetOverwritesOutcome(c, rank, data, resolved, order[0]);
      VisitAll(c, rank, Store(data, order[0], memo.result), memo.resolved, order[1..])
  }

  /** Only a result with fields is stored. */
  function Store(data: Data, t: TypeName, result: Option<Fields>): Data {
    if result.Some? && result.value != map[] then data[t := result.value] else data
  }

  /** `setPlainData` when the types are visited in the given order. */
  ghost function SetPlainDataOutcome(c: Catalogue, rank: Rank, data: Data, order: seq<TypeName>): Data
    requires Acyclic(c, rank)
  {
    VisitAll(c, rank, data, [], order)
  }

  // ---------- applyOverwrite ----------

  predicate Blank(fields: Fields, k: Field) {
    k !in fields || fields[k] == Null || fields[k] == Empty
  }

  predicate Customized(overwrites: Fields, data: Fields) {
    exists k :: k in overwrites && !Blank(data, k) && data[k] != overwrites[k]
  }

  /** Blank fields take the overwrite. */
  function Filled(data: Fields, overwrites: Fields): Fields {
    map k | k in data.Keys + overwrites.Keys :: if k in overwrites && Blank(data, k) then overwrites[k] else data[k]
  }

  function ApplyOverwriteOutcome(overwrites: Fields, skipListed: bool, data: Fields): Fields {
    if skipListed && Customized(overwrites, data) then data else Filled(data, overwrites)
  }

  /** A second application changes nothing. */
  lemma ApplyIsIdempotent(overwrites: Fields, skipListed: bool, data: Fields)
    ensures var once := ApplyOverwriteOutcome(overwrites, skipListed, data);
      ApplyOverwriteOutcome(overwrites, skipListed, once) == once
  {
    var once := ApplyOverwriteOutcome(overwrites, skipListed, data);
    if !(skipListed && Customized(overwrites, data)) {
      assert Filled(once, overwrites) == once;
    }
  }

  /** A stored value that is not blank stays; only blank fields with an overwrite change, and then to the overwrite. */
  lemma ApplyFillsBlanksOnly(overwrites: Fields, skipListed: bool, data: Fields, k: Field)
    ensures var after := ApplyOverwriteOutcome(overwrites, skipListed, data);
      && (!Blank(data, k) ==> Lookup(after, k) == Lookup(data, k))
      && (Lookup(after, k) != Lookup(data, k) ==> Lookup(after, k) == Lookup(overwrites, k))
      && (!skipListed && Blank(data, k) && k in overwrites ==> Lookup(after, k) == Lookup(overwrites, k))
  {
  }

  /** The stored value is missing, null or the empty text. */
  predicate Unset(data: Fields, k: Field) {
    Lookup(data, k) == None || Lookup(data, k) == Some(Null) || Lookup(data, k) == Some(Empty)
  }

  /** The user has set a field that has an overwrite, and to something else. */
  predicate UserSet(overwrites: Fields, data: Fields, k: Field) {
    k in overwrites && k in data && data[k] != Null && data[k] != Empty && data[k] != overwrites[k]
  }

  /**
   Field by field: a field takes its overwrite if and only if it has one and is not set, and the type is not skip-listed
   with some field set by the user; otherwise it stays.
   */
  lemma ApplyExact(overwrites: Fields, skipListed: bool, data: Fields, k: Field)
    ensures var after := ApplyOverwriteOutcome(overwrites, skipListed, data);
      Lookup(after, k) ==
        if k in overwrites && Unset(data, k) && !(skipListed && exists j :: UserSet(overwrites, data, j))
        then Some(overwrites[k]) else Lookup(data, k)
  {
    assert Customized(overwrites, data) <==> exists j :: UserSet(overwrites, data, j) by {
      if j :| UserSet(overwrites, data, j) { assert j in overwrites && !Blank(data, j) && data[j] != overwrites[j]; }
      if j :| j in overwrites && !Blank(data, j) && data[j] != overwrites[j] { assert UserSet(overwrites, data, j); }
    }
  }

  /** On a skip-listed type it is all or nothing: a single customised field protects the whole credential. */
  lemma SkipListedAllOrNothing(overwrites: Fields, data: Fields)
    ensures ApplyOverwriteOutcome(overwrites, true, data)
         == if Customized(overwrites, data) then data else ApplyOverwriteOutcome(overwrites, false, data)
    ensures !Customized(overwrites, data) ==>
      forall k :: k in overwrites ==> Lookup(ApplyOverwriteOutcome(overwrites, true, data), k) == Some(overwrites[k])
  {
    if !Customized(overwrites, data) {
      var after := ApplyOverwriteOutcome(overwrites, true, data);
      forall k | k in overwrites ensures Lookup(after, k) == Some(overwrites[k]) {
        assert Blank(data, k) || data[k] == overwrites[k];
      }
    }
  }

  /** The loop over the overwrites' keys has dealt with those in `done`. */
  ghost predicate FilledSoFar(data: Fields, overwrites: Fields, done: set<Field>, r: Fields)
    requires done <= overwrites.Keys
  {
    forall k :: Lookup(r, k) == if k in done && Blank(data, k) then Some(overwrites[k]) else Lookup(data, k)
  }

  lemma FillStep(data: Fields, overwrites: Fields, done: set<Field>, r: Fields, k: Field)
    requires done <= overwrites.Keys && k in overwrites && k !in done && FilledSoFar(data, overwrites, done, r)
    ensures FilledSoFar(data, overwrites, done + {k}, if Blank(r, k) then r[k := overwrites[k]] else r)
  {
    assert Lookup(r, k) == Lookup(data, k);
  }

  lemma AllFilled(data: Fields, overwrites: Fields, r: Fields)
    requires FilledSoFar(data, overwrites, overwrites.Keys, r)
    ensures r == Filled(data, overwrites)
  {
    forall k ensures k in r <==> k in Filled(data, overwrites) { assert Lookup(r, k) == Lookup(r, k); }
    forall k | k in r ensures r[k] == Filled(data, overwrites)[k] { assert Lookup(r, k) == Some(r[k]); }
  }

  method FillBlanks(data: Fields, overwrites: Fields) returns (r: Fields)
    ensures r == Filled(data, overwrites)
  {
    r := data;
    var rest := overwrites.Keys;
    ghost var done := {};
    while rest != {}
      invariant done + rest == overwrites.Keys && done !! rest
      invariant FilledSoFar(data, overwrites, done, r)
      decreases |rest|
    {
      var k :| k in rest;
      FillStep(data, overwrites, done, r, k);
      if Blank(r, k) { r := r[k := overwrites[k]]; }
      rest := rest - {k};
      done := done + {k};
    }
    assert done == overwrites.Keys;
    AllFilled(data, overwrites, r);
  }

  // ---------- the service ----------

  class CredentialsOverwrites {
    var overwriteData: Data
    var resolvedTypes: seq<TypeName>
    const credentialTypes: Catalogue
    const skipTypes: seq<TypeName>

    constructor (credentialTypes: Catalogue, skipTypes: seq<TypeName>)
      ensures overwriteData == map[] && resolvedTypes == []
      ensures this.credentialTypes == credentialTypes && this.skipTypes == skipTypes
    {
      overwriteData, resolvedTypes := map[], [];
      this.credentialTypes, this.skipTypes := credentialTypes, skipTypes;
    }

    method GetOverwrites(ghost rank: Rank, t: TypeName) returns (r: Option<Fields>)
      requires Acyclic(credentialTypes, rank)
      modifies this`resolvedTypes
      ensures Memo(r, resolvedTypes)
           == GetOverwritesOutcome(credentialTypes, rank, overwriteData, old(resolvedTypes), t)
      decreases rank(t)
    {
      if t in resolvedTypes { return Stored(overwriteData, t); }
      if !credentialTypes.recognizes(t) { return None; }
      match credentialTypes.declared(t)
      case None =>
        resolvedTypes := resolvedTypes + [t];
        r := Stored(overwriteData, t);
      case Some(parents) =>
        var fields: Fields := map[];
        ghost var before := resolvedTypes;
        assert Below(rank, Extends(credentialTypes, t), rank(t));
        for i := 0 to |parents|
          invariant AssignAll(credentialTypes, rank, overwriteData, map[], before, parents, rank(t))
                 == AssignAll(credentialTypes, rank, overwriteData, fields, resolvedTypes, parents[i..], rank(t))
        {
          assert parents[i..][1..] == parents[i + 1..];
          var more := GetOverwrites(rank, parents[i]);
          fields := Assign(fields, more);
        }
        fields := fields + FieldsOf(overwriteData, t);
        resolvedTypes := resolvedTypes + [t];
        r := Some(fields);
    }

    /** `order` is the order in which `for ... in` lists the types of the new data. */
    method SetPlainData(ghost rank: Rank, data: Data, order: seq<TypeName>)
      requires Acyclic(credentialTypes, rank) && forall t :: t in order <==> t in data
      modifies this
      ensures overwriteData == SetPlainDataOutcome(credentialTypes, rank, data, order)
    {
      resolvedTypes := [];
      overwriteData := data;
      for i := 0 to |order|
        invariant VisitAll(credentialTypes, rank, data, [], order)
               == VisitAll(credentialTypes, rank, overwriteData, resolvedTypes, order[i..])
      {
        assert order[i..][1..] == order[i + 1..];
        var overwrites := GetOverwrites(rank, order[i]);
        overwriteData := Store(overwriteData, order[i], overwrites);
      }
    }

    method Get(ghost rank: Rank, name: TypeName) returns (r: Fields)
      requires Acyclic(credentialTypes, rank)
      ensures r == Effective(credentialTypes, rank, overwriteData, name)
    {
      var parentTypes := GetParentTypes(credentialTypes, rank, name);
      r := Merge(overwriteData, [name] + parentTypes);
    }

    method ApplyOverwrite(ghost rank: Rank, t: TypeName, data: Fields) returns (r: Fields)
      requires Acyclic(credentialTypes, rank)
      ensures r == ApplyOverwriteOutcome(Effective(credentialTypes, rank, overwriteData, t), t in skipTypes, data)
    {
      var overwrites := Get(rank, t);
      if t in skipTypes {
        if Customized(overwrites, data) { return data; }
      }
      r := FillBlanks(data, overwrites);
    }
  }

  // ---------- nearest wins ----------

  /** The value of the nearest type, from t upwards, that has the field in the data as supplied. */
  ghost function Nearest(c: Catalogue, rank: Rank, raw: Data, t: TypeName, k: Field): Option<Value>
    requires Acyclic(c, rank) && ChainAbove(c, rank, t)
    decreases rank(t)
  {
    if k in FieldsOf(raw, t) then Some(raw[t][k])
    else if Extends(c, t) == [] then None
    else Nearest(c, rank, raw, Extends(c, t)[0], k)
  }

  /** Nothing supplied for this type is lost, and whatever is stored for it is the nearest value. */
  ghost predicate SoundAt(c: Catalogue, rank: Rank, raw: Data, data: Data, a: TypeName, k: Field)
    requires Acyclic(c, rank) && ChainAbove(c, rank, a)
  {
    && (k in FieldsOf(raw, a) ==> k in FieldsOf(data, a))
    && (k in FieldsOf(data, a) ==> Nearest(c, rank, raw, a, k) == Some(FieldsOf(data, a)[k]))
  }

  /** The types from t upwards are sound; nothing is asked of the others. */
  ghost predicate Sound(c: Catalogue, rank: Rank, raw: Data, data: Data, t: TypeName)
    requires Acyclic(c, rank) && ChainAbove(c, rank, t)
    decreases rank(t)
  {
    && (forall k :: SoundAt(c, rank, raw, data, t, k))
    && (Extends(c, t) == [] || Sound(c, rank, raw, data, Extends(c, t)[0]))
  }

  lemma {:induction false} EffectiveIsNearest(c: Catalogue, rank: Rank, raw: Data, data: Data, t: TypeName, k: Field)
    requires Acyclic(c, rank) && ChainAbove(c, rank, t) && Sound(c, rank, raw, data, t)
    ensures Lookup(Effective(c, rank, data, t), k) == Nearest(c, rank, raw, t, k)
    decreases rank(t)
  {
    assert SoundAt(c, rank, raw, data, t, k);
    if k in FieldsOf(data, t) {
      MergeFirstWins(data, Lineage(c, rank, t), 0, k);
    } else if Extends(c, t) == [] {
      assert Parents(c, rank, t) == Levels(c, rank, [], rank(t)) == [];
      MergeDomain(data, Lineage(c, rank, t), k);
    } else {
      var p := Extends(c, t)[0];
      assert rank(p) < rank(t);
      EffectiveIsNearest(c, rank, raw, data, p, k);
      EffectiveOfParent(c, rank, data, t, k);
    }
  }

  /** With one parent, a field the type itself has no overwrite for comes from the parent. */
  lemma EffectiveOfParent(c: Catalogue, rank: Rank, data: Data, t: TypeName, k: Field)
    requires Acyclic(c, rank) && |Extends(c, t)| == 1 && k !in FieldsOf(data, t)
    ensures Lookup(Effective(c, rank, data, t), k) == Lookup(Effective(c, rank, data, Extends(c, t)[0]), k)
  {
    var p := Extends(c, t)[0];
    var rest := ParentsOfChild(c, rank, t);
    MergeThroughParent(data, [t], Lineage(c, rank, p), rest, k);
    assert Lineage(c, rank, t) == [t] + Lineage(c, rank, p) + rest;
  }

  /** A field the first type does not have is decided by the middle part, when the rest only repeats it. */
  lemma MergeThroughParent(data: Data, first: seq<TypeName>, line: seq<TypeName>, rest: seq<TypeName>, k: Field)
    requires forall t :: t in first ==> k !in FieldsOf(data, t)
    requires forall a :: a in rest ==> a in line
    ensures Lookup(Merge(data, first + line + rest), k) == Lookup(Merge(data, line), k)
  {
    var all := first + line + rest;
    MergeDomain(data, line, k);
    MergeDomain(data, all, k);
    if t :| t in all && k in FieldsOf(data, t) {
      assert t in first || t in line || t in rest;
      assert t in line;
    }
    if k in Merge(data, line) {
      var i := FirstDefiner(data, line, k);
      assert all[|first| + i] == line[i];
      forall j | 0 <= j < |first| + i ensures k !in FieldsOf(data, all[j]) {
        if j < |first| { assert all[j] in first; } else { assert all[j] == line[j - |first|]; }
      }
      MergeFirstWins(data, line, i, k);
      MergeFirstWins(data, all, |first| + i, k);
    }
  }

  lemma {:induction false} FirstDefiner(data: Data, types: seq<TypeName>, k: Field) returns (i: nat)
    requires exists t :: t in types && k in FieldsOf(data, t)
    ensures i < |types| && k in FieldsOf(data, types[i])
    ensures forall j :: 0 <= j < i ==> k !in FieldsOf(data, types[j])
  {
    if k in FieldsOf(data, types[0]) {
      i := 0;
    } else {
      var t :| t in types && k in FieldsOf(data, t);
      assert t in types[1..];
      i := FirstDefiner(data, types[1..], k);
      i := i + 1;
    }
  }

  /** Whatever getOverwrites returns, from the memo or not, is made of nearest values. */
  lemma {:induction false} GetOverwritesSound(c: Catalogue, rank: Rank, raw: Data, data: Data, resolved: seq<TypeName>,
                                              t: TypeName, k: Field)
    requires Acyclic(c, rank) && ChainAbove(c, rank, t) && Sound(c, rank, raw, data, t)
    ensures var r := GetOverwritesOutcome(c, rank, data, resolved, t).result;
      r.Some? ==>
        && (k in FieldsOf(data, t) ==> k in r.value)
        && (k in r.value ==> Nearest(c, rank, raw, t, k) == Some(r.value[k]))
    decreases rank(t)
  {
    assert SoundAt(c, rank, raw, data, t, k);
    if t !in resolved && c.recognizes(t) && Extends(c, t) != [] {
      var p := Extends(c, t)[0];
      assert rank(p) < rank(t);
      GetOverwritesSound(c, rank, raw, data, resolved, p, k);
      var first := GetOverwritesOutcome(c, rank, data, resolved, p);
      assert Extends(c, t)[1..] == [];
      assert AssignAll(c, rank, data, map[], resolved, Extends(c, t), rank(t)).result
          == Some(Assign(map[], first.result));
    }
  }

  /** Storing the result for any type keeps the line of t sound. */
  lemma {:induction false} StoreSound(c: Catalogue, rank: Rank, raw: Data, data: Data, resolved: seq<TypeName>,
                                      v: TypeName, t: TypeName)
    requires Acyclic(c, rank) && ChainAbove(c, rank, t) && Sound(c, rank, raw, data, t)
    ensures Sound(c, rank, raw, Store(data, v, GetOverwritesOutcome(c, rank, data, resolved, v).result), t)
    decreases rank(t)
  {
    var after := Store(data, v, GetOverwritesOutcome(c, rank, data, resolved, v).result);
    forall k ensures SoundAt(c, rank, raw, after, t, k) {
      assert SoundAt(c, rank, raw, data, t, k);
      if v == t { GetOverwritesSound(c, rank, raw, data, resolved, t, k); }
    }
    if Extends(c, t) != [] {
      assert rank(Extends(c, t)[0]) < rank(t);
      StoreSound(c, rank, raw, data, resolved, v, Extends(c, t)[0]);
    }
  }

  lemma {:induction false} VisitAllSound(c: Catalogue, rank: Rank, raw: Data, data: Data, resolved: seq<TypeName>,
                                         order: seq<TypeName>, t: TypeName)
    requires Acyclic(c, rank) && ChainAbove(c, rank, t) && Sound(c, rank, raw, data, t)
    ensures Sound(c, rank, raw, VisitAll(c, rank, data, resolved, order), t)
    decreases |order|
  {
    if order != [] {
      var memo := GetOverwritesOutcome(c, rank, data, resolved, order[0]);
      StoreSound(c, rank, raw, data, resolved, order[0], t);
      VisitAllSound(c, rank, raw, Store(data, order[0], memo.result), memo.resolved, order[1..], t);
    }
  }

  /** Any number of passes of `setPlainData`, each over the output of the one before. */
  ghost function Passes(c: Catalogue, rank: Rank, data: Data, orders: seq<seq<TypeName>>): Data
    requires Acyclic(c, rank)
    decreases |orders|
  {
    if orders == [] then data
    else Passes(c, rank, SetPlainDataOutcome(c, rank, data, orders[0]), orders[1..])
  }

  lemma {:induction false} PassesSound(c: Catalogue, rank: Rank, raw: Data, data: Data, orders: seq<seq<TypeName>>,
                                       t: TypeName)
    requires Acyclic(c, rank) && ChainAbove(c, rank, t) && Sound(c, rank, raw, data, t)
    ensures Sound(c, rank, raw, Passes(c, rank, data, orders), t)
    decreases |orders|
  {
    if orders != [] {
      VisitAllSound(c, rank, raw, data, [], orders[0], t);
      PassesSound(c, rank, raw, SetPlainDataOutcome(c, rank, data, orders[0]), orders[1..], t);
    }
  }

  lemma {:induction false} RawIsSound(c: Catalogue, rank: Rank, raw: Data, t: TypeName)
    requires Acyclic(c, rank) && ChainAbove(c, rank, t)
    ensures Sound(c, rank, raw, raw, t)
    decreases rank(t)
  {
    if Extends(c, t) != [] {
      assert rank(Extends(c, t)[0]) < rank(t);
      RawIsSound(c, rank, raw, Extends(c, t)[0]);
    }
  }

  /**
   Where no type from t upwards has more than one parent, t gets each field from its nearest ancestor-or-self in the
   data as supplied, in whatever order the types were visited and however often the result was saved and loaded again.
   */
  lemma NearestWins(c: Catalogue, rank: Rank, raw: Data, orders: seq<seq<TypeName>>, t: TypeName, k: Field)
    requires Acyclic(c, rank) && ChainAbove(c, rank, t)
    ensures Lookup(Effective(c, rank, Passes(c, rank, raw, orders), t), k) == Nearest(c, rank, raw, t, k)
  {
    RawIsSound(c, rank, raw, t);
    PassesSound(c, rank, raw, raw, orders, t);
    EffectiveIsNearest(c, rank, raw, Passes(c, rank, raw, orders), t, k);
  }

  // ---------- what the frontend is told ----------

  /** A credential type as the frontend sees it. */
  class Credential {
    const name: TypeName
    var overwrittenProperties: Option<seq<Field>>
    var skipManagedCreation: bool

    constructor (name: TypeName)
      ensures this.name == name && overwrittenProperties == None && !skipManagedCreation
    {
      this.name := name;
      overwrittenProperties, skipManagedCreation := None, false;
    }
  }

  predicate Unique(fields: seq<Field>) {
    forall i, j :: 0 <= i < j < |fields| ==> fields[i] != fields[j]
  }

  /** Nothing is advertised when there is nothing to overwrite; otherwise each such field once. */
  ghost predicate Advertises(properties: Option<seq<Field>>, effective: Fields) {
    match properties
    case None => effective == map[]
    case Some(fields) => fields != [] && Unique(fields) && forall k :: k in fields <==> k in effective
  }

  /** `Object.keys`, in some order. */
  method ObjectKeys(fields: Fields) returns (keys: seq<Field>)
    ensures forall k :: k in keys <==> k in fields
  {
    keys := [];
    var rest := fields.Keys;
    while rest != {}
      invariant rest <= fields.Keys && forall k :: k in keys <==> k in fields && k !in rest
      decreases |rest|
    {
      var k :| k in rest;
      rest := rest - {k};
      keys := keys + [k];
    }
  }

  function Uniq(fields: seq<Field>): (r: seq<Field>)
    ensures Unique(r) && forall k :: k in r <==> k in fields
  {
    if fields == [] then [] else
      var front := Uniq(fields[..|fields| - 1]);
      var last := fields[|fields| - 1];
      assert fields == fields[..|fields| - 1] + [last];
      if last in front then front else front + [last]
  }

  method OverwrittenProperties(c: Catalogue, ghost rank: Rank, data: Data, name: TypeName)
    returns (r: Option<seq<Field>>)
    requires Acyclic(c, rank)
    ensures Advertises(r, Effective(c, rank, data, name))
  {
    var parents := GetParentTypes(c, rank, name);
    var properties: seq<Field> := [];
    for i := |parents| downto 0
      invariant forall k :: k in properties <==> k in Merge(data, parents[i..])
    {
      assert parents[i..][1..] == parents[i + 1..];
      if parents[i] in data {
        var keys := ObjectKeys(data[parents[i]]);
        properties := properties + keys;
      }
    }
    assert parents[0..] == parents && ([name] + parents)[1..] == parents;
    if name in data {
      var keys := ObjectKeys(data[name]);
      properties := properties + keys;
    }
    assert forall k :: k in properties <==> k in Effective(c, rank, data, name);
    if |properties| > 0 {
      assert properties[0] in properties;
      r := Some(Uniq(properties));
      assert properties[0] in Uniq(properties);
    } else {
      r := None;
    }
  }

  /**
   Every credential is told exactly the fields `applyOverwrite` may fill for it, whatever it was told before and
   whatever the hierarchy.
   */
  method OverwriteCredentialsProperties(c: Catalogue, ghost rank: Rank, data: Data, skipTypes: seq<TypeName>,
                                        credentials: seq<Credential>)
    requires Acyclic(c, rank)
    modifies set x | x in credentials
    ensures forall x :: x in credentials ==>
      && Advertises(x.overwrittenProperties, Effective(c, rank, data, x.name))
      && x.skipManagedCreation == (x.name in skipTypes)
  {
    for i := 0 to |credentials|
      invariant forall x :: x in credentials[..i] ==>
        && Advertises(x.overwrittenProperties, Effective(c, rank, data, x.name))
        && x.skipManagedCreation == (x.name in skipTypes)
    {
      var credential := credentials[i];
      credential.overwrittenProperties, credential.skipManagedCreation := None, false;
      var properties := OverwrittenProperties(c, rank, data, credential.name);
      credential.overwrittenProperties := properties;
      if credential.name in skipTypes { credential.skipManagedCreation := true; }
      assert credentials[..i + 1] == credentials[..i] + [credential];
    }
    assert credentials[..|credentials|] == credentials;
  }

  /** The advertised fields are those an empty credential receives, and no others ever change. */
  lemma AdvertisedIsFillable(c: Catalogue, rank: Rank, data: Data, t: TypeName, skipListed: bool,
                             properties: Option<seq<Field>>, k: Field)
    requires Acyclic(c, rank) && Advertises(properties, Effective(c, rank, data, t))
    ensures (properties.Some? && k in properties.value)
        <==> k in ApplyOverwriteOutcome(Effective(c, rank, data, t), skipListed, map[])
    ensures forall stored ::
      Lookup(ApplyOverwriteOutcome(Effective(c, rank, data, t), skipListed, stored), k) != Lookup(stored, k)
      ==> properties.Some? && k in properties.value
  {
    var overwrites := Effective(c, rank, data, t);
    assert !Customized(overwrites, map[]);
    forall stored ensures
      Lookup(ApplyOverwriteOutcome(overwrites, skipListed, stored), k) != Lookup(stored, k) ==> k in overwrites
    {
      ApplyFillsBlanksOnly(overwrites, skipListed, stored, k);
    }
  }

  // ---------- with several parents ----------

  /** Type 0 extends types 1 and 2, in this order. */
  function TwoParents(): Catalogue {
    Catalogue(_ => true, t => if t == 0 then Some([1, 2]) else None)
  }

  function TwoParentsRank(): Rank { t => if t == 0 then 1 else 0 }

  /** Types without parents, or already resolved, leave the data as it is. */
  lemma {:induction false} VisitsOfLeaves(c: Catalogue, rank: Rank, data: Data, resolved: seq<TypeName>,
                                          order: seq<TypeName>)
    requires Acyclic(c, rank) && forall i :: 0 <= i < |order| ==> c.declared(order[i]) == None
    ensures VisitAll(c, rank, data, resolved, order) == data
    decreases |order|
  {
    if order != [] {
      assert c.declared(order[0]) == None;
      var memo := GetOverwritesOutcome(c, rank, data, resolved, order[0]);
      assert Store(data, order[0], memo.result) == data;
      VisitsOfLeaves(c, rank, data, memo.resolved, order[1..]);
    }
  }

  /** What `getOverwrites` makes of type 0 on its first visit. */
  lemma TwoParentsMerged(data: Data)
    requires 1 in data && 2 in data && Acyclic(TwoParents(), TwoParentsRank())
    ensures GetOverwritesOutcome(TwoParents(), TwoParentsRank(), data, [], 0).result
         == Some(data[1] + data[2] + FieldsOf(data, 0))
  {
    var c, rank := TwoParents(), TwoParentsRank();
    var parents: seq<TypeName> := [1, 2];
    assert c.declared(0) == Some(parents) && c.declared(1) == None && c.declared(2) == None;
    assert GetOverwritesOutcome(c, rank, data, [], 1) == Memo(Some(data[1]), [1]);
    assert GetOverwritesOutcome(c, rank, data, [1], 2) == Memo(Some(data[2]), [1, 2]);
    assert parents[1..] == [2] && parents[1..][1..] == [];
    assert map[] + data[1] == data[1];
    assert AssignAll(c, rank, data, data[1], [1], parents[1..], 1).result == Some(data[1] + data[2]);
    assert AssignAll(c, rank, data, map[], [], parents, 1).result == Some(data[1] + data[2]);
  }

  lemma FirstParentWins(c: Catalogue, rank: Rank, data: Data, t: TypeName, k: Field)
    requires Acyclic(c, rank) && Extends(c, t) != []
    requires k !in FieldsOf(data, t) && k in FieldsOf(data, Extends(c, t)[0])
    ensures Lookup(Effective(c, rank, data, t), k) == Some(FieldsOf(data, Extends(c, t)[0])[k])
  {
    var line := Lineage(c, rank, t);
    assert Extends(c, t) <= Parents(c, rank, t);
    assert line[0] == t && line[1] == Extends(c, t)[0];
    MergeFirstWins(data, line, 1, k);
  }

  lemma SecondParentWins(data: Data, k: Field)
    requires Acyclic(TwoParents(), TwoParentsRank())
    requires 0 in data && 1 in data && 2 in data && k in data[2] && k !in data[0]
    ensures var c, rank := TwoParents(), TwoParentsRank();
      Lookup(Effective(c, rank, SetPlainDataOutcome(c, rank, data, [0, 1, 2]), 0), k) == Some(data[2][k])
  {
    var c, rank := TwoParents(), TwoParentsRank();
    var order: seq<TypeName> := [0, 1, 2];
    TwoParentsMerged(data);
    var memo := GetOverwritesOutcome(c, rank, data, [], 0);
    var after := Store(data, 0, memo.result);
    assert k in after[0] && after[0][k] == data[2][k];
    VisitsOfLeaves(c, rank, after, memo.resolved, order[1..]);
    MergeFirstWins(after, Lineage(c, rank, 0), 0, k);
  }

  const BOTH: Data := map[1 := map[7 := Other(1)], 2 := map[7 := Other(2)]]

  const OWN: Data := BOTH[0 := map[8 := Other(3)]]

  /**
   With two parents that both define a field the two ways of resolving disagree: `get` prefers the first parent,
   `getOverwrites` the second. So adding an unrelated overwrite of its own to the type changes the field's value.
   */
  lemma OwnEntryFlipsParent()
    ensures Acyclic(TwoParents(), TwoParentsRank())
    ensures var c, rank := TwoParents(), TwoParentsRank();
      && Lookup(Effective(c, rank, SetPlainDataOutcome(c, rank, BOTH, [1, 2]), 0), 7) == Some(Other(1))
      && Lookup(Effective(c, rank, SetPlainDataOutcome(c, rank, OWN, [0, 1, 2]), 0), 7) == Some(Other(2))
  {
    VisitsOfLeaves(TwoParents(), TwoParentsRank(), BOTH, [], [1, 2]);
    FirstParentWins(TwoParents(), TwoParentsRank(), BOTH, 0, 7);
    SecondParentWins(OWN, 7);
  }
}
