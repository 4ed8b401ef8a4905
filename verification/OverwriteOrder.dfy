/**
 Does a credential type get the same overwrites in whatever order `setPlainData` visits the types
 (credentials-overwrites.ts)? `getOverwrites` does not store what it merges for a parent, but remembers the parent as
 resolved, so a type visited after one of its children keeps only its own fields.
 */
module OverwriteOrder {
  import opened Wrappers
  import opened CredentialTypes
  import opened Overwrites

  /** `for ... in` lists each type of the data once, in some order. */
  ghost predicate Lists(order: seq<TypeName>, raw: Data) {
    && (forall i, j :: 0 <= i < j < |order| ==> order[i] != order[j])
    && forall t :: t in order <==> t in raw
  }

  /** What a type gets after `setPlainData`. */
  ghost function Given(c: Catalogue, rank: Rank, raw: Data, order: seq<TypeName>, t: TypeName): Fields
    requires Acyclic(c, rank)
  {
    Effective(c, rank, SetPlainDataOutcome(c, rank, raw, order), t)
  }

  ghost predicate SameGiven(c: Catalogue, rank: Rank, raw: Data, one: seq<TypeName>, other: seq<TypeName>, t: TypeName)
    requires Acyclic(c, rank)
  {
    Given(c, rank, raw, one, t) == Given(c, rank, raw, other, t)
  }

  /** The order never matters for t in this catalogue. */
  ghost predicate OrderFreeIn(c: Catalogue, rank: Rank, t: TypeName)
    requires Acyclic(c, rank)
  {
    forall raw, one, other :: Lists(one, raw) && Lists(other, raw) ==> SameGiven(c, rank, raw, one, other, t)
  }

  ghost predicate SameAt(c: Catalogue, d: Catalogue, a: TypeName) {
    c.declared(a) == d.declared(a) && c.recognizes(a) == d.recognizes(a)
  }

  /** The catalogues agree on t and its ancestors, and may hold any other types besides. */
  ghost predicate SameAbove(c: Catalogue, d: Catalogue, t: TypeName) {
    forall a :: AncestorOrSelf(c, t, a) ==> SameAt(c, d, a)
  }

  /** The order never matters for t, whatever other types the catalogue holds. */
  ghost predicate OrderFree(c: Catalogue, t: TypeName) {
    forall d: Catalogue, rank: Rank :: Acyclic(d, rank) && SameAbove(c, d, t) ==> OrderFreeIn(d, rank, t)
  }

  // ---------- chains do not depend on the order ----------

  lemma ChainIsOrderFree(c: Catalogue, rank: Rank, t: TypeName)
    requires Acyclic(c, rank) && ChainAbove(c, rank, t)
    ensures OrderFreeIn(c, rank, t)
  {
    forall raw, one, other | Lists(one, raw) && Lists(other, raw) ensures SameGiven(c, rank, raw, one, other, t) {
      var a, b := Given(c, rank, raw, one, t), Given(c, rank, raw, other, t);
      forall k ensures Lookup(a, k) == Lookup(b, k) {
        OnePass(c, rank, raw, one, t, k);
        OnePass(c, rank, raw, other, t, k);
      }
      SameLookups(a, b);
    }
  }

  lemma OnePass(c: Catalogue, rank: Rank, raw: Data, order: seq<TypeName>, t: TypeName, k: Field)
    requires Acyclic(c, rank) && ChainAbove(c, rank, t)
    ensures Lookup(Given(c, rank, raw, order, t), k) == Nearest(c, rank, raw, t, k)
  {
    RawIsSound(c, rank, raw, t);
    VisitAllSound(c, rank, raw, raw, [], order, t);
    EffectiveIsNearest(c, rank, raw, SetPlainDataOutcome(c, rank, raw, order), t, k);
  }

  lemma SameLookups(a: Fields, b: Fields)
    requires forall k :: Lookup(a, k) == Lookup(b, k)
    ensures a == b
  {
    forall k ensures k in a <==> k in b { assert Lookup(a, k) == Lookup(b, k); }
    forall k | k in a ensures a[k] == b[k] { assert Lookup(a, k) == Lookup(b, k); }
  }

  lemma {:induction false} ParentsAreSame(c: Catalogue, d: Catalogue, t: TypeName, p: TypeName)
    requires SameAbove(c, d, t) && p in Extends(c, t)
    ensures SameAbove(c, d, p)
  {
    ParentIsAncestor(c, t, p);
    forall a | AncestorOrSelf(c, p, a) ensures SameAt(c, d, a) {
      if a != p { AncestorsCompose(c, t, p, a); }
      assert AncestorOrSelf(c, t, a);
    }
  }

  lemma {:induction false} SameChain(c: Catalogue, rank: Rank, d: Catalogue, other: Rank, t: TypeName)
    requires Acyclic(c, rank) && Acyclic(d, other) && SameAbove(c, d, t)
    ensures ChainAbove(c, rank, t) <==> ChainAbove(d, other, t)
    ensures !ChainAbove(c, rank, t) ==> Fork(c, rank, t) == Fork(d, other, t)
    decreases rank(t)
  {
    assert AncestorOrSelf(c, t, t) && SameAt(c, d, t);
    if |Extends(c, t)| == 1 {
      var p := Extends(c, t)[0];
      assert rank(p) < rank(t);
      ParentsAreSame(c, d, t, p);
      SameChain(c, rank, d, other, p);
    }
  }

  // ---------- where the line of a type forks ----------

  /** The nearest type, from t upwards, with more than one parent. */
  ghost function Fork(c: Catalogue, rank: Rank, t: TypeName): (a: TypeName)
    requires Acyclic(c, rank) && !ChainAbove(c, rank, t)
    ensures |Extends(c, a)| > 1
    decreases rank(t)
  {
    if |Extends(c, t)| > 1 then t else
      assert rank(Extends(c, t)[0]) < rank(t);
      Fork(c, rank, Extends(c, t)[0])
  }

  lemma {:induction false} ForkIsAncestor(c: Catalogue, rank: Rank, t: TypeName)
    requires Acyclic(c, rank) && !ChainAbove(c, rank, t)
    ensures AncestorOrSelf(c, t, Fork(c, rank, t))
    decreases rank(t)
  {
    if |Extends(c, t)| <= 1 {
      var p := Extends(c, t)[0];
      assert rank(p) < rank(t);
      ForkIsAncestor(c, rank, p);
      ParentIsAncestor(c, t, p);
      if Fork(c, rank, t) != p { AncestorsCompose(c, t, p, Fork(c, rank, t)); }
    }
  }

  /** t or a type between t and the fork. */
  ghost predicate OnTheWay(c: Catalogue, rank: Rank, t: TypeName, x: TypeName)
    requires Acyclic(c, rank) && !ChainAbove(c, rank, t)
  {
    AncestorOrSelf(c, t, x) && rank(x) > rank(Fork(c, rank, t))
  }

  /** A field that no type on the way has comes from the fork. */
  lemma {:induction false} EffectiveOfFork(c: Catalogue, rank: Rank, data: Data, t: TypeName, k: Field)
    requires Acyclic(c, rank) && !ChainAbove(c, rank, t)
    requires forall x :: OnTheWay(c, rank, t, x) ==> k !in FieldsOf(data, x)
    ensures Lookup(Effective(c, rank, data, t), k) == Lookup(Effective(c, rank, data, Fork(c, rank, t)), k)
    decreases rank(t)
  {
    if |Extends(c, t)| <= 1 {
      var p := Extends(c, t)[0];
      assert rank(p) < rank(t);
      ForkIsBelow(c, rank, p);
      assert OnTheWay(c, rank, t, t);
      EffectiveOfParent(c, rank, data, t, k);
      ParentIsAncestor(c, t, p);
      forall x | OnTheWay(c, rank, p, x) ensures k !in FieldsOf(data, x) {
        if x != p { AncestorsCompose(c, t, p, x); }
        assert OnTheWay(c, rank, t, x);
      }
      EffectiveOfFork(c, rank, data, p, k);
    }
  }

  lemma {:induction false} ForkIsBelow(c: Catalogue, rank: Rank, t: TypeName)
    requires Acyclic(c, rank) && !ChainAbove(c, rank, t)
    ensures rank(Fork(c, rank, t)) <= rank(t)
    decreases rank(t)
  {
    if |Extends(c, t)| <= 1 {
      assert rank(Extends(c, t)[0]) < rank(t);
      ForkIsBelow(c, rank, Extends(c, t)[0]);
    }
  }

  // ---------- what getOverwrites returns and remembers ----------

  /** A type's own fields win in what is returned for it. */
  lemma OwnFieldWins(c: Catalogue, rank: Rank, data: Data, resolved: seq<TypeName>, t: TypeName, k: Field)
    requires Acyclic(c, rank) && k in FieldsOf(data, t)
    ensures var r := GetOverwritesOutcome(c, rank, data, resolved, t).result;
      r.Some? ==> k in r.value && r.value[k] == data[t][k]
    ensures GetOverwritesOutcome(c, rank, data, resolved, t).result == None
        ==> t !in resolved && !c.recognizes(t)
  {
  }

  lemma {:induction false} OnlyGrows(c: Catalogue, rank: Rank, data: Data, resolved: seq<TypeName>, t: TypeName)
    requires Acyclic(c, rank)
    ensures var after := GetOverwritesOutcome(c, rank, data, resolved, t).resolved;
      resolved <= after && (c.recognizes(t) ==> t in after)
    decreases rank(t), 1, 0
  {
    if t !in resolved && c.recognizes(t) && c.declared(t).Some? {
      assert Below(rank, Extends(c, t), rank(t));
      AllOnlyGrows(c, rank, data, map[], resolved, Extends(c, t), rank(t));
    }
  }

  /** Every recognised parent is remembered, and what the last one returns is assigned last. */
  lemma {:induction false} AllOnlyGrows(c: Catalogue, rank: Rank, data: Data, fields: Fields, resolved: seq<TypeName>,
                                        parents: seq<TypeName>, n: nat)
    requires Acyclic(c, rank) && Below(rank, parents, n)
    ensures var after := AssignAll(c, rank, data, fields, resolved, parents, n).resolved;
      resolved <= after && forall i :: 0 <= i < |parents| && c.recognizes(parents[i]) ==> parents[i] in after
    decreases n, 0, |parents|
  {
    if parents != [] {
      assert rank(parents[0]) < n;
      var first := GetOverwritesOutcome(c, rank, data, resolved, parents[0]);
      OnlyGrows(c, rank, data, resolved, parents[0]);
      AllOnlyGrows(c, rank, data, Assign(fields, first.result), first.resolved, parents[1..], n);
      var after := AssignAll(c, rank, data, fields, resolved, parents, n).resolved;
      forall i | 0 <= i < |parents| && c.recognizes(parents[i]) ensures parents[i] in after {
        if i > 0 { assert parents[1..][i - 1] == parents[i]; }
      }
    }
  }

  lemma {:induction false} LastParentWins(c: Catalogue, rank: Rank, data: Data, fields: Fields, resolved: seq<TypeName>,
                                          parents: seq<TypeName>, n: nat, k: Field)
    requires Acyclic(c, rank) && Below(rank, parents, n) && parents != []
    requires c.recognizes(parents[|parents| - 1]) && k in FieldsOf(data, parents[|parents| - 1])
    ensures Lookup(AssignAll(c, rank, data, fields, resolved, parents, n).result.value, k)
         == Some(data[parents[|parents| - 1]][k])
    decreases |parents|
  {
    assert rank(parents[0]) < n;
    var first := GetOverwritesOutcome(c, rank, data, resolved, parents[0]);
    var more := Assign(fields, first.result);
    if |parents| == 1 {
      OwnFieldWins(c, rank, data, resolved, parents[0], k);
      assert AssignAll(c, rank, data, more, first.resolved, parents[1..], n) == Memo(Some(more), first.resolved);
    } else {
      LastParentWins(c, rank, data, more, first.resolved, parents[1..], n, k);
    }
  }

  /** Types that are not visited keep their entries. */
  lemma {:induction false} UnvisitedKeep(c: Catalogue, rank: Rank, data: Data, resolved: seq<TypeName>,
                                         order: seq<TypeName>, x: TypeName)
    requires Acyclic(c, rank) && x !in order
    ensures Stored(VisitAll(c, rank, data, resolved, order), x) == Stored(data, x)
    decreases |order|
  {
    if order != [] {
      var memo := GetOverwritesOutcome(c, rank, data, resolved, order[0]);
      UnvisitedKeep(c, rank, Store(data, order[0], memo.result), memo.resolved, order[1..], x);
    }
  }

  lemma {:induction false} VisitsKeepOwnField(c: Catalogue, rank: Rank, data: Data, resolved: seq<TypeName>,
                                              order: seq<TypeName>, x: TypeName, k: Field)
    requires Acyclic(c, rank) && k in FieldsOf(data, x)
    ensures Lookup(FieldsOf(VisitAll(c, rank, data, resolved, order), x), k) == Some(data[x][k])
    decreases |order|
  {
    if order != [] {
      var memo := GetOverwritesOutcome(c, rank, data, resolved, order[0]);
      if order[0] == x { OwnFieldWins(c, rank, data, resolved, x, k); }
      VisitsKeepOwnField(c, rank, Store(data, order[0], memo.result), memo.resolved, order[1..], x, k);
    }
  }

  /** A type visited once it is resolved keeps its entry. */
  lemma ResolvedKeeps(c: Catalogue, rank: Rank, data: Data, resolved: seq<TypeName>, x: TypeName)
    requires Acyclic(c, rank) && x in resolved
    ensures GetOverwritesOutcome(c, rank, data, resolved, x).resolved == resolved
    ensures Store(data, x, GetOverwritesOutcome(c, rank, data, resolved, x).result) == data
  {
  }

  // ---------- a fork with a child elsewhere ----------

  const FIELD: Field := 0

  const UNRELATED: Field := 1

  function Own(id: nat): Fields { map[FIELD := Other(id)] }

  const PLAIN: Fields := map[UNRELATED := Other(0)]

  /** The first and the last parent both define the field; the fork and its other child only have an unrelated one. */
  function Clash(a: TypeName, u: TypeName, p: TypeName, q: TypeName): Data {
    map[a := PLAIN, u := PLAIN, p := Own(1), q := Own(2)]
  }

  /** A first visit to u resolves a; so it does when u extends a (ChildResolves). */
  ghost predicate Resolves(c: Catalogue, rank: Rank, u: TypeName, a: TypeName)
    requires Acyclic(c, rank)
  {
    rank(a) < rank(u) && forall data :: a in GetOverwritesOutcome(c, rank, data, [], u).resolved
  }

  /** A visit to u resolves the fork a, and p and q are the first and the last parent of a. */
  ghost predicate Setting(c: Catalogue, rank: Rank, a: TypeName, u: TypeName, p: TypeName, q: TypeName)
    requires Acyclic(c, rank)
  {
    && c.recognizes(a) && c.recognizes(q) && Resolves(c, rank, u, a)
    && |Extends(c, a)| > 1 && p == Extends(c, a)[0] && q == Extends(c, a)[|Extends(c, a)| - 1] && p != q
  }

  lemma SettingDistinct(c: Catalogue, rank: Rank, a: TypeName, u: TypeName, p: TypeName, q: TypeName)
    requires Acyclic(c, rank) && Setting(c, rank, a, u, p, q)
    ensures rank(p) < rank(a) && rank(q) < rank(a) && rank(a) < rank(u)
    ensures Lists([a, u, p, q], Clash(a, u, p, q)) && Lists([u, a, p, q], Clash(a, u, p, q))
  {
    assert rank(Extends(c, a)[0]) < rank(a) && rank(Extends(c, a)[|Extends(c, a)| - 1]) < rank(a);
  }

  /** Visited first, the fork stores the value of its last parent. */
  lemma ForkVisitedFirst(c: Catalogue, rank: Rank, raw: Data, order: seq<TypeName>, a: TypeName, q: TypeName, k: Field)
    requires Acyclic(c, rank) && c.recognizes(a) && c.recognizes(q)
    requires Extends(c, a) != [] && q == Extends(c, a)[|Extends(c, a)| - 1]
    requires order != [] && order[0] == a && a !in order[1..] && k !in FieldsOf(raw, a) && k in FieldsOf(raw, q)
    ensures Lookup(Given(c, rank, raw, order, a), k) == Some(raw[q][k])
  {
    assert Below(rank, Extends(c, a), rank(a));
    LastParentWins(c, rank, raw, map[], [], Extends(c, a), rank(a), k);
    var memo := GetOverwritesOutcome(c, rank, raw, [], a);
    var after := Store(raw, a, memo.result);
    assert Lookup(FieldsOf(after, a), k) == Some(raw[q][k]);
    UnvisitedKeep(c, rank, after, memo.resolved, order[1..], a);
    MergeFirstWins(SetPlainDataOutcome(c, rank, raw, order), Lineage(c, rank, a), 0, k);
  }

  /** Visited after its child, it has no value of its own, and `get` takes the one of the first parent. */
  lemma ChildVisitedFirst(c: Catalogue, rank: Rank, raw: Data, order: seq<TypeName>, a: TypeName, u: TypeName,
                          p: TypeName, k: Field)
    requires Acyclic(c, rank) && u != a && a in GetOverwritesOutcome(c, rank, raw, [], u).resolved
    requires Extends(c, a) != [] && p == Extends(c, a)[0] && k !in FieldsOf(raw, a) && k in FieldsOf(raw, p)
    requires |order| > 1 && order[0] == u && order[1] == a && a !in order[2..]
    ensures Lookup(Given(c, rank, raw, order, a), k) == Some(raw[p][k])
  {
    var memo := GetOverwritesOutcome(c, rank, raw, [], u);
    var after := Store(raw, u, memo.result);
    ResolvedKeeps(c, rank, after, memo.resolved, a);
    assert order[1..][0] == a && order[1..][1..] == order[2..];
    UnvisitedKeep(c, rank, after, memo.resolved, order[2..], a);
    var data := SetPlainDataOutcome(c, rank, raw, order);
    assert data == VisitAll(c, rank, after, memo.resolved, order[1..]);
    assert data == VisitAll(c, rank, after, memo.resolved, order[2..]);
    VisitsKeepOwnField(c, rank, raw, [], order, p, k);
    FirstParentWins(c, rank, data, a, k);
  }

  lemma ChildResolves(c: Catalogue, rank: Rank, u: TypeName, a: TypeName)
    requires Acyclic(c, rank) && c.recognizes(u) && c.recognizes(a) && a in Extends(c, u)
    ensures Resolves(c, rank, u, a)
  {
    var i :| 0 <= i < |Extends(c, u)| && Extends(c, u)[i] == a;
    assert rank(Extends(c, u)[i]) < rank(u) && Below(rank, Extends(c, u), rank(u));
    forall data ensures a in GetOverwritesOutcome(c, rank, data, [], u).resolved {
      AllOnlyGrows(c, rank, data, map[], [], Extends(c, u), rank(u));
    }
  }

  /** Only the four types can have the field, whatever the order. */
  lemma ClashStaysInside(c: Catalogue, rank: Rank, a: TypeName, u: TypeName, p: TypeName, q: TypeName,
                         order: seq<TypeName>, x: TypeName)
    requires Acyclic(c, rank) && Lists(order, Clash(a, u, p, q)) && x !in {a, u, p, q}
    ensures FieldsOf(SetPlainDataOutcome(c, rank, Clash(a, u, p, q), order), x) == map[]
  {
    UnvisitedKeep(c, rank, Clash(a, u, p, q), [], order, x);
  }

  lemma ClashGoesDown(c: Catalogue, rank: Rank, t: TypeName, u: TypeName, p: TypeName, q: TypeName,
                      order: seq<TypeName>)
    requires Acyclic(c, rank) && !ChainAbove(c, rank, t) && Setting(c, rank, Fork(c, rank, t), u, p, q)
    requires !AncestorOrSelf(c, t, u) && Lists(order, Clash(Fork(c, rank, t), u, p, q))
    ensures var raw := Clash(Fork(c, rank, t), u, p, q);
      Lookup(Given(c, rank, raw, order, t), FIELD) == Lookup(Given(c, rank, raw, order, Fork(c, rank, t)), FIELD)
  {
    var a := Fork(c, rank, t);
    var data := SetPlainDataOutcome(c, rank, Clash(a, u, p, q), order);
    SettingDistinct(c, rank, a, u, p, q);
    forall x | OnTheWay(c, rank, t, x) ensures FIELD !in FieldsOf(data, x) {
      ClashStaysInside(c, rank, a, u, p, q, order, x);
    }
    EffectiveOfFork(c, rank, data, t, FIELD);
  }

  /**
   In any catalogue: when the line of t forks and a visit to some type u outside of the line resolves the fork, the
   order in which u and the fork are visited decides what t gets.
   */
  lemma ChildOfForkDecides(c: Catalogue, rank: Rank, t: TypeName, u: TypeName, p: TypeName, q: TypeName)
    requires Acyclic(c, rank) && !ChainAbove(c, rank, t) && Setting(c, rank, Fork(c, rank, t), u, p, q)
    requires !AncestorOrSelf(c, t, u)
    ensures var a := Fork(c, rank, t);
      && Lists([a, u, p, q], Clash(a, u, p, q)) && Lists([u, a, p, q], Clash(a, u, p, q))
      && Lookup(Given(c, rank, Clash(a, u, p, q), [a, u, p, q], t), FIELD) == Some(Other(2))
      && Lookup(Given(c, rank, Clash(a, u, p, q), [u, a, p, q], t), FIELD) == Some(Other(1))
    ensures !OrderFreeIn(c, rank, t)
  {
    var a := Fork(c, rank, t);
    SettingDistinct(c, rank, a, u, p, q);
    LastParentInOrder(c, rank, t, u, p, q, [a, u, p, q]);
    FirstParentInOrder(c, rank, t, u, p, q, [u, a, p, q]);
    assert !SameGiven(c, rank, Clash(a, u, p, q), [a, u, p, q], [u, a, p, q], t);
  }

  lemma LastParentInOrder(c: Catalogue, rank: Rank, t: TypeName, u: TypeName, p: TypeName, q: TypeName,
                          order: seq<TypeName>)
    requires Acyclic(c, rank) && !ChainAbove(c, rank, t) && Setting(c, rank, Fork(c, rank, t), u, p, q)
    requires !AncestorOrSelf(c, t, u) && order == [Fork(c, rank, t), u, p, q]
    requires Lists(order, Clash(Fork(c, rank, t), u, p, q))
    ensures Lookup(Given(c, rank, Clash(Fork(c, rank, t), u, p, q), order, t), FIELD) == Some(Other(2))
  {
    var a := Fork(c, rank, t);
    SettingDistinct(c, rank, a, u, p, q);
    assert order[1..] == [u, p, q];
    ForkVisitedFirst(c, rank, Clash(a, u, p, q), order, a, q, FIELD);
    ClashGoesDown(c, rank, t, u, p, q, order);
  }

  lemma FirstParentInOrder(c: Catalogue, rank: Rank, t: TypeName, u: TypeName, p: TypeName, q: TypeName,
                           order: seq<TypeName>)
    requires Acyclic(c, rank) && !ChainAbove(c, rank, t) && Setting(c, rank, Fork(c, rank, t), u, p, q)
    requires !AncestorOrSelf(c, t, u) && order == [u, Fork(c, rank, t), p, q]
    requires Lists(order, Clash(Fork(c, rank, t), u, p, q))
    ensures Lookup(Given(c, rank, Clash(Fork(c, rank, t), u, p, q), order, t), FIELD) == Some(Other(1))
  {
    var a := Fork(c, rank, t);
    SettingDistinct(c, rank, a, u, p, q);
    assert order[2..] == [p, q];
    ChildVisitedFirst(c, rank, Clash(a, u, p, q), order, a, u, p, FIELD);
    ClashGoesDown(c, rank, t, u, p, q, order);
  }

  // ---------- the exact condition ----------

  function Above(types: seq<TypeName>): (above: TypeName)
    ensures forall i :: 0 <= i < |types| ==> types[i] < above
  {
    if types == [] then 0 else
      var rest := Above(types[1..]);
      assert forall i :: 1 <= i < |types| ==> types[i] == types[1..][i - 1];
      if types[0] < rest then rest else types[0] + 1
  }

  /** The types of `line`, and a new type u that extends a. */
  function WithChild(c: Catalogue, line: seq<TypeName>, u: TypeName, a: TypeName): Catalogue {
    Catalogue(x => x == u || (x in line && c.recognizes(x)),
              x => if x == u then Some([a]) else if x in line then c.declared(x) else None)
  }

  function RankWithChild(rank: Rank, u: TypeName, a: TypeName): Rank {
    x => if x == u then rank(a) + 1 else rank(x)
  }

  lemma LineIsClosed(c: Catalogue, rank: Rank, t: TypeName, x: TypeName, p: TypeName)
    requires Acyclic(c, rank) && x in Lineage(c, rank, t) && p in Extends(c, x)
    ensures p in Lineage(c, rank, t)
  {
    ParentIsAncestor(c, x, p);
    if x != t {
      ParentTypesExact(c, rank, t, x);
      AncestorsCompose(c, t, x, p);
    }
    ParentTypesExact(c, rank, t, p);
  }

  lemma LineIsExact(c: Catalogue, rank: Rank, t: TypeName, a: TypeName)
    requires Acyclic(c, rank)
    ensures a in Lineage(c, rank, t) <==> AncestorOrSelf(c, t, a)
  {
    ParentTypesExact(c, rank, t, a);
  }

  lemma WithChildFits(c: Catalogue, rank: Rank, t: TypeName, u: TypeName, a: TypeName)
    requires Acyclic(c, rank) && u !in Lineage(c, rank, t) && a in Lineage(c, rank, t)
    ensures var d := WithChild(c, Lineage(c, rank, t), u, a);
      Acyclic(d, RankWithChild(rank, u, a)) && SameAbove(c, d, t) && Extends(d, u) == [a] && d.recognizes(u)
  {
    var line := Lineage(c, rank, t);
    var d, other := WithChild(c, line, u, a), RankWithChild(rank, u, a);
    forall x, i | 0 <= i < |Extends(d, x)| ensures other(Extends(d, x)[i]) < other(x) {
      if x == u {
        assert Extends(d, u)[i] == a;
      } else {
        assert Extends(d, x) == Extends(c, x);
        LineIsClosed(c, rank, t, x, Extends(c, x)[i]);
        assert rank(Extends(c, x)[i]) < rank(x);
      }
    }
    forall x | AncestorOrSelf(c, t, x) ensures SameAt(c, d, x) {
      LineIsExact(c, rank, t, x);
    }
  }

  lemma {:induction false} SameClimbs(c: Catalogue, d: Catalogue, t: TypeName, path: seq<TypeName>, a: TypeName)
    requires SameAbove(c, d, t) && Climbs(d, t, path, a)
    ensures Climbs(c, t, path, a)
    decreases |path|
  {
    assert AncestorOrSelf(c, t, t) && SameAt(c, d, t);
    if path != [] {
      ParentsAreSame(c, d, t, path[0]);
      SameClimbs(c, d, path[0], path[1..], a);
    }
  }

  /** Every type from t upwards is recognised and lists no parent twice. */
  ghost predicate WellDeclared(c: Catalogue, t: TypeName) {
    forall a :: AncestorOrSelf(c, t, a) ==>
      c.recognizes(a) && forall i, j :: 0 <= i < j < |Extends(c, a)| ==> Extends(c, a)[i] != Extends(c, a)[j]
  }

  lemma ForkIsNotOrderFree(c: Catalogue, rank: Rank, t: TypeName)
    requires Acyclic(c, rank) && WellDeclared(c, t) && !ChainAbove(c, rank, t)
    ensures !OrderFree(c, t)
  {
    var a, line := Fork(c, rank, t), Lineage(c, rank, t);
    var u := Above(line);
    assert u !in line;
    ForkIsAncestor(c, rank, t);
    LineIsExact(c, rank, t, a);
    WithChildFits(c, rank, t, u, a);
    var d, other := WithChild(c, line, u, a), RankWithChild(rank, u, a);
    SameChain(c, rank, d, other, t);
    var p, q := Extends(c, a)[0], Extends(c, a)[|Extends(c, a)| - 1];
    LineIsClosed(c, rank, t, a, q);
    LineIsExact(c, rank, t, q);
    assert SameAt(c, d, a) && SameAt(c, d, q);
    ChildResolves(d, other, u, a);
    assert Setting(d, other, a, u, p, q);
    if AncestorOrSelf(d, t, u) {
      var path :| Climbs(d, t, path, u);
      SameClimbs(c, d, t, path, u);
      assert Climbs(c, t, path, u) && (path != [] || t == u);
      LineIsExact(c, rank, t, u);
    }
    ChildOfForkDecides(d, other, t, u, p, q);
  }

  /**
   The order of the visits never matters for t, whatever other types there are, exactly when no type from t upwards has
   more than one parent.
   */
  lemma OrderFreeExactly(c: Catalogue, rank: Rank, t: TypeName)
    requires Acyclic(c, rank) && WellDeclared(c, t)
    ensures OrderFree(c, t) <==> forall a :: AncestorOrSelf(c, t, a) ==> |Extends(c, a)| <= 1
  {
    ChainAboveExact(c, rank, t);
    if ChainAbove(c, rank, t) {
      forall d: Catalogue, other: Rank | Acyclic(d, other) && SameAbove(c, d, t) ensures OrderFreeIn(d, other, t) {
        SameChain(c, rank, d, other, t);
        ChainIsOrderFree(d, other, t);
      }
    } else {
      ForkIsNotOrderFree(c, rank, t);
    }
  }

  // ---------- in one catalogue ----------

  /** With a type its recognised parents are resolved. */
  ghost predicate ClosedUp(c: Catalogue, resolved: seq<TypeName>) {
    forall x, p :: x in resolved && p in Extends(c, x) && c.recognizes(p) ==> p in resolved
  }

  lemma {:induction false} StaysClosed(c: Catalogue, rank: Rank, data: Data, resolved: seq<TypeName>, t: TypeName)
    requires Acyclic(c, rank) && ClosedUp(c, resolved)
    ensures ClosedUp(c, GetOverwritesOutcome(c, rank, data, resolved, t).resolved)
    decreases rank(t), 1, 0
  {
    if t !in resolved && c.recognizes(t) {
      assert Below(rank, Extends(c, t), rank(t));
      AllStayClosed(c, rank, data, map[], resolved, Extends(c, t), rank(t));
      AllOnlyGrows(c, rank, data, map[], resolved, Extends(c, t), rank(t));
      var above := AssignAll(c, rank, data, map[], resolved, Extends(c, t), rank(t)).resolved;
      forall p | p in Extends(c, t) && c.recognizes(p) ensures p in above {
        var i :| 0 <= i < |Extends(c, t)| && Extends(c, t)[i] == p;
      }
    }
  }

  lemma {:induction false} AllStayClosed(c: Catalogue, rank: Rank, data: Data, fields: Fields, resolved: seq<TypeName>,
                                         parents: seq<TypeName>, n: nat)
    requires Acyclic(c, rank) && Below(rank, parents, n) && ClosedUp(c, resolved)
    ensures ClosedUp(c, AssignAll(c, rank, data, fields, resolved, parents, n).resolved)
    decreases n, 0, |parents|
  {
    if parents != [] {
      assert rank(parents[0]) < n;
      var first := GetOverwritesOutcome(c, rank, data, resolved, parents[0]);
      StaysClosed(c, rank, data, resolved, parents[0]);
      AllStayClosed(c, rank, data, Assign(fields, first.result), first.resolved, parents[1..], n);
    }
  }

  lemma {:induction false} ClosedHoldsFork(c: Catalogue, rank: Rank, resolved: seq<TypeName>, t: TypeName)
    requires Acyclic(c, rank) && WellDeclared(c, t) && !ChainAbove(c, rank, t) && ClosedUp(c, resolved) && t in resolved
    ensures Fork(c, rank, t) in resolved
    decreases rank(t)
  {
    if |Extends(c, t)| <= 1 {
      var p := Extends(c, t)[0];
      assert rank(p) < rank(t);
      WellDeclaredAbove(c, t, p);
      ClosedHoldsFork(c, rank, resolved, p);
    }
  }

  lemma WellDeclaredAbove(c: Catalogue, t: TypeName, p: TypeName)
    requires WellDeclared(c, t) && p in Extends(c, t)
    ensures WellDeclared(c, p) && c.recognizes(p)
  {
    ParentIsAncestor(c, t, p);
    assert AncestorOrSelf(c, t, p);
    forall a | AncestorOrSelf(c, p, a) ensures AncestorOrSelf(c, t, a) {
      if a != p { AncestorsCompose(c, t, p, a); }
    }
  }

  /** A visit to a child of t resolves the fork of t. */
  lemma ChildResolvesFork(c: Catalogue, rank: Rank, u: TypeName, t: TypeName)
    requires Acyclic(c, rank) && WellDeclared(c, t) && !ChainAbove(c, rank, t) && c.recognizes(u) && t in Extends(c, u)
    ensures Resolves(c, rank, u, Fork(c, rank, t))
  {
    assert AncestorOrSelf(c, t, t) && c.recognizes(t);
    ChildResolves(c, rank, u, t);
    ForkIsBelow(c, rank, t);
    forall data ensures Fork(c, rank, t) in GetOverwritesOutcome(c, rank, data, [], u).resolved {
      StaysClosed(c, rank, data, [], u);
      ClosedHoldsFork(c, rank, GetOverwritesOutcome(c, rank, data, [], u).resolved, t);
    }
  }

  lemma ChildIsElsewhere(c: Catalogue, rank: Rank, u: TypeName, t: TypeName)
    requires Acyclic(c, rank) && t in Extends(c, u)
    ensures !AncestorOrSelf(c, t, u)
  {
    var i :| 0 <= i < |Extends(c, u)| && Extends(c, u)[i] == t;
    assert rank(Extends(c, u)[i]) < rank(u);
    if path :| path != [] && Climbs(c, t, path, u) { ClimbsLowersRank(c, rank, t, path, u); }
  }

  lemma ForkIsDeclared(c: Catalogue, rank: Rank, t: TypeName)
    requires Acyclic(c, rank) && WellDeclared(c, t) && !ChainAbove(c, rank, t)
    ensures var parents := Extends(c, Fork(c, rank, t));
      && c.recognizes(Fork(c, rank, t)) && c.recognizes(parents[|parents| - 1])
      && parents[0] != parents[|parents| - 1]
  {
    var a := Fork(c, rank, t);
    var q := Extends(c, a)[|Extends(c, a)| - 1];
    ForkIsAncestor(c, rank, t);
    ParentIsAncestor(c, a, q);
    if a != t { AncestorsCompose(c, t, a, q); }
    assert AncestorOrSelf(c, t, q);
  }

  /** In its own catalogue, for every type that another one extends, the order matters under the same condition. */
  lemma ExtendedOrderFreeExactly(c: Catalogue, rank: Rank, t: TypeName, u: TypeName)
    requires Acyclic(c, rank) && WellDeclared(c, t) && c.recognizes(u) && t in Extends(c, u)
    ensures OrderFreeIn(c, rank, t) <==> forall a :: AncestorOrSelf(c, t, a) ==> |Extends(c, a)| <= 1
  {
    ChainAboveExact(c, rank, t);
    if ChainAbove(c, rank, t) {
      ChainIsOrderFree(c, rank, t);
    } else {
      var a := Fork(c, rank, t);
      ChildResolvesFork(c, rank, u, t);
      ChildIsElsewhere(c, rank, u, t);
      ForkIsDeclared(c, rank, t);
      ChildOfForkDecides(c, rank, t, u, Extends(c, a)[0], Extends(c, a)[|Extends(c, a)| - 1]);
    }
  }

  // ---------- a fork that nothing else touches ----------

  /** What is merged from parents that declare nothing themselves. */
  function MergeLeaves(data: Data, fields: Fields, parents: seq<TypeName>): Fields
    decreases |parents|
  {
    if parents == [] then fields else MergeLeaves(data, fields + FieldsOf(data, parents[0]), parents[1..])
  }

  ghost predicate OnlyDeclares(c: Catalogue, t: TypeName) {
    forall x :: x != t ==> c.declared(x) == None
  }

  lemma {:induction false} LeavesMerged(c: Catalogue, rank: Rank, data: Data, fields: Fields, resolved: seq<TypeName>,
                                        parents: seq<TypeName>, n: nat)
    requires Acyclic(c, rank) && Below(rank, parents, n)
    requires forall i :: 0 <= i < |parents| ==> c.recognizes(parents[i]) && c.declared(parents[i]) == None
    ensures AssignAll(c, rank, data, fields, resolved, parents, n).result == Some(MergeLeaves(data, fields, parents))
    decreases |parents|
  {
    if parents != [] {
      assert rank(parents[0]) < n;
      var first := GetOverwritesOutcome(c, rank, data, resolved, parents[0]);
      assert first.result == Stored(data, parents[0]);
      assert Assign(fields, first.result) == fields + FieldsOf(data, parents[0]);
      LeavesMerged(c, rank, data, fields + FieldsOf(data, parents[0]), first.resolved, parents[1..], n);
    }
  }

  lemma {:induction false} OneVisitCounts(c: Catalogue, rank: Rank, data: Data, resolved: seq<TypeName>,
                                          order: seq<TypeName>, t: TypeName)
    requires Acyclic(c, rank) && WellDeclared(c, t) && OnlyDeclares(c, t) && c.declared(t).Some? && t !in resolved
    requires forall i, j :: 0 <= i < j < |order| ==> order[i] != order[j]
    ensures VisitAll(c, rank, data, resolved, order)
         == if t !in order then data
            else Store(data, t, Some(MergeLeaves(data, map[], Extends(c, t)) + FieldsOf(data, t)))
    decreases |order|
  {
    if order != [] {
      var memo := GetOverwritesOutcome(c, rank, data, resolved, order[0]);
      if order[0] == t {
        ParentsAreLeaves(c, rank, t);
        LeavesMerged(c, rank, data, map[], resolved, Extends(c, t), rank(t));
        VisitsOfLeaves(c, rank, Store(data, t, memo.result), memo.resolved, order[1..]);
      } else {
        assert Store(data, order[0], memo.result) == data;
        OneVisitCounts(c, rank, data, memo.resolved, order[1..], t);
      }
    }
  }

  lemma ParentsAreLeaves(c: Catalogue, rank: Rank, t: TypeName)
    requires Acyclic(c, rank) && WellDeclared(c, t) && OnlyDeclares(c, t)
    ensures c.recognizes(t) && Below(rank, Extends(c, t), rank(t))
    ensures forall i :: 0 <= i < |Extends(c, t)| ==>
      c.recognizes(Extends(c, t)[i]) && c.declared(Extends(c, t)[i]) == None
  {
    assert AncestorOrSelf(c, t, t);
    forall i | 0 <= i < |Extends(c, t)|
      ensures c.recognizes(Extends(c, t)[i]) && c.declared(Extends(c, t)[i]) == None
    {
      assert rank(Extends(c, t)[i]) < rank(t);
      WellDeclaredAbove(c, t, Extends(c, t)[i]);
    }
  }

  /** Where t alone extends anything, the order does not matter for t, however many parents it has. */
  lemma LoneForkIsOrderFree(c: Catalogue, rank: Rank, t: TypeName)
    requires Acyclic(c, rank) && WellDeclared(c, t) && OnlyDeclares(c, t) && c.declared(t).Some?
    ensures OrderFreeIn(c, rank, t)
  {
    forall raw, one, other | Lists(one, raw) && Lists(other, raw) ensures SameGiven(c, rank, raw, one, other, t) {
      OneVisitCounts(c, rank, raw, [], one, t);
      OneVisitCounts(c, rank, raw, [], other, t);
    }
  }

  // ---------- a parent shared with another type ----------

  lemma OneParent(c: Catalogue, rank: Rank, data: Data, resolved: seq<TypeName>, t: TypeName, p: TypeName)
    requires Acyclic(c, rank) && c.recognizes(t) && c.declared(t) == Some([p]) && t !in resolved
    ensures var first := GetOverwritesOutcome(c, rank, data, resolved, p);
      GetOverwritesOutcome(c, rank, data, resolved, t)
      == Memo(Some(Assign(map[], first.result) + FieldsOf(data, t)), first.resolved + [t])
  {
    var parents: seq<TypeName> := [p];
    assert Extends(c, t) == parents && rank(Extends(c, t)[0]) < rank(t) && parents[1..] == [];
    var first := GetOverwritesOutcome(c, rank, data, resolved, p);
    assert AssignAll(c, rank, data, Assign(map[], first.result), first.resolved, parents[1..], rank(t))
        == Memo(Some(Assign(map[], first.result)), first.resolved);
  }

  lemma TwoOfThem(c: Catalogue, rank: Rank, data: Data, resolved: seq<TypeName>, t: TypeName, p: TypeName, q: TypeName)
    requires Acyclic(c, rank) && c.recognizes(t) && c.declared(t) == Some([p, q]) && t !in resolved
    ensures var first := GetOverwritesOutcome(c, rank, data, resolved, p);
      var second := GetOverwritesOutcome(c, rank, data, first.resolved, q);
      GetOverwritesOutcome(c, rank, data, resolved, t)
      == Memo(Some(Assign(Assign(map[], first.result), second.result) + FieldsOf(data, t)), second.resolved + [t])
  {
    var parents: seq<TypeName> := [p, q];
    var n := rank(t);
    assert Extends(c, t) == parents && rank(Extends(c, t)[0]) < n && rank(Extends(c, t)[1]) < n;
    assert parents[1..] == [q] && parents[1..][1..] == [];
    var first := GetOverwritesOutcome(c, rank, data, resolved, p);
    var fields := Assign(map[], first.result);
    var second := GetOverwritesOutcome(c, rank, data, first.resolved, q);
    assert AssignAll(c, rank, data, Assign(fields, second.result), second.resolved, parents[1..][1..], n)
        == Memo(Some(Assign(fields, second.result)), second.resolved);
    assert AssignAll(c, rank, data, fields, first.resolved, parents[1..], n)
        == Memo(Some(Assign(fields, second.result)), second.resolved);
  }

  /** t extends p and q, q extends x, u extends q; the field is defined for p and for x only. */
  ghost predicate SharedParent(c: Catalogue, data: Data, t: TypeName, p: TypeName, q: TypeName, x: TypeName,
                               u: TypeName, k: Field)
  {
    && (forall v :: v in [t, p, q, x, u] ==> c.recognizes(v))
    && c.declared(t) == Some([p, q]) && c.declared(u) == Some([q]) && c.declared(q) == Some([x])
    && c.declared(p) == None && c.declared(x) == None
    && q !in data && k in FieldsOf(data, p) && k in FieldsOf(data, x) && k !in FieldsOf(data, t)
    && p != x && p != t && q != t && x != t && u != t && u != p && u != q && u != x
  }

  /** Visited first, t gets the field from x, through q. */
  lemma ReachesThroughParent(c: Catalogue, rank: Rank, data: Data, order: seq<TypeName>, t: TypeName, p: TypeName,
                             q: TypeName, x: TypeName, u: TypeName, k: Field)
    requires Acyclic(c, rank) && SharedParent(c, data, t, p, q, x, u, k)
    requires order != [] && order[0] == t && t !in order[1..]
    ensures Lookup(Given(c, rank, data, order, t), k) == Some(data[x][k])
  {
    assert q in [t, p, q, x, u];
    assert GetOverwritesOutcome(c, rank, data, [], p) == Memo(Some(data[p]), [p]);
    OneParent(c, rank, data, [p], q, x);
    TwoOfThem(c, rank, data, [], t, p, q);
    var memo := GetOverwritesOutcome(c, rank, data, [], t);
    var after := Store(data, t, memo.result);
    assert Lookup(FieldsOf(after, t), k) == Some(data[x][k]);
    UnvisitedKeep(c, rank, after, memo.resolved, order[1..], t);
    MergeFirstWins(SetPlainDataOutcome(c, rank, data, order), Lineage(c, rank, t), 0, k);
  }

  /** A visit to u leaves q resolved, without an entry of its own. */
  lemma ChildVisit(c: Catalogue, rank: Rank, data: Data, t: TypeName, p: TypeName, q: TypeName, x: TypeName,
                   u: TypeName, k: Field)
    requires Acyclic(c, rank) && SharedParent(c, data, t, p, q, x, u, k)
    ensures GetOverwritesOutcome(c, rank, data, [], u).resolved == [x, q, u]
  {
    assert q in [t, p, q, x, u] && x in [t, p, q, x, u];
    OneParent(c, rank, data, [], q, x);
    OneParent(c, rank, data, [], u, q);
  }

  /** t, visited once q is resolved, gets nothing from q and keeps the value of p. */
  lemma SkipsResolvedParent(c: Catalogue, rank: Rank, data: Data, resolved: seq<TypeName>, t: TypeName, p: TypeName,
                            q: TypeName, x: TypeName, u: TypeName, k: Field)
    requires Acyclic(c, rank) && SharedParent(c, data, t, p, q, x, u, k)
    requires q in resolved && p !in resolved && t !in resolved
    ensures var result := GetOverwritesOutcome(c, rank, data, resolved, t).result;
      result.Some? && Lookup(result.value, k) == Some(data[p][k])
  {
    assert p in [t, p, q, x, u];
    assert GetOverwritesOutcome(c, rank, data, resolved, p) == Memo(Some(data[p]), resolved + [p]);
    TwoOfThem(c, rank, data, resolved, t, p, q);
  }

  lemma LosesSharedParent(c: Catalogue, rank: Rank, data: Data, order: seq<TypeName>, t: TypeName, p: TypeName,
                          q: TypeName, x: TypeName, u: TypeName, k: Field)
    requires Acyclic(c, rank) && SharedParent(c, data, t, p, q, x, u, k)
    requires |order| > 1 && order[0] == u && order[1] == t && t !in order[2..]
    ensures Lookup(Given(c, rank, data, order, t), k) == Some(data[p][k])
  {
    ChildVisit(c, rank, data, t, p, q, x, u, k);
    var first := GetOverwritesOutcome(c, rank, data, [], u);
    var after := Store(data, u, first.result);
    SkipsResolvedParent(c, rank, after, first.resolved, t, p, q, x, u, k);
    var second := GetOverwritesOutcome(c, rank, after, first.resolved, t);
    var last := Store(after, t, second.result);
    assert Lookup(FieldsOf(last, t), k) == Some(data[p][k]);
    assert order[1..][0] == t && order[1..][1..] == order[2..];
    UnvisitedKeep(c, rank, last, second.resolved, order[2..], t);
    var given := SetPlainDataOutcome(c, rank, data, order);
    assert given == VisitAll(c, rank, after, first.resolved, order[1..]);
    assert given == VisitAll(c, rank, last, second.resolved, order[2..]);
    MergeFirstWins(given, Lineage(c, rank, t), 0, k);
  }

  /** Type 0 extends 3 and 4, type 5 extends 4, and type 4 extends 6. */
  function Shared(): Catalogue {
    Catalogue(_ => true,
              t => if t == 0 then Some([3, 4]) else if t == 5 then Some([4]) else if t == 4 then Some([6]) else None)
  }

  function SharedRank(): Rank { t => if t == 0 || t == 5 then 2 else if t == 4 then 1 else 0 }

  /** Types 3 and 6 define field 7; types 0 and 5 have an unrelated field. */
  predicate SharedData(raw: Data) {
    raw == map[0 := map[8 := Other(0)], 3 := map[7 := Other(1)], 5 := map[8 := Other(0)], 6 := map[7 := Other(2)]]
  }

  lemma SharedFits(raw: Data)
    requires SharedData(raw)
    ensures Acyclic(Shared(), SharedRank()) && SharedParent(Shared(), raw, 0, 3, 4, 6, 5, 7)
  {
  }

  lemma SharedOrders(raw: Data)
    requires SharedData(raw)
    ensures Lists([0, 3, 5, 6], raw) && Lists([5, 0, 3, 6], raw)
  {
  }

  /** The same data, visited in another order, gives t the value of x instead of that of p. */
  lemma SharedParentDecides(c: Catalogue, rank: Rank, raw: Data, one: seq<TypeName>, other: seq<TypeName>, t: TypeName,
                            p: TypeName, q: TypeName, x: TypeName, u: TypeName, k: Field)
    requires Acyclic(c, rank) && SharedParent(c, raw, t, p, q, x, u, k) && raw[x][k] != raw[p][k]
    requires Lists(one, raw) && Lists(other, raw)
    requires |one| > 1 && one[0] == t && |other| > 1 && other[0] == u && other[1] == t
    ensures Lookup(Given(c, rank, raw, one, t), k) == Some(raw[x][k])
    ensures Lookup(Given(c, rank, raw, other, t), k) == Some(raw[p][k])
    ensures !SameGiven(c, rank, raw, one, other, t)
  {
    ReachesThroughParent(c, rank, raw, one, t, p, q, x, u, k);
    LosesSharedParent(c, rank, raw, other, t, p, q, x, u, k);
  }

  /** A concrete hierarchy of this kind, with the values 2 and 1. */
  lemma VisitOrderDecides(raw: Data, one: seq<TypeName>, other: seq<TypeName>)
    requires SharedData(raw) && one == [0, 3, 5, 6] && other == [5, 0, 3, 6]
    ensures Acyclic(Shared(), SharedRank()) && Lists(one, raw) && Lists(other, raw)
    ensures Lookup(Given(Shared(), SharedRank(), raw, one, 0), 7) == Some(Other(2))
    ensures Lookup(Given(Shared(), SharedRank(), raw, other, 0), 7) == Some(Other(1))
  {
    SharedFits(raw);
    SharedOrders(raw);
    SharedParentDecides(Shared(), SharedRank(), raw, one, other, 0, 3, 4, 6, 5, 7);
  }
}
