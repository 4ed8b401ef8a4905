/**
 The hierarchy of credential types (credential-types.ts): getParentTypes, which appends to the list it iterates over.
 Type names are numbers here; only their identity matters.
 */
module CredentialTypes {
  import opened Wrappers
  import Ranking

  type TypeName = nat

  /** Which types are recognised, and what each one extends; `None` when it declares nothing. */
  datatype Catalogue = Catalogue(recognizes: TypeName -> bool, declared: TypeName -> Option<seq<TypeName>>)

  function Extends(c: Catalogue, t: TypeName): seq<TypeName> {
    match c.declared(t) case Some(parents) => parents case None => []
  }

  type Rank = TypeName -> nat

  /** No type is its own ancestor: a parent has a lower rank. A type may have several parents. */
  ghost predicate Acyclic(c: Catalogue, rank: Rank) {
    forall t, i :: 0 <= i < |Extends(c, t)| ==> rank(Extends(c, t)[i]) < rank(t)
  }

  ghost predicate Below(rank: Rank, types: seq<TypeName>, n: nat) {
    forall i :: 0 <= i < |types| ==> rank(types[i]) < n
  }

  // ---------- what the growing list holds in the end ----------

  /** The list for a type: its parents, then the lists of those, then the lists of what these lists hold, and so on. */
  ghost function Parents(c: Catalogue, rank: Rank, t: TypeName): (types: seq<TypeName>)
    requires Acyclic(c, rank)
    ensures Below(rank, types, rank(t))
    decreases rank(t), 2, 0
  {
    Levels(c, rank, Extends(c, t), rank(t))
  }

  ghost function Levels(c: Catalogue, rank: Rank, level: seq<TypeName>, n: nat): (types: seq<TypeName>)
    requires Acyclic(c, rank) && Below(rank, level, n)
    ensures Below(rank, types, n)
    decreases n, 1, 0
  {
    if level == [] then [] else
      assert rank(level[0]) < n;
      level + Levels(c, rank, ParentsOfAll(c, rank, level, n), n - 1)
  }

  ghost function ParentsOfAll(c: Catalogue, rank: Rank, types: seq<TypeName>, n: nat): (all: seq<TypeName>)
    requires Acyclic(c, rank) && Below(rank, types, n)
    ensures types != [] ==> n > 0 && Below(rank, all, n - 1)
    ensures types == [] ==> all == []
    decreases n, 0, |types|
  {
    if types == [] then [] else
      assert rank(types[0]) < n;
      Parents(c, rank, types[0]) + ParentsOfAll(c, rank, types[1..], n)
  }

  lemma {:induction false} ParentsOfAllConcat(c: Catalogue, rank: Rank, a: seq<TypeName>, b: seq<TypeName>, n: nat)
    requires Acyclic(c, rank) && Below(rank, a, n) && Below(rank, b, n) && Below(rank, a + b, n)
    ensures ParentsOfAll(c, rank, a + b, n) == ParentsOfAll(c, rank, a, n) + ParentsOfAll(c, rank, b, n)
    decreases |a|
  {
    if a == [] {
      assert a + b == b;
    } else {
      assert (a + b)[1..] == a[1..] + b;
      ParentsOfAllConcat(c, rank, a[1..], b, n);
    }
  }

  lemma ParentsOfOneMore(c: Catalogue, rank: Rank, types: seq<TypeName>, lo: nat, i: nat, n: nat)
    requires Acyclic(c, rank) && lo <= i < |types| && Below(rank, types[lo..i + 1], n)
    ensures Below(rank, types[lo..i], n)
    ensures ParentsOfAll(c, rank, types[lo..i + 1], n)
         == ParentsOfAll(c, rank, types[lo..i], n) + Parents(c, rank, types[i])
  {
    forall j | 0 <= j < i - lo ensures rank(types[lo..i][j]) < n {
      assert types[lo..i][j] == types[lo..i + 1][j];
    }
    assert types[lo..i + 1] == types[lo..i] + [types[i]];
    assert types[lo..i + 1][i - lo] == types[i];
    ParentsOfAllConcat(c, rank, types[lo..i], [types[i]], n);
    var none: seq<TypeName> := [types[i]][1..];
    assert none == [];
  }

  /**
   The loop stands at element i. The elements from lo to hi are one level, those after hi the lists of the part of
   this level that is done, and n bounds the ranks of the level.
   */
  ghost predicate Progress(c: Catalogue, rank: Rank, t: TypeName, types: seq<TypeName>, lo: nat, i: nat, hi: nat,
                           n: nat)
    requires Acyclic(c, rank)
  {
    && lo <= i <= hi <= |types| && lo < hi && n <= rank(t)
    && Below(rank, types[lo..hi], n) && Below(rank, types[lo..i], n)
    && types[..lo] + Levels(c, rank, types[lo..hi], n) == Parents(c, rank, t)
    && types[hi..] == ParentsOfAll(c, rank, types[lo..i], n)
  }

  lemma ProgressStart(c: Catalogue, rank: Rank, t: TypeName)
    requires Acyclic(c, rank) && Extends(c, t) != []
    ensures Progress(c, rank, t, Extends(c, t), 0, 0, |Extends(c, t)|, rank(t))
  {
    var types := Extends(c, t);
    assert types[0..|types|] == types;
    assert types[..0] + Levels(c, rank, types, rank(t)) == Parents(c, rank, t);
    assert types[|types|..] == ParentsOfAll(c, rank, types[0..0], rank(t));
  }

  /** A level is used up and the next one begins, with lower ranks. */
  lemma ProgressToNextLevel(c: Catalogue, rank: Rank, t: TypeName, types: seq<TypeName>, lo: nat, hi: nat, n: nat)
    requires Acyclic(c, rank) && Progress(c, rank, t, types, lo, hi, hi, n) && hi < |types|
    ensures n > 0 && Progress(c, rank, t, types, hi, hi, |types|, n - 1)
  {
    assert types[lo..hi] != [];
    assert types[hi..|types|] == types[hi..];
    assert types[..lo] + types[lo..hi] == types[..hi];
    var rest := Levels(c, rank, types[hi..], n - 1);
    assert types[..lo] + (types[lo..hi] + rest) == types[..hi] + rest;
    assert types[|types|..] == [] && types[hi..hi] == [];
  }

  /** The list of element i is appended. */
  lemma ProgressByOne(c: Catalogue, rank: Rank, t: TypeName, types: seq<TypeName>, lo: nat, i: nat, hi: nat, n: nat)
    requires Acyclic(c, rank) && Progress(c, rank, t, types, lo, i, hi, n) && i < hi
    ensures rank(types[i]) < rank(t)
    ensures Progress(c, rank, t, types + Parents(c, rank, types[i]), lo, i + 1, hi, n)
  {
    assert types[lo..hi][i - lo] == types[i];
    var after := types + Parents(c, rank, types[i]);
    assert after[lo..hi] == types[lo..hi] && after[..lo] == types[..lo] && after[lo..i] == types[lo..i];
    assert after[hi..] == types[hi..] + Parents(c, rank, types[i]);
    forall j {:trigger after[lo..i + 1][j]} | 0 <= j < i + 1 - lo ensures rank(after[lo..i + 1][j]) < n {
      assert after[lo..i + 1][j] == types[lo..hi][j];
    }
    ParentsOfOneMore(c, rank, after, lo, i, n);
  }

  lemma ProgressEnd(c: Catalogue, rank: Rank, t: TypeName, types: seq<TypeName>, lo: nat, hi: nat, n: nat)
    requires Acyclic(c, rank) && Progress(c, rank, t, types, lo, hi, hi, n) && hi == |types|
    ensures types == Parents(c, rank, t)
  {
    var level := types[lo..hi];
    assert level != [] && types[hi..] == [];
    assert Levels(c, rank, level, n) == level + Levels(c, rank, [], n - 1) == level;
    assert types[..lo] + level == types;
  }

  method GetParentTypes(c: Catalogue, ghost rank: Rank, typeName: TypeName) returns (types: seq<TypeName>)
    requires Acyclic(c, rank)
    ensures types == Parents(c, rank, typeName)
    decreases rank(typeName)
  {
    types := Extends(c, typeName);
    if |types| == 0 { return; }
    ghost var n: nat, lo: nat, hi: nat := rank(typeName), 0, |types|;
    ProgressStart(c, rank, typeName);
    var i := 0;
    while i < |types|
      invariant Progress(c, rank, typeName, types, lo, i, hi, n)
      decreases n, hi - i
    {
      if i == hi {
        ProgressToNextLevel(c, rank, typeName, types, lo, hi, n);
        n, lo, hi := n - 1, hi, |types|;
      }
      ProgressByOne(c, rank, typeName, types, lo, i, hi, n);
      var more := GetParentTypes(c, rank, types[i]);
      types := types + more;
      i := i + 1;
    }
    ProgressEnd(c, rank, typeName, types, lo, hi, n);
  }

  /**
   The list obeys the law of the loop that appends to it: the parents, then the list of each of its own elements in
   turn.
   */
  lemma GrowingListLaw(c: Catalogue, rank: Rank, t: TypeName)
    requires Acyclic(c, rank)
    ensures Parents(c, rank, t) == Extends(c, t) + ParentsOfAll(c, rank, Parents(c, rank, t), rank(t))
  {
    LevelsLaw(c, rank, Extends(c, t), rank(t));
  }

  lemma {:induction false} LevelsLaw(c: Catalogue, rank: Rank, level: seq<TypeName>, n: nat)
    requires Acyclic(c, rank) && Below(rank, level, n)
    ensures Levels(c, rank, level, n) == level + ParentsOfAll(c, rank, Levels(c, rank, level, n), n)
    decreases n
  {
    if level != [] {
      assert rank(level[0]) < n;
      var next := ParentsOfAll(c, rank, level, n);
      var above := Levels(c, rank, next, n - 1);
      LevelsLaw(c, rank, next, n - 1);
      ParentsOfAllBelow(c, rank, above, n - 1, n);
      ParentsOfAllConcat(c, rank, level, above, n);
    }
  }

  lemma {:induction false} ParentsOfAllBelow(c: Catalogue, rank: Rank, types: seq<TypeName>, n: nat, more: nat)
    requires Acyclic(c, rank) && Below(rank, types, n) && n <= more
    ensures Below(rank, types, more) && ParentsOfAll(c, rank, types, n) == ParentsOfAll(c, rank, types, more)
    decreases |types|
  {
    if types != [] { ParentsOfAllBelow(c, rank, types[1..], n, more); }
  }

  /** Where `ParentsOfAll` puts the list of each element: after those of the elements before it. */
  lemma {:induction false} ListOfElement(c: Catalogue, rank: Rank, types: seq<TypeName>, n: nat, i: nat)
    requires Acyclic(c, rank) && Below(rank, types, n) && i < |types| && Below(rank, types[..i], n)
    ensures ParentsOfAll(c, rank, types[..i], n) + Parents(c, rank, types[i]) <= ParentsOfAll(c, rank, types, n)
    decreases |types|
  {
    if i > 0 {
      assert types[..i][1..] == types[1..][..i - 1] && types[1..][i - 1] == types[i];
      assert Below(rank, types[1..][..i - 1], n);
      ListOfElement(c, rank, types[1..], n, i - 1);
    }
  }

  // ---------- its elements are the strict ancestors ----------

  /** Each type on the path extends into the next; the path starts at a parent of t and ends at a. */
  ghost predicate Climbs(c: Catalogue, t: TypeName, path: seq<TypeName>, a: TypeName)
    decreases |path|
  {
    if path == [] then t == a else path[0] in Extends(c, t) && Climbs(c, path[0], path[1..], a)
  }

  ghost predicate Ancestor(c: Catalogue, t: TypeName, a: TypeName) {
    exists path :: path != [] && Climbs(c, t, path, a)
  }

  ghost predicate AncestorOrSelf(c: Catalogue, t: TypeName, a: TypeName) {
    t == a || Ancestor(c, t, a)
  }

  lemma ParentIsAncestor(c: Catalogue, t: TypeName, p: TypeName)
    requires p in Extends(c, t)
    ensures Ancestor(c, t, p)
  {
    assert Climbs(c, p, [p][1..], p);
    assert Climbs(c, t, [p], p);
  }

  lemma {:induction false} ClimbFurther(c: Catalogue, t: TypeName, path: seq<TypeName>, p: TypeName,
                                        more: seq<TypeName>, a: TypeName)
    requires Climbs(c, t, path, p) && Climbs(c, p, more, a)
    ensures Climbs(c, t, path + more, a)
    decreases |path|
  {
    if path == [] {
      assert path + more == more;
    } else {
      assert (path + more)[1..] == path[1..] + more;
      ClimbFurther(c, path[0], path[1..], p, more, a);
    }
  }

  lemma AncestorsCompose(c: Catalogue, t: TypeName, p: TypeName, a: TypeName)
    requires Ancestor(c, t, p) && Ancestor(c, p, a)
    ensures Ancestor(c, t, a)
  {
    var path :| path != [] && Climbs(c, t, path, p);
    var more :| more != [] && Climbs(c, p, more, a);
    ClimbFurther(c, t, path, p, more, a);
    assert path + more != [];
  }

  lemma {:induction false} LevelsHoldAncestors(c: Catalogue, rank: Rank, level: seq<TypeName>, n: nat, a: TypeName)
      returns (x: TypeName)
    requires Acyclic(c, rank) && Below(rank, level, n) && a in Levels(c, rank, level, n)
    ensures x in level && AncestorOrSelf(c, x, a)
    decreases n, 1, 0
  {
    if a in level {
      x := a;
    } else {
      assert rank(level[0]) < n;
      var above := ParentsOfAll(c, rank, level, n);
      var y := LevelsHoldAncestors(c, rank, above, n - 1, a);
      x := ParentsOfAllHoldAncestors(c, rank, level, n, y);
      if y != a { AncestorsCompose(c, x, y, a); }
    }
  }

  lemma {:induction false} ParentsOfAllHoldAncestors(c: Catalogue, rank: Rank, types: seq<TypeName>, n: nat,
                                                     a: TypeName)
      returns (x: TypeName)
    requires Acyclic(c, rank) && Below(rank, types, n) && a in ParentsOfAll(c, rank, types, n)
    ensures x in types && Ancestor(c, x, a)
    decreases n, 0, |types|
  {
    assert rank(types[0]) < n;
    if a in Parents(c, rank, types[0]) {
      x := types[0];
      ParentsAreAncestors(c, rank, x, a);
    } else {
      x := ParentsOfAllHoldAncestors(c, rank, types[1..], n, a);
    }
  }

  lemma {:induction false} ParentsAreAncestors(c: Catalogue, rank: Rank, t: TypeName, a: TypeName)
    requires Acyclic(c, rank) && a in Parents(c, rank, t)
    ensures Ancestor(c, t, a)
    decreases rank(t), 2, 0
  {
    var p := LevelsHoldAncestors(c, rank, Extends(c, t), rank(t), a);
    ParentIsAncestor(c, t, p);
    if p != a { AncestorsCompose(c, t, p, a); }
  }

  lemma {:induction false} ParentsOfAllHoldsEach(c: Catalogue, rank: Rank, types: seq<TypeName>, n: nat, i: nat,
                                                 a: TypeName)
    requires Acyclic(c, rank) && Below(rank, types, n) && i < |types| && a in Parents(c, rank, types[i])
    ensures a in ParentsOfAll(c, rank, types, n)
    decreases |types|
  {
    if i > 0 { ParentsOfAllHoldsEach(c, rank, types[1..], n, i - 1, a); }
  }

  lemma {:induction false} AncestorsAreListed(c: Catalogue, rank: Rank, t: TypeName, path: seq<TypeName>, a: TypeName)
    requires Acyclic(c, rank) && path != [] && Climbs(c, t, path, a)
    ensures a in Parents(c, rank, t)
    decreases |path|
  {
    var level := Extends(c, t);
    var i :| 0 <= i < |level| && level[i] == path[0];
    assert rank(level[i]) < rank(t);
    if |path| == 1 {
      assert path[1..] == [];
    } else {
      AncestorsAreListed(c, rank, path[0], path[1..], a);
      ParentsOfAllHoldsEach(c, rank, level, rank(t), i, a);
      var above := ParentsOfAll(c, rank, level, rank(t));
      assert above != [] && above <= Levels(c, rank, above, rank(t) - 1);
    }
  }

  /** On every acyclic hierarchy the list holds exactly the strict ancestors. */
  lemma ParentTypesExact(c: Catalogue, rank: Rank, t: TypeName, a: TypeName)
    requires Acyclic(c, rank)
    ensures a in Parents(c, rank, t) <==> Ancestor(c, t, a)
  {
    if a in Parents(c, rank, t) {
      ParentsAreAncestors(c, rank, t, a);
    }
    if Ancestor(c, t, a) {
      var path :| path != [] && Climbs(c, t, path, a);
      AncestorsAreListed(c, rank, t, path, a);
    }
  }

  // ---------- which hierarchies are acyclic ----------

  lemma {:induction false} ClimbsLowersRank(c: Catalogue, rank: Rank, t: TypeName, path: seq<TypeName>, a: TypeName)
    requires Acyclic(c, rank) && Climbs(c, t, path, a) && path != []
    ensures rank(a) < rank(t)
    decreases |path|
  {
    var i :| 0 <= i < |Extends(c, t)| && Extends(c, t)[i] == path[0];
    assert rank(Extends(c, t)[i]) < rank(t);
    if path[1..] != [] { ClimbsLowersRank(c, rank, path[0], path[1..], a); }
  }

  lemma {:induction false} PathClimbs(c: Catalogue, known: set<TypeName>, t: TypeName, path: seq<TypeName>, a: TypeName)
    requires Ranking.Path(x => Extends(c, x), known, t, path, a)
    ensures Climbs(c, t, path, a)
    decreases |path|
  {
    if path != [] { PathClimbs(c, known, path[0], path[1..], a); }
  }

  /** When only finitely many types extend others, there is such a ranking exactly when no type is its own ancestor. */
  lemma AcyclicExactly(c: Catalogue, known: set<TypeName>)
    requires forall t :: t !in known ==> Extends(c, t) == []
    ensures (exists rank :: Acyclic(c, rank)) <==> forall t :: !Ancestor(c, t, t)
  {
    if rank :| Acyclic(c, rank) {
      forall t ensures !Ancestor(c, t, t) {
        if path :| path != [] && Climbs(c, t, path, t) { ClimbsLowersRank(c, rank, t, path, t); }
      }
    }
    if forall t :: !Ancestor(c, t, t) {
      var rank := OwnAncestorOrRanked(c, known);
    }
  }

  lemma OwnAncestorOrRanked(c: Catalogue, known: set<TypeName>) returns (rank: Rank)
    requires forall t :: t !in known ==> Extends(c, t) == []
    requires forall t :: !Ancestor(c, t, t)
    ensures Acyclic(c, rank)
  {
    var next: Ranking.Edges := x => Extends(c, x);
    forall x, path | x in known && path != [] ensures !Ranking.Path(next, known, x, path, x) {
      if Ranking.Path(next, known, x, path, x) {
        PathClimbs(c, known, x, path, x);
        assert Ancestor(c, x, x);
      }
    }
    var inside := Ranking.CanBeRanked(next, known);
    rank := t => if t in known then inside(t) + 1 else 0;
    forall t, i | 0 <= i < |Extends(c, t)| ensures rank(Extends(c, t)[i]) < rank(t) {
      assert t in known && Extends(c, t)[i] in next(t);
    }
  }

  // ---------- chains ----------

  /** No type from t upwards has more than one parent. */
  ghost predicate ChainAbove(c: Catalogue, rank: Rank, t: TypeName)
    requires Acyclic(c, rank)
    decreases rank(t)
  {
    |Extends(c, t)| <= 1 && (Extends(c, t) == [] || ChainAbove(c, rank, Extends(c, t)[0]))
  }

  lemma {:induction false} ChainClimbs(c: Catalogue, rank: Rank, t: TypeName, path: seq<TypeName>, a: TypeName)
    requires Acyclic(c, rank) && ChainAbove(c, rank, t) && Climbs(c, t, path, a)
    ensures |Extends(c, a)| <= 1
    decreases |path|
  {
    if path != [] { ChainClimbs(c, rank, path[0], path[1..], a); }
  }

  /** That is, no ancestor-or-self has more than one. */
  lemma {:induction false} ChainAboveExact(c: Catalogue, rank: Rank, t: TypeName)
    requires Acyclic(c, rank)
    ensures ChainAbove(c, rank, t) <==> forall a :: AncestorOrSelf(c, t, a) ==> |Extends(c, a)| <= 1
    decreases rank(t)
  {
    if ChainAbove(c, rank, t) {
      forall a | AncestorOrSelf(c, t, a) ensures |Extends(c, a)| <= 1 {
        if a != t {
          var path :| path != [] && Climbs(c, t, path, a);
          ChainClimbs(c, rank, t, path, a);
        }
      }
    } else if |Extends(c, t)| == 1 {
      var p := Extends(c, t)[0];
      assert rank(p) < rank(t);
      ChainAboveExact(c, rank, p);
      var a :| AncestorOrSelf(c, p, a) && |Extends(c, a)| > 1;
      ParentIsAncestor(c, t, p);
      if a != p { AncestorsCompose(c, t, p, a); }
      assert AncestorOrSelf(c, t, a);
    } else {
      assert AncestorOrSelf(c, t, t);
    }
  }

  /** The ancestors of a type, nearest first. */
  ghost function Chain(c: Catalogue, rank: Rank, t: TypeName): seq<TypeName>
    requires Acyclic(c, rank) && ChainAbove(c, rank, t)
    decreases rank(t)
  {
    if Extends(c, t) == [] then [] else
      var p := Extends(c, t)[0];
      [p] + Chain(c, rank, p)
  }

  /** With one parent p the list starts with p and the whole list of p; the rest repeats ancestors of p. */
  lemma ParentsOfChild(c: Catalogue, rank: Rank, t: TypeName) returns (rest: seq<TypeName>)
    requires Acyclic(c, rank) && |Extends(c, t)| == 1
    ensures Parents(c, rank, t) == [Extends(c, t)[0]] + Parents(c, rank, Extends(c, t)[0]) + rest
    ensures forall a :: a in rest ==> a in Parents(c, rank, Extends(c, t)[0])
  {
    var level, n := Extends(c, t), rank(t);
    var p := level[0];
    assert rank(level[0]) < n && level == [p];
    var above := Parents(c, rank, p);
    assert ParentsOfAll(c, rank, level[1..], n) == [];
    assert ParentsOfAll(c, rank, level, n) == above;
    assert Parents(c, rank, t) == [p] + Levels(c, rank, above, n - 1);
    if above == [] {
      rest := [];
      assert Parents(c, rank, t) == [p] + above + rest;
    } else {
      assert rank(above[0]) < n - 1;
      rest := Levels(c, rank, ParentsOfAll(c, rank, above, n - 1), n - 2);
      assert Parents(c, rank, t) == [p] + above + rest;
      forall a | a in rest ensures a in above {
        var x := LevelsHoldAncestors(c, rank, ParentsOfAll(c, rank, above, n - 1), n - 2, a);
        var y := ParentsOfAllHoldAncestors(c, rank, above, n - 1, x);
        if x != a { AncestorsCompose(c, y, x, a); }
        ParentsAreAncestors(c, rank, p, y);
        AncestorsCompose(c, p, y, a);
        ParentTypesExact(c, rank, p, a);
      }
    }
  }

  lemma {:induction false} ChainIsPrefix(c: Catalogue, rank: Rank, t: TypeName)
    requires Acyclic(c, rank) && ChainAbove(c, rank, t)
    ensures Chain(c, rank, t) <= Parents(c, rank, t)
    ensures forall a :: a in Parents(c, rank, t) ==> a in Chain(c, rank, t)
    decreases rank(t)
  {
    if Extends(c, t) != [] {
      assert |Extends(c, t)| == 1;
      var p := Extends(c, t)[0];
      assert rank(p) < rank(t);
      var rest := ParentsOfChild(c, rank, t);
      ChainIsPrefix(c, rank, p);
    }
  }

  lemma {:induction false} ChainBelow(c: Catalogue, rank: Rank, t: TypeName)
    requires Acyclic(c, rank) && ChainAbove(c, rank, t)
    ensures Below(rank, Chain(c, rank, t), rank(t))
    decreases rank(t)
  {
    if Extends(c, t) != [] {
      assert rank(Extends(c, t)[0]) < rank(t);
      ChainBelow(c, rank, Extends(c, t)[0]);
    }
  }

  lemma {:induction false} ChainDescends(c: Catalogue, rank: Rank, t: TypeName, i: nat, j: nat)
    requires Acyclic(c, rank) && ChainAbove(c, rank, t) && i < j < |Chain(c, rank, t)|
    ensures rank(Chain(c, rank, t)[i]) > rank(Chain(c, rank, t)[j])
    decreases rank(t)
  {
    var p := Extends(c, t)[0];
    assert rank(p) < rank(t);
    if i > 0 { ChainDescends(c, rank, p, i - 1, j - 1); } else { ChainBelow(c, rank, p); }
  }

  /**
   On a chain the list begins with the ancestors, nearest first and each once; everything after that is a repetition.
   */
  lemma NearestFirst(c: Catalogue, rank: Rank, t: TypeName)
    requires Acyclic(c, rank) && ChainAbove(c, rank, t)
    ensures var chain, types := Chain(c, rank, t), Parents(c, rank, t);
      && chain <= types
      && (forall i, j :: 0 <= i < j < |chain| ==> chain[i] != chain[j])
      && forall k :: 0 <= k < |types| ==> types[k] in chain
  {
    ChainIsPrefix(c, rank, t);
    forall i, j | 0 <= i < j < |Chain(c, rank, t)| ensures Chain(c, rank, t)[i] != Chain(c, rank, t)[j] {
      ChainDescends(c, rank, t, i, j);
    }
  }
}
