/**
 Can an overwrite of its own for one field change what a credential type gets for another field, which that overwrite
 does not have (credentials-overwrites.ts)? An entry makes `setPlainData` resolve the type through `getOverwrites`,
 where the last parent wins, and `get` then no longer asks the parents, of which the first wins.
 */
module OwnEntries {
  import opened Wrappers
  import opened CredentialTypes
  import opened Overwrites
  import opened OverwriteOrder

  /** Adding an entry without the field for t changes the value that t gets for the field. */
  ghost predicate OwnEntryMatters(c: Catalogue, rank: Rank, raw: Data, own: Fields, one: seq<TypeName>,
                                  other: seq<TypeName>, t: TypeName, k: Field)
    requires Acyclic(c, rank)
  {
    && t !in raw && k !in own && Lists(one, raw) && Lists(other, raw[t := own])
    && Lookup(Given(c, rank, raw, one, t), k) != Lookup(Given(c, rank, raw[t := own], other, t), k)
  }

  /** The entries of a type do not matter above it. */
  lemma {:induction false} NearestAbove(c: Catalogue, rank: Rank, raw: Data, t: TypeName, own: Fields, a: TypeName,
                                        k: Field)
    requires Acyclic(c, rank) && ChainAbove(c, rank, a) && rank(a) < rank(t)
    ensures Nearest(c, rank, raw[t := own], a, k) == Nearest(c, rank, raw, a, k)
    decreases rank(a)
  {
    if Extends(c, a) != [] {
      assert rank(Extends(c, a)[0]) < rank(a);
      NearestAbove(c, rank, raw, t, own, Extends(c, a)[0], k);
    }
  }

  lemma ChainIgnoresEntry(c: Catalogue, rank: Rank, raw: Data, own: Fields, one: seq<TypeName>, other: seq<TypeName>,
                          t: TypeName, k: Field)
    requires Acyclic(c, rank) && ChainAbove(c, rank, t)
    ensures !OwnEntryMatters(c, rank, raw, own, one, other, t, k)
  {
    OnePass(c, rank, raw, one, t, k);
    OnePass(c, rank, raw[t := own], other, t, k);
    if Extends(c, t) != [] {
      assert rank(Extends(c, t)[0]) < rank(t);
      NearestAbove(c, rank, raw, t, own, Extends(c, t)[0], k);
    }
  }

  // ---------- a line that forks ----------

  /** p and q are the first and the last parent of the fork, and only they define the field. */
  ghost predicate OnlyParents(c: Catalogue, rank: Rank, data: Data, t: TypeName, p: TypeName, q: TypeName, k: Field)
    requires Acyclic(c, rank) && !ChainAbove(c, rank, t)
  {
    var parents := Extends(c, Fork(c, rank, t));
    && p == parents[0] && q == parents[|parents| - 1]
    && k in FieldsOf(data, p) && k in FieldsOf(data, q)
    && forall x :: k in FieldsOf(data, x) ==> x == p || x == q
  }

  lemma ParentsAreAbove(c: Catalogue, rank: Rank, t: TypeName)
    requires Acyclic(c, rank) && !ChainAbove(c, rank, t)
    ensures var a := Fork(c, rank, t);
      rank(a) <= rank(t) && forall i :: 0 <= i < |Extends(c, a)| ==> rank(Extends(c, a)[i]) < rank(a)
  {
    ForkIsBelow(c, rank, t);
  }

  /** On a first visit `getOverwrites` carries the value of the last parent of the fork down to t. */
  lemma {:induction false} LastParentComesDown(c: Catalogue, rank: Rank, data: Data, t: TypeName, p: TypeName,
                                               q: TypeName, k: Field)
    requires Acyclic(c, rank) && WellDeclared(c, t) && !ChainAbove(c, rank, t) && OnlyParents(c, rank, data, t, p, q, k)
    ensures var result := GetOverwritesOutcome(c, rank, data, [], t).result;
      result.Some? && Lookup(result.value, k) == Some(data[q][k])
    decreases rank(t)
  {
    ParentsAreAbove(c, rank, t);
    assert AncestorOrSelf(c, t, t) && c.recognizes(t) && k !in FieldsOf(data, t);
    if |Extends(c, t)| > 1 {
      WellDeclaredAbove(c, t, q);
      assert Below(rank, Extends(c, t), rank(t));
      LastParentWins(c, rank, data, map[], [], Extends(c, t), rank(t), k);
    } else {
      var x := Extends(c, t)[0];
      assert rank(x) < rank(t) && Extends(c, t) == [x];
      WellDeclaredAbove(c, t, x);
      LastParentComesDown(c, rank, data, x, p, q, k);
      OneParent(c, rank, data, [], t, x);
    }
  }

  /** So t, visited first, stores it. */
  lemma EntryGivesLast(c: Catalogue, rank: Rank, data: Data, order: seq<TypeName>, t: TypeName, p: TypeName,
                       q: TypeName, k: Field)
    requires Acyclic(c, rank) && WellDeclared(c, t) && !ChainAbove(c, rank, t) && OnlyParents(c, rank, data, t, p, q, k)
    requires order != [] && order[0] == t && t !in order[1..]
    ensures Lookup(Given(c, rank, data, order, t), k) == Some(data[q][k])
  {
    LastParentComesDown(c, rank, data, t, p, q, k);
    var memo := GetOverwritesOutcome(c, rank, data, [], t);
    var after := Store(data, t, memo.result);
    assert Lookup(FieldsOf(after, t), k) == Some(data[q][k]);
    UnvisitedKeep(c, rank, after, memo.resolved, order[1..], t);
    MergeFirstWins(SetPlainDataOutcome(c, rank, data, order), Lineage(c, rank, t), 0, k);
  }

  /** Without an entry of its own or on the way, t gets the value of the first parent. */
  lemma NoEntryGivesFirst(c: Catalogue, rank: Rank, raw: Data, order: seq<TypeName>, t: TypeName, p: TypeName,
                          q: TypeName, k: Field)
    requires Acyclic(c, rank) && !ChainAbove(c, rank, t) && OnlyParents(c, rank, raw, t, p, q, k)
    requires forall x :: x in order ==> x == p || x == q
    ensures Lookup(Given(c, rank, raw, order, t), k) == Some(raw[p][k])
  {
    var a := Fork(c, rank, t);
    ParentsAreAbove(c, rank, t);
    var data := SetPlainDataOutcome(c, rank, raw, order);
    forall x | x != p && x != q ensures k !in FieldsOf(data, x) {
      UnvisitedKeep(c, rank, raw, [], order, x);
      assert FieldsOf(data, x) == FieldsOf(raw, x);
    }
    EffectiveOfFork(c, rank, data, t, k);
    VisitsKeepOwnField(c, rank, raw, [], order, p, k);
    FirstParentWins(c, rank, data, a, k);
  }

  lemma ForkSetting(c: Catalogue, rank: Rank, t: TypeName) returns (raw: Data, p: TypeName, q: TypeName)
    requires Acyclic(c, rank) && WellDeclared(c, t) && !ChainAbove(c, rank, t)
    ensures p != q && p != t && q != t && raw == map[p := Own(1), q := Own(2)]
    ensures OnlyParents(c, rank, raw, t, p, q, FIELD) && OnlyParents(c, rank, raw[t := PLAIN], t, p, q, FIELD)
  {
    var a := Fork(c, rank, t);
    ForkIsAncestor(c, rank, t);
    ParentsAreAbove(c, rank, t);
    p, q := Extends(c, a)[0], Extends(c, a)[|Extends(c, a)| - 1];
    raw := map[p := Own(1), q := Own(2)];
  }

  lemma ListsTwoAndThree(t: TypeName, p: TypeName, q: TypeName, raw: Data, own: Fields)
    requires p != q && p != t && q != t && raw.Keys == {p, q}
    ensures Lists([p, q], raw) && Lists([t, p, q], raw[t := own])
  {
  }

  lemma ForkMatters(c: Catalogue, rank: Rank, t: TypeName)
    returns (raw: Data, own: Fields, one: seq<TypeName>, other: seq<TypeName>, k: Field)
    requires Acyclic(c, rank) && WellDeclared(c, t) && !ChainAbove(c, rank, t)
    ensures OwnEntryMatters(c, rank, raw, own, one, other, t, k)
  {
    var p, q;
    raw, p, q := ForkSetting(c, rank, t);
    own, k := PLAIN, FIELD;
    one, other := [p, q], [t, p, q];
    ListsTwoAndThree(t, p, q, raw, own);
    NoEntryGivesFirst(c, rank, raw, one, t, p, q, k);
    assert other[1..] == [p, q];
    EntryGivesLast(c, rank, raw[t := own], other, t, p, q, k);
  }

  /**
   An entry for other fields only never matters for t exactly when no type from t upwards has more than one parent.
   */
  lemma OwnEntryIrrelevantExactly(c: Catalogue, rank: Rank, t: TypeName)
    requires Acyclic(c, rank) && WellDeclared(c, t)
    ensures (forall raw, own, one, other, k :: !OwnEntryMatters(c, rank, raw, own, one, other, t, k))
       <==> forall a :: AncestorOrSelf(c, t, a) ==> |Extends(c, a)| <= 1
  {
    ChainAboveExact(c, rank, t);
    if ChainAbove(c, rank, t) {
      forall raw, own, one, other, k ensures !OwnEntryMatters(c, rank, raw, own, one, other, t, k) {
        ChainIgnoresEntry(c, rank, raw, own, one, other, t, k);
      }
    } else {
      var raw, own, one, other, k := ForkMatters(c, rank, t);
    }
  }
}
