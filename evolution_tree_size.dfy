/**
 * When the loaded relations of a chain form one out-tree over its records
 * (every relation leaves a loaded record, no record is the target of two
 * relations, the relations are acyclic and exactly one record is nobody's
 * target), the tree `buildEvolutionTree` returns holds every record of the
 * chain exactly once: it has as many nodes as the chain has records.
 */
module EvolutionTreeSize {
  import opened Entities
  import opened PokemonInfoDto
  import opened EvolutionNodeDto
  import opened EvolutionService
  import opened EvolutionTreeFacts

  predicate DistinctIds(chain: seq<Pokemon>)
  {
    forall i, j :: 0 <= i < j < |chain| ==> chain[i].id != chain[j].id
  }

  predicate UniqueTargets(evolutions: seq<Evolution>)
  {
    forall i, j :: 0 <= i < j < |evolutions| ==> evolutions[i].toPokemonId != evolutions[j].toPokemonId
  }

  /** The relations hang off the chain, point into it at most once per record, and are acyclic. */
  ghost predicate Forest(chain: seq<Pokemon>, evolutions: seq<Evolution>, rank: int -> nat)
  {
    && DistinctIds(chain)
    && (forall e :: e in evolutions ==> e.fromPokemonId in IdSet(chain))
    && Ranked(evolutions, rank)
    && UniqueTargets(evolutions)
  }

  lemma SameIdSameRecord(chain: seq<Pokemon>, p: Pokemon, q: Pokemon)
    requires DistinctIds(chain) && p in chain && q in chain && p.id == q.id
    ensures p == q
  {
    var i :| 0 <= i < |chain| && chain[i] == p;
    var j :| 0 <= j < |chain| && chain[j] == q;
  }

  lemma SameTargetSameRelation(evolutions: seq<Evolution>, e1: Evolution, e2: Evolution)
    requires UniqueTargets(evolutions) && e1 in evolutions && e2 in evolutions
    requires e1.toPokemonId == e2.toPokemonId
    ensures e1 == e2
  {
    var i :| 0 <= i < |evolutions| && evolutions[i] == e1;
    var j :| 0 <= j < |evolutions| && evolutions[j] == e2;
  }

  // ------------------------------------------------------------ ancestry

  /** The source of the relation that points to `w`. */
  ghost function Parent(evolutions: seq<Evolution>, w: int): int
    requires w in Targets(evolutions)
  {
    var e :| e in evolutions && e.toPokemonId == w; e.fromPokemonId
  }

  lemma ParentOf(evolutions: seq<Evolution>, e: Evolution)
    requires UniqueTargets(evolutions) && e in evolutions
    ensures e.toPokemonId in Targets(evolutions)
    ensures Parent(evolutions, e.toPokemonId) == e.fromPokemonId
  {
    forall e' | e' in evolutions && e'.toPokemonId == e.toPokemonId
      ensures e' == e
    {
      SameTargetSameRelation(evolutions, e', e);
    }
  }

  /** `v` is `w` or lies on the path of relations that leads to `w`. */
  ghost predicate IsAncestor(evolutions: seq<Evolution>, rank: int -> nat, v: int, w: int)
    decreases rank(v) - rank(w)
  {
    || w == v
    || (&& w in Targets(evolutions)
        && rank(w) < rank(Parent(evolutions, w)) <= rank(v)
        && IsAncestor(evolutions, rank, v, Parent(evolutions, w)))
  }

  lemma {:induction false} AncestorTransitive(evolutions: seq<Evolution>, rank: int -> nat, u: int, v: int, w: int)
    requires IsAncestor(evolutions, rank, u, v) && IsAncestor(evolutions, rank, v, w)
    ensures IsAncestor(evolutions, rank, u, w)
    decreases rank(v) - rank(w)
  {
    if w != v {
      AncestorTransitive(evolutions, rank, u, v, Parent(evolutions, w));
    }
  }

  /** Two ancestors of the same record are ancestors one of the other. */
  lemma {:induction false} AncestorsAreLinear(evolutions: seq<Evolution>, rank: int -> nat, a: int, b: int, w: int)
    requires IsAncestor(evolutions, rank, a, w) && IsAncestor(evolutions, rank, b, w)
    ensures IsAncestor(evolutions, rank, a, b) || IsAncestor(evolutions, rank, b, a)
    decreases rank(a) - rank(w)
  {
    if w != a && w != b {
      AncestorsAreLinear(evolutions, rank, a, b, Parent(evolutions, w));
    }
  }

  lemma ChildIsDescendant(evolutions: seq<Evolution>, rank: int -> nat, e: Evolution)
    requires UniqueTargets(evolutions) && Ranked(evolutions, rank) && e in evolutions
    ensures IsAncestor(evolutions, rank, e.fromPokemonId, e.toPokemonId)
  {
    ParentOf(evolutions, e);
    assert IsAncestor(evolutions, rank, e.fromPokemonId, e.fromPokemonId);
  }

  /** The path from `v` down to a proper descendant `w` starts with a relation leaving `v`. */
  lemma {:induction false} FirstStep(evolutions: seq<Evolution>, rank: int -> nat, v: int, w: int)
    requires UniqueTargets(evolutions) && Ranked(evolutions, rank)
    requires IsAncestor(evolutions, rank, v, w) && w != v
    ensures exists e :: e in evolutions && e.fromPokemonId == v && IsAncestor(evolutions, rank, e.toPokemonId, w)
    decreases rank(v) - rank(w)
  {
    var ew :| ew in evolutions && ew.toPokemonId == w;
    ParentOf(evolutions, ew);
    if ew.fromPokemonId == v {
      assert IsAncestor(evolutions, rank, w, w);
    } else {
      FirstStep(evolutions, rank, v, ew.fromPokemonId);
      var e :| e in evolutions && e.fromPokemonId == v && IsAncestor(evolutions, rank, e.toPokemonId, ew.fromPokemonId);
      ChildIsDescendant(evolutions, rank, ew);
      AncestorTransitive(evolutions, rank, e.toPokemonId, ew.fromPokemonId, w);
    }
  }

  /** A proper ancestor is the source of some relation. */
  lemma {:induction false} AncestorIsSource(evolutions: seq<Evolution>, rank: int -> nat, u: int, w: int)
    requires UniqueTargets(evolutions)
    ensures IsAncestor(evolutions, rank, u, w) ==> u == w || u in SourceIds(evolutions)
    decreases rank(u) - rank(w)
  {
    if IsAncestor(evolutions, rank, u, w) && u != w {
      var ew :| ew in evolutions && ew.toPokemonId == w;
      ParentOf(evolutions, ew);
      AncestorIsSource(evolutions, rank, u, ew.fromPokemonId);
    }
  }

  // ------------------------------------------------------------ counting

  /** How many of the relations lead, in zero or more further steps, to `w`. */
  ghost function CountLeadingTo(evolutions: seq<Evolution>, rank: int -> nat, es: seq<Evolution>, w: int): nat
  {
    if es == [] then 0
    else (if IsAncestor(evolutions, rank, es[0].toPokemonId, w) then 1 else 0)
         + CountLeadingTo(evolutions, rank, es[1..], w)
  }

  lemma {:induction false} CountLeadingToNone(evolutions: seq<Evolution>, rank: int -> nat, es: seq<Evolution>, w: int)
    requires forall e :: e in es ==> !IsAncestor(evolutions, rank, e.toPokemonId, w)
    ensures CountLeadingTo(evolutions, rank, es, w) == 0
  {
    if es != [] {
      CountLeadingToNone(evolutions, rank, es[1..], w);
    }
  }

  lemma {:induction false} CountLeadingToOne(evolutions: seq<Evolution>, rank: int -> nat, es: seq<Evolution>, w: int, e0: Evolution)
    requires forall e :: e in es ==> (IsAncestor(evolutions, rank, e.toPokemonId, w) <==> e == e0)
    ensures CountLeadingTo(evolutions, rank, es, w) == multiset(es)[e0]
  {
    if es != [] {
      CountLeadingToOne(evolutions, rank, es[1..], w, e0);
      assert es == [es[0]] + es[1..];
    }
  }

  lemma {:induction false} OccursOnce(evolutions: seq<Evolution>, e: Evolution)
    requires UniqueTargets(evolutions) && e in evolutions
    ensures multiset(evolutions)[e] == 1
  {
    assert evolutions == [evolutions[0]] + evolutions[1..];
    if evolutions[0] == e {
      assert forall j :: 0 <= j < |evolutions[1..]| ==> evolutions[1..][j] == evolutions[j + 1];
      assert e !in evolutions[1..];
    } else {
      OccursOnce(evolutions[1..], e);
    }
  }

  /**
   * One level of the count: the record `v` itself, plus the relations
   * leaving `v` that lead to `w`, make one exactly when `v` is an ancestor of `w`.
   */
  lemma LevelCount(evolutions: seq<Evolution>, rank: int -> nat, v: int, w: int)
    requires UniqueTargets(evolutions) && Ranked(evolutions, rank)
    ensures (if v == w then 1 else 0) + CountLeadingTo(evolutions, rank, Outgoing(evolutions, v), w)
         == if IsAncestor(evolutions, rank, v, w) then 1 else 0
  {
    var out := Outgoing(evolutions, v);
    if v == w || !IsAncestor(evolutions, rank, v, w) {
      forall e | e in out
        ensures !IsAncestor(evolutions, rank, e.toPokemonId, w)
      {
        if IsAncestor(evolutions, rank, e.toPokemonId, w) {
          ChildIsDescendant(evolutions, rank, e);
          AncestorTransitive(evolutions, rank, v, e.toPokemonId, w);
        }
      }
      CountLeadingToNone(evolutions, rank, out, w);
    } else {
      FirstStep(evolutions, rank, v, w);
      var e0 :| e0 in evolutions && e0.fromPokemonId == v && IsAncestor(evolutions, rank, e0.toPokemonId, w);
      forall e | e in out
        ensures IsAncestor(evolutions, rank, e.toPokemonId, w) <==> e == e0
      {
        if IsAncestor(evolutions, rank, e.toPokemonId, w) && e.toPokemonId != e0.toPokemonId {
          AncestorsAreLinear(evolutions, rank, e.toPokemonId, e0.toPokemonId, w);
          ParentOf(evolutions, e);
          ParentOf(evolutions, e0);
        }
        if e.toPokemonId == e0.toPokemonId {
          SameTargetSameRelation(evolutions, e, e0);
        }
      }
      CountLeadingToOne(evolutions, rank, out, w, e0);
      OutgoingKeepsEachOnce(evolutions, v, e0);
      OccursOnce(evolutions, e0);
    }
  }

  /**
   * The subtree `buildNode` grows from a loaded record `v` holds the record
   * `w` once when `v` is an ancestor of `w`, and not at all otherwise.
   */
  lemma {:induction false} NodeCount(chain: seq<Pokemon>, evolutions: seq<Evolution>, rank: int -> nat,
                                     v: Pokemon, conditions: string, w: int)
    requires Forest(chain, evolutions, rank) && RankedMap(Grouped(evolutions), rank)
    requires v.id in ById(chain) && ById(chain)[v.id] == v
    requires w in IdSet(chain)
    ensures multiset(Infos(BuildNode(v, ById(chain), Grouped(evolutions), conditions, rank)))[FromEntity(ById(chain)[w])]
         == if IsAncestor(evolutions, rank, v.id, w) then 1 else 0
    decreases rank(v.id), 1, 0, 0
  {
    var pokemonMap, evolutionMap := ById(chain), Grouped(evolutions);
    var next := NextEvolutions(evolutionMap, v.id);
    NextIsOutgoing(evolutions, v.id);
    ChildrenCount(chain, evolutions, rank, v.id, next, w);
    NodeInfos(v, pokemonMap, evolutionMap, conditions, rank);
    SameProjection(pokemonMap, v, w);
    LevelCount(evolutions, rank, v.id, w);
  }

  lemma NextIsOutgoing(evolutions: seq<Evolution>, id: int)
    ensures NextEvolutions(Grouped(evolutions), id) == Outgoing(evolutions, id)
  {
  }

  lemma NodeInfos(current: Pokemon, pokemonMap: map<int, Pokemon>, evolutionMap: map<int, seq<Evolution>>,
                  conditions: string, rank: int -> nat)
    requires KeyedById(pokemonMap) && RankedMap(evolutionMap, rank)
    ensures Infos(BuildNode(current, pokemonMap, evolutionMap, conditions, rank))
         == [FromEntity(current)] + InfosAll(BuildChildren(current.id, NextEvolutions(evolutionMap, current.id),
                                                           pokemonMap, evolutionMap, rank))
  {
  }

  lemma SameProjection(pokemonMap: map<int, Pokemon>, v: Pokemon, w: int)
    requires KeyedById(pokemonMap) && v.id in pokemonMap && pokemonMap[v.id] == v && w in pokemonMap
    ensures FromEntity(v) == FromEntity(pokemonMap[w]) <==> v.id == w
  {
  }

  lemma {:induction false} ChildrenCount(chain: seq<Pokemon>, evolutions: seq<Evolution>, rank: int -> nat,
                                         parentId: int, es: seq<Evolution>, w: int)
    requires Forest(chain, evolutions, rank) && RankedMap(Grouped(evolutions), rank)
    requires forall e :: e in es ==> rank(e.toPokemonId) < rank(parentId)
    requires w in IdSet(chain)
    ensures multiset(InfosAll(BuildChildren(parentId, es, ById(chain), Grouped(evolutions), rank)))[FromEntity(ById(chain)[w])]
         == CountLeadingTo(evolutions, rank, es, w)
    decreases rank(parentId), 0, |es|, 1
  {
    if es != [] {
      ChildrenCount(chain, evolutions, rank, parentId, es[1..], w);
      ChildCount(chain, evolutions, rank, parentId, es, w);
    }
  }

  /** The first relation of `es` adds one copy of `w` exactly when its target is an ancestor of `w`. */
  lemma ChildCount(chain: seq<Pokemon>, evolutions: seq<Evolution>, rank: int -> nat,
                   parentId: int, es: seq<Evolution>, w: int)
    requires Forest(chain, evolutions, rank) && RankedMap(Grouped(evolutions), rank)
    requires forall e :: e in es ==> rank(e.toPokemonId) < rank(parentId)
    requires w in IdSet(chain)
    requires es != []
    ensures multiset(InfosAll(BuildChildren(parentId, es, ById(chain), Grouped(evolutions), rank)))[FromEntity(ById(chain)[w])]
         == (if IsAncestor(evolutions, rank, es[0].toPokemonId, w) then 1 else 0)
            + multiset(InfosAll(BuildChildren(parentId, es[1..], ById(chain), Grouped(evolutions), rank)))[FromEntity(ById(chain)[w])]
    decreases rank(parentId), 0, |es|, 0
  {
    var pokemonMap, evolutionMap := ById(chain), Grouped(evolutions);
    var e := es[0];
    var x := FromEntity(pokemonMap[w]);
    var rest := BuildChildren(parentId, es[1..], pokemonMap, evolutionMap, rank);
    BuildChildrenStep(parentId, es, pokemonMap, evolutionMap, rank);
    if e.toPokemonId in pokemonMap {
      var child := BuildNode(pokemonMap[e.toPokemonId], pokemonMap, evolutionMap, e.evolutionConditions, rank);
      NodeCount(chain, evolutions, rank, pokemonMap[e.toPokemonId], e.evolutionConditions, w);
      assert BuildChildren(parentId, es, pokemonMap, evolutionMap, rank) == [child] + rest;
      InfosAllCons(child, rest);
    } else {
      AncestorIsSource(evolutions, rank, e.toPokemonId, w);
      assert BuildChildren(parentId, es, pokemonMap, evolutionMap, rank) == [] + rest;
    }
  }

  // ------------------------------------------------------------ the whole chain

  /** The record of largest rank bounds every rank on the chain. */
  ghost function TopRank(chain: seq<Pokemon>, rank: int -> nat): nat
    requires chain != []
  {
    rank(MaxRanked(chain, rank).id)
  }

  /** With a single record that is nobody's target, that record is an ancestor of every loaded record. */
  lemma {:induction false} RootReachesAll(chain: seq<Pokemon>, evolutions: seq<Evolution>, rank: int -> nat, root: int, w: int)
    requires Forest(chain, evolutions, rank)
    requires forall p :: p in chain && p.id !in Targets(evolutions) ==> p.id == root
    requires w in IdSet(chain)
    ensures IsAncestor(evolutions, rank, root, w)
    decreases TopRank(chain, rank) - rank(w)
  {
    if w != root {
      var ew :| ew in evolutions && ew.toPokemonId == w;
      ParentOf(evolutions, ew);
      var parent := ew.fromPokemonId;
      var q :| q in chain && q.id == parent;
      assert rank(parent) <= TopRank(chain, rank);
      RootReachesAll(chain, evolutions, rank, root, parent);
    }
  }

  lemma {:induction false} ProjectionOccursOnce(chain: seq<Pokemon>, p: Pokemon)
    requires DistinctIds(chain) && p in chain
    ensures multiset(Projections(chain))[FromEntity(p)] == 1
  {
    var projections := Projections(chain);
    assert projections == [FromEntity(chain[0])] + Projections(chain[1..]);
    if chain[0] == p {
      forall q | q in chain[1..]
        ensures q.id != p.id
      {
        var j :| 0 <= j < |chain| - 1 && chain[1..][j] == q;
        assert chain[j + 1] == q;
      }
      NotProjected(chain[1..], p);
    } else {
      assert chain[0].id != p.id by {
        if chain[0].id == p.id {
          SameIdSameRecord(chain, chain[0], p);
        }
      }
      ProjectionOccursOnce(chain[1..], p);
    }
  }

  /** A record whose id no record of `chain` has is not among its projections. */
  lemma NotProjected(chain: seq<Pokemon>, p: Pokemon)
    requires forall q :: q in chain ==> q.id != p.id
    ensures FromEntity(p) !in Projections(chain)
  {
    forall j | 0 <= j < |chain|
      ensures Projections(chain)[j] != FromEntity(p)
    {
      assert chain[j] in chain;
    }
  }

  /** Below the only record that is nobody's target, a record of the chain occurs exactly once. */
  lemma RecordOnceBelowRoot(chain: seq<Pokemon>, evolutions: seq<Evolution>, rank: int -> nat, root: Pokemon, p: Pokemon)
    requires Forest(chain, evolutions, rank) && RankedMap(Grouped(evolutions), rank)
    requires root in chain && p in chain
    requires forall q :: q in chain && q.id !in Targets(evolutions) ==> q.id == root.id
    ensures multiset(Infos(BuildNode(root, ById(chain), Grouped(evolutions), "N/A", rank)))[FromEntity(p)] == 1
    ensures multiset(Projections(chain))[FromEntity(p)] == 1
  {
    var pokemonMap := ById(chain);
    SameIdSameRecord(chain, pokemonMap[root.id], root);
    SameIdSameRecord(chain, pokemonMap[p.id], p);
    RootReachesAll(chain, evolutions, rank, root.id, p.id);
    NodeCount(chain, evolutions, rank, root, "N/A", p.id);
    ProjectionOccursOnce(chain, p);
  }

  lemma InfosBelowRootAreProjections(chain: seq<Pokemon>, evolutions: seq<Evolution>, rank: int -> nat, root: Pokemon)
    requires RankedMap(Grouped(evolutions), rank) && root in chain
    ensures forall x :: x in Infos(BuildNode(root, ById(chain), Grouped(evolutions), "N/A", rank)) ==> x in Projections(chain)
  {
    var pokemonMap := ById(chain);
    BuildNodeWrapsLoaded(root, pokemonMap, Grouped(evolutions), "N/A", rank);
    forall x | x in Infos(BuildNode(root, pokemonMap, Grouped(evolutions), "N/A", rank))
      ensures x in Projections(chain)
    {
      if x == FromEntity(root) {
        var i :| 0 <= i < |chain| && chain[i] == root;
        assert Projections(chain)[i] == x;
      } else {
        var k :| k in pokemonMap && x == FromEntity(pokemonMap[k]);
        var j :| 0 <= j < |chain| && chain[j] == pokemonMap[k];
        assert Projections(chain)[j] == x;
      }
    }
  }

  lemma CountBelowRoot(chain: seq<Pokemon>, evolutions: seq<Evolution>, rank: int -> nat, root: Pokemon, x: PokemonInfo)
    requires Forest(chain, evolutions, rank) && RankedMap(Grouped(evolutions), rank)
    requires root in chain
    requires forall q :: q in chain && q.id !in Targets(evolutions) ==> q.id == root.id
    ensures multiset(Infos(BuildNode(root, ById(chain), Grouped(evolutions), "N/A", rank)))[x] == multiset(Projections(chain))[x]
  {
    if x in Projections(chain) {
      var j :| 0 <= j < |chain| && Projections(chain)[j] == x;
      RecordOnceBelowRoot(chain, evolutions, rank, root, chain[j]);
    } else {
      NoStrangerBelowRoot(chain, evolutions, rank, root, x);
    }
  }

  lemma NoStrangerBelowRoot(chain: seq<Pokemon>, evolutions: seq<Evolution>, rank: int -> nat, root: Pokemon, x: PokemonInfo)
    requires RankedMap(Grouped(evolutions), rank) && root in chain
    requires x !in Projections(chain)
    ensures multiset(Infos(BuildNode(root, ById(chain), Grouped(evolutions), "N/A", rank)))[x] == 0
  {
    InfosBelowRootAreProjections(chain, evolutions, rank, root);
  }

  /** Proof step of `MultisetBelowRoot`: multisets with the same counts are equal. */
  lemma SameCounts(a: multiset<PokemonInfo>, b: multiset<PokemonInfo>)
    requires forall x :: a[x] == b[x]
    ensures a == b
  {
  }

  lemma MultisetBelowRoot(chain: seq<Pokemon>, evolutions: seq<Evolution>, rank: int -> nat, root: Pokemon)
    requires Forest(chain, evolutions, rank) && RankedMap(Grouped(evolutions), rank)
    requires root in chain
    requires forall q :: q in chain && q.id !in Targets(evolutions) ==> q.id == root.id
    ensures multiset(Infos(BuildNode(root, ById(chain), Grouped(evolutions), "N/A", rank))) == multiset(Projections(chain))
  {
    var a := multiset(Infos(BuildNode(root, ById(chain), Grouped(evolutions), "N/A", rank)));
    var b := multiset(Projections(chain));
    forall x
      ensures a[x] == b[x]
    {
      CountBelowRoot(chain, evolutions, rank, root, x);
    }
    SameCounts(a, b);
  }

  /**
   * When the relations form one out-tree over a non-empty chain, the
   * returned tree holds the projection of every record exactly once, and
   * nothing else: as many nodes as records.
   */
  lemma TreeHoldsEveryRecordOnce(chain: seq<Pokemon>, evolutions: seq<Evolution>, rank: int -> nat)
    requires Forest(chain, evolutions, rank)
    requires chain != []
    requires forall p, q :: p in chain && q in chain && p.id !in Targets(evolutions) && q.id !in Targets(evolutions)
                            ==> p.id == q.id
    ensures TreeRanked(chain, evolutions, rank)
    ensures EvolutionTree(chain, evolutions, rank).Some?
    ensures multiset(Infos(EvolutionTree(chain, evolutions, rank).value)) == multiset(Projections(chain))
    ensures |Infos(EvolutionTree(chain, evolutions, rank).value)| == |chain|
  {
    RootExists(chain, evolutions, rank);
    GroupedRanked(evolutions, rank);
    var i := FindRoot(chain, Targets(evolutions)).value;
    var tree := BuildNode(chain[i], ById(chain), Grouped(evolutions), "N/A", rank);
    assert tree == EvolutionTree(chain, evolutions, rank).value;
    MultisetBelowRoot(chain, evolutions, rank, chain[i]);
    assert |Infos(tree)| == |multiset(Infos(tree))|;
  }
}
