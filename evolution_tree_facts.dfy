/**
 * What `buildEvolutionTree` guarantees about the tree it returns: which
 * record is the root, that a root always exists for acyclic relations, that
 * every node of the tree is built the way `buildNode` builds one level, and
 * that every node wraps a record of the loaded chain.
 */
module EvolutionTreeFacts {
  import opened Wrappers
  import opened Entities
  import opened PokemonInfoDto
  import opened EvolutionNodeDto
  import opened EvolutionService

  /** The record projections of a tree, root first, then each child's subtree in order. */
  function Infos(node: EvolutionNode): seq<PokemonInfo>
  {
    [node.pokemon] + InfosAll(node.evolvesTo)
  }

  function InfosAll(nodes: seq<EvolutionNode>): seq<PokemonInfo>
  {
    if nodes == [] then [] else Infos(nodes[0]) + InfosAll(nodes[1..])
  }

  lemma InfosAllCons(node: EvolutionNode, nodes: seq<EvolutionNode>)
    ensures InfosAll([node] + nodes) == Infos(node) + InfosAll(nodes)
  {
    assert ([node] + nodes)[0] == node && ([node] + nodes)[1..] == nodes;
  }

  /** `chain.map(PokemonInfoDto.fromEntity)`. */
  function Projections(chain: seq<Pokemon>): (r: seq<PokemonInfo>)
    ensures |r| == |chain|
    ensures forall i :: 0 <= i < |chain| ==> r[i] == FromEntity(chain[i])
  {
    if chain == [] then [] else [FromEntity(chain[0])] + Projections(chain[1..])
  }

  // ------------------------------------------------------------ the root

  /**
   * The root is the first record of the chain that no loaded relation points
   * to, so in ascending id order it has the smallest id of all such records,
   * and its condition is the sentinel.
   */
  lemma RootIsFirstUnpointedRecord(chain: seq<Pokemon>, evolutions: seq<Evolution>, rank: int -> nat)
    requires TreeRanked(chain, evolutions, rank)
    requires SortedById(chain)
    requires EvolutionTree(chain, evolutions, rank).Some?
    ensures var root := EvolutionTree(chain, evolutions, rank).value;
      && root.evolutionConditions == "N/A"
      && root.pokemon.id !in Targets(evolutions)
      && (exists p :: p in chain && root.pokemon == FromEntity(p))
      && forall p :: p in chain && p.id !in Targets(evolutions) ==> root.pokemon.id <= p.id
  {
    var i := FindRoot(chain, Targets(evolutions)).value;
    var root := EvolutionTree(chain, evolutions, rank).value;
    assert root.pokemon == FromEntity(chain[i]);
    forall p | p in chain && p.id !in Targets(evolutions)
      ensures root.pokemon.id <= p.id
    {
      var j :| 0 <= j < |chain| && chain[j] == p;
      if i < j {
        assert chain[i].id <= chain[j].id;
      }
    }
  }

  /** The record with the largest rank, which no relation can point to. */
  ghost function MaxRanked(chain: seq<Pokemon>, rank: int -> nat): (p: Pokemon)
    requires chain != []
    ensures p in chain
    ensures forall q :: q in chain ==> rank(q.id) <= rank(p.id)
  {
    if |chain| == 1 then chain[0]
    else
      var p := MaxRanked(chain[1..], rank);
      assert forall q :: q in chain ==> q == chain[0] || q in chain[1..];
      if rank(p.id) < rank(chain[0].id) then chain[0] else p
  }

  /**
   * With acyclic relations whose sources all belong to the chain, a
   * non-empty chain always has a root: the tree is absent only for an empty
   * chain.
   */
  lemma RootExists(chain: seq<Pokemon>, evolutions: seq<Evolution>, rank: int -> nat)
    requires Ranked(evolutions, rank)
    requires forall e :: e in evolutions ==> e.fromPokemonId in IdSet(chain)
    ensures TreeRanked(chain, evolutions, rank)
    ensures EvolutionTree(chain, evolutions, rank).Some? <==> chain != []
  {
    RankedIsTreeRanked(chain, evolutions, rank);
    if chain != [] {
      var top := MaxRanked(chain, rank);
      forall e | e in evolutions
        ensures e.toPokemonId != top.id
      {
        var q :| q in chain && q.id == e.fromPokemonId;
        assert rank(q.id) <= rank(top.id);
      }
      assert top.id !in Targets(evolutions);
    }
  }

  /** The loaded relations always come from the chain's own records. */
  lemma ChainRelationsComeFromChain(evolutionTable: seq<Evolution>, chain: seq<Pokemon>)
    ensures forall e :: e in ChainRelations(evolutionTable, chain) ==> e.fromPokemonId in IdSet(chain)
  {
  }

  // ------------------------------------------------------------ every level

  /**
   * Every node of the tree is built like one `buildNode` call: its children
   * mirror, one for one and in load order, the relations leaving its record
   * whose target was loaded, each child carrying its relation's condition.
   */
  ghost predicate WellBuilt(node: EvolutionNode, pokemonMap: map<int, Pokemon>, evolutionMap: map<int, seq<Evolution>>)
    decreases node, 1
  {
    && Mirrors(node.evolvesTo, Surviving(NextEvolutions(evolutionMap, node.pokemon.id), pokemonMap), pokemonMap)
    && AllWellBuilt(node.evolvesTo, pokemonMap, evolutionMap)
  }

  ghost predicate AllWellBuilt(nodes: seq<EvolutionNode>, pokemonMap: map<int, Pokemon>, evolutionMap: map<int, seq<Evolution>>)
    decreases nodes, 0
  {
    forall i :: 0 <= i < |nodes| ==> WellBuilt(nodes[i], pokemonMap, evolutionMap)
  }

  lemma {:induction false} BuildNodeWellBuilt(current: Pokemon, pokemonMap: map<int, Pokemon>,
                                               evolutionMap: map<int, seq<Evolution>>, conditions: string, rank: int -> nat)
    requires KeyedById(pokemonMap) && RankedUpTo(evolutionMap, pokemonMap, rank, rank(current.id))
    ensures WellBuilt(BuildNode(current, pokemonMap, evolutionMap, conditions, rank), pokemonMap, evolutionMap)
    decreases rank(current.id), 1, 0
  {
    BuildChildrenWellBuilt(current.id, NextEvolutions(evolutionMap, current.id), pokemonMap, evolutionMap, rank);
  }

  lemma {:induction false} BuildChildrenWellBuilt(parentId: int, evolutions: seq<Evolution>, pokemonMap: map<int, Pokemon>,
                                                   evolutionMap: map<int, seq<Evolution>>, rank: int -> nat)
    requires KeyedById(pokemonMap) && RankedUpTo(evolutionMap, pokemonMap, rank, rank(parentId))
    requires forall e :: e in evolutions && e.toPokemonId in pokemonMap ==> rank(e.toPokemonId) < rank(parentId)
    ensures AllWellBuilt(BuildChildren(parentId, evolutions, pokemonMap, evolutionMap, rank), pokemonMap, evolutionMap)
    decreases rank(parentId), 0, |evolutions|
  {
    if evolutions != [] {
      var evo := evolutions[0];
      var rest := BuildChildren(parentId, evolutions[1..], pokemonMap, evolutionMap, rank);
      BuildChildrenWellBuilt(parentId, evolutions[1..], pokemonMap, evolutionMap, rank);
      if evo.toPokemonId in pokemonMap {
        var child := BuildNode(pokemonMap[evo.toPokemonId], pokemonMap, evolutionMap, evo.evolutionConditions, rank);
        BuildNodeWellBuilt(pokemonMap[evo.toPokemonId], pokemonMap, evolutionMap, evo.evolutionConditions, rank);
        var children := [child] + rest;
        assert forall i :: 0 < i < |children| ==> children[i] == rest[i - 1];
      }
    }
  }

  /** The whole returned tree is well built. */
  lemma EvolutionTreeWellBuilt(chain: seq<Pokemon>, evolutions: seq<Evolution>, rank: int -> nat)
    requires TreeRanked(chain, evolutions, rank)
    requires EvolutionTree(chain, evolutions, rank).Some?
    ensures WellBuilt(EvolutionTree(chain, evolutions, rank).value, ById(chain), Grouped(evolutions))
  {
    var i := FindRoot(chain, Targets(evolutions)).value;
    BuildNodeWellBuilt(chain[i], ById(chain), Grouped(evolutions), "N/A", rank);
  }

  // ------------------------------------------------------------ every node is a loaded record

  /** The projections of the records the lookup table holds. */
  ghost function LoadedInfos(pokemonMap: map<int, Pokemon>): set<PokemonInfo>
  {
    set k | k in pokemonMap :: FromEntity(pokemonMap[k])
  }

  lemma {:induction false} BuildNodeWrapsLoaded(current: Pokemon, pokemonMap: map<int, Pokemon>,
                                                evolutionMap: map<int, seq<Evolution>>, conditions: string, rank: int -> nat)
    requires KeyedById(pokemonMap) && RankedUpTo(evolutionMap, pokemonMap, rank, rank(current.id))
    ensures forall x :: x in Infos(BuildNode(current, pokemonMap, evolutionMap, conditions, rank)) ==>
              x == FromEntity(current) || x in LoadedInfos(pokemonMap)
    decreases rank(current.id), 1, 0
  {
    BuildChildrenWrapLoaded(current.id, NextEvolutions(evolutionMap, current.id), pokemonMap, evolutionMap, rank);
  }

  lemma {:induction false} BuildChildrenWrapLoaded(parentId: int, evolutions: seq<Evolution>, pokemonMap: map<int, Pokemon>,
                                                    evolutionMap: map<int, seq<Evolution>>, rank: int -> nat)
    requires KeyedById(pokemonMap) && RankedUpTo(evolutionMap, pokemonMap, rank, rank(parentId))
    requires forall e :: e in evolutions && e.toPokemonId in pokemonMap ==> rank(e.toPokemonId) < rank(parentId)
    ensures forall x :: x in InfosAll(BuildChildren(parentId, evolutions, pokemonMap, evolutionMap, rank)) ==>
              x in LoadedInfos(pokemonMap)
    decreases rank(parentId), 0, |evolutions|
  {
    if evolutions != [] {
      var evo := evolutions[0];
      var rest := BuildChildren(parentId, evolutions[1..], pokemonMap, evolutionMap, rank);
      BuildChildrenWrapLoaded(parentId, evolutions[1..], pokemonMap, evolutionMap, rank);
      if evo.toPokemonId in pokemonMap {
        var next := pokemonMap[evo.toPokemonId];
        var child := BuildNode(next, pokemonMap, evolutionMap, evo.evolutionConditions, rank);
        BuildNodeWrapsLoaded(next, pokemonMap, evolutionMap, evo.evolutionConditions, rank);
        InfosAllCons(child, rest);
        assert FromEntity(next) in LoadedInfos(pokemonMap);
      }
    }
  }

  /** Every node of the returned tree wraps the projection of a record of the loaded chain. */
  lemma EveryNodeWrapsChainRecord(chain: seq<Pokemon>, evolutions: seq<Evolution>, rank: int -> nat)
    requires TreeRanked(chain, evolutions, rank)
    requires EvolutionTree(chain, evolutions, rank).Some?
    ensures forall x :: x in Infos(EvolutionTree(chain, evolutions, rank).value) ==> x in Projections(chain)
  {
    var i := FindRoot(chain, Targets(evolutions)).value;
    var pokemonMap := ById(chain);
    var tree := BuildNode(chain[i], pokemonMap, Grouped(evolutions), "N/A", rank);
    assert tree == EvolutionTree(chain, evolutions, rank).value;
    BuildNodeWrapsLoaded(chain[i], pokemonMap, Grouped(evolutions), "N/A", rank);
    forall x | x in Infos(tree)
      ensures x in Projections(chain)
    {
      if x == FromEntity(chain[i]) {
        assert Projections(chain)[i] == x;
      } else {
        var k :| k in pokemonMap && x == FromEntity(pokemonMap[k]);
        var j :| 0 <= j < |chain| && chain[j] == pokemonMap[k];
        assert Projections(chain)[j] == x;
      }
    }
  }

  // ------------------------------------------------------------ cyclic chains

  /** A record of chain 1 with the given id and every other field empty. */
  function Record(id: int): (p: Pokemon)
    ensures p.id == id && p.evolutionChainId == Some(1)
  {
    Pokemon(id, "", "", "", "", "", None, None, None, None, "", None, Some(1))
  }

  /**
   * Two records evolving into each other: each is a relation's target, so
   * there is no root and the tree is absent, whatever the rank.
   */
  lemma CycleThroughEveryRecordHasNoTree(rank: int -> nat)
    ensures var chain, evolutions := [Record(1), Record(2)], [Evolution(1, 2, "N/A"), Evolution(2, 1, "N/A")];
            FindRoot(chain, Targets(evolutions)).None? && TreeRanked(chain, evolutions, rank)
    ensures EvolutionTree([Record(1), Record(2)], [Evolution(1, 2, "N/A"), Evolution(2, 1, "N/A")], rank).None?
  {
    var chain, evolutions := [Record(1), Record(2)], [Evolution(1, 2, "N/A"), Evolution(2, 1, "N/A")];
    assert Targets(evolutions) == {1, 2} by {
      assert evolutions[0].toPokemonId == 2 && evolutions[1].toPokemonId == 1;
    }
  }

  /** A rank that puts record 1 below the pair of records 2 and 3. */
  function RootFirstRank(id: int): nat
  {
    if id == 1 then 0 else 1
  }

  /**
   * A root that no relation leaves is a lone node, whatever the relations
   * among the other records: `buildNode` never looks at them, so they only
   * need ranks above the root's.
   */
  lemma LeafRootIsLoneNode(chain: seq<Pokemon>, evolutions: seq<Evolution>, rank: int -> nat)
    requires FindRoot(chain, Targets(evolutions)).Some?
    requires var root := chain[FindRoot(chain, Targets(evolutions)).value];
             forall k :: k in SourceIds(evolutions) ==> rank(root.id) < rank(k)
    ensures TreeRanked(chain, evolutions, rank)
    ensures EvolutionTree(chain, evolutions, rank) == Some(FromPokemon(chain[FindRoot(chain, Targets(evolutions)).value]))
  {
    var root := chain[FindRoot(chain, Targets(evolutions)).value];
    assert root.id !in Grouped(evolutions);
  }

  /**
   * Records 2 and 3 evolve into each other and nothing reaches them from
   * record 1: record 1 is the root, its node has no children, and the cycle
   * is never visited.
   */
  lemma UnreachableCycleIsIgnored()
    ensures var chain, evolutions := [Record(1), Record(2), Record(3)], [Evolution(2, 3, "N/A"), Evolution(3, 2, "N/A")];
            TreeRanked(chain, evolutions, RootFirstRank)
    ensures EvolutionTree([Record(1), Record(2), Record(3)], [Evolution(2, 3, "N/A"), Evolution(3, 2, "N/A")], RootFirstRank)
            == Some(FromPokemon(Record(1)))
  {
    var chain, evolutions := [Record(1), Record(2), Record(3)], [Evolution(2, 3, "N/A"), Evolution(3, 2, "N/A")];
    assert 1 !in Targets(evolutions) && 1 !in SourceIds(evolutions) by {
      assert forall e :: e in evolutions ==> e.fromPokemonId != 1 && e.toPokemonId != 1;
    }
    assert FindRoot(chain, Targets(evolutions)) == Some(0);
    LeafRootIsLoneNode(chain, evolutions, RootFirstRank);
  }

  /**
   * The relations `buildNode` follows, one after the other, from the record
   * `start`: each is loaded, ends at a record of the chain, and leaves the
   * record the previous one ends at.
   */
  ghost predicate PathFrom(chain: seq<Pokemon>, evolutions: seq<Evolution>, path: seq<Evolution>, start: int)
  {
    && path != [] && path[0].fromPokemonId == start
    && (forall j :: 0 <= j < |path| ==> path[j] in evolutions && path[j].toPokemonId in IdSet(chain))
    && (forall j :: 0 < j < |path| ==> path[j].fromPokemonId == path[j - 1].toPokemonId)
  }

  /**
   * A rank that lets `buildNode` return from `start` strictly decreases
   * along the first `n` relations of every path from it.
   */
  lemma {:induction false} PathDescends(chain: seq<Pokemon>, evolutions: seq<Evolution>, rank: int -> nat,
                                        path: seq<Evolution>, start: int, n: nat)
    requires PathFrom(chain, evolutions, path, start) && 1 <= n <= |path|
    ensures RankedUpTo(Grouped(evolutions), ById(chain), rank, rank(start)) ==>
      forall i, j :: 0 <= i <= j < n ==> rank(path[j].toPokemonId) < rank(path[i].fromPokemonId)
  {
    var m, pokemonMap := Grouped(evolutions), ById(chain);
    var last := path[n - 1];
    GroupedKeepsEachOnce(evolutions, last);
    assert last in m[last.fromPokemonId] && last.toPokemonId in pokemonMap;
    if RankedUpTo(m, pokemonMap, rank, rank(start)) {
      if n > 1 {
        PathDescends(chain, evolutions, rank, path, start, n - 1);
        assert last.fromPokemonId == path[n - 2].toPokemonId;
      }
    }
  }

  /**
   * When a path of loaded relations from the root comes back to a record it
   * has already left, `buildNode` follows that cycle forever: no rank lets
   * it return.
   */
  lemma CycleReachableFromRootHasNoRank(chain: seq<Pokemon>, evolutions: seq<Evolution>, rank: int -> nat,
                                        path: seq<Evolution>, k: nat)
    requires FindRoot(chain, Targets(evolutions)).Some?
    requires PathFrom(chain, evolutions, path, chain[FindRoot(chain, Targets(evolutions)).value].id)
    requires k < |path| && path[|path| - 1].toPokemonId == path[k].fromPokemonId
    ensures !TreeRanked(chain, evolutions, rank)
  {
    var m, pokemonMap := Grouped(evolutions), ById(chain);
    var top := rank(chain[FindRoot(chain, Targets(evolutions)).value].id);
    PathDescends(chain, evolutions, rank, path, path[0].fromPokemonId, |path|);
    assert TreeRanked(chain, evolutions, rank) == RankedUpTo(m, pokemonMap, rank, top);
  }

  /** Record 1 evolves into record 2, which lies on a cycle with record 3. */
  lemma ReachableCycleHasNoRank(rank: int -> nat)
    ensures !TreeRanked([Record(1), Record(2), Record(3)],
                        [Evolution(1, 2, "N/A"), Evolution(2, 3, "N/A"), Evolution(3, 2, "N/A")], rank)
  {
    var chain := [Record(1), Record(2), Record(3)];
    var evolutions := [Evolution(1, 2, "N/A"), Evolution(2, 3, "N/A"), Evolution(3, 2, "N/A")];
    assert 1 !in Targets(evolutions) by {
      assert forall e :: e in evolutions ==> e.toPokemonId != 1;
    }
    assert FindRoot(chain, Targets(evolutions)) == Some(0);
    assert chain[1].id == 2 && chain[2].id == 3;
    assert PathFrom(chain, evolutions, evolutions, 1);
    CycleReachableFromRootHasNoRank(chain, evolutions, rank, evolutions, 1);
  }
}
