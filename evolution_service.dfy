/**
 * Reconstruction of the evolution tree of one chain from the stored records
 * and relations (`EvolutionService.buildEvolutionTree` and `buildNode`).
 *
 * The repositories are sequences in table order. `buildNode` has no visited
 * set, so it terminates only when the loaded relations are acyclic; this is
 * stated as a precondition through a ghost `rank` that strictly decreases
 * along every loaded relation.
 */
module EvolutionService {
  import opened Wrappers
  import opened Entities
  import opened PokemonInfoDto
  import opened EvolutionNodeDto

  // ------------------------------------------------------------ repository queries

  /** Records whose chain identifier is `chainId`, in table order. */
  function InChain(table: seq<Pokemon>, chainId: int): (r: seq<Pokemon>)
    ensures forall p :: p in r <==> p in table && p.evolutionChainId == Some(chainId)
  {
    if table == [] then []
    else (if table[0].evolutionChainId == Some(chainId) then [table[0]] else []) + InChain(table[1..], chainId)
  }

  predicate SortedById(s: seq<Pokemon>)
  {
    forall i, j :: 0 <= i < j < |s| ==> s[i].id <= s[j].id
  }

  lemma SortedCons(x: Pokemon, s: seq<Pokemon>)
    requires SortedById(s)
    requires forall y :: y in s ==> x.id <= y.id
    ensures SortedById([x] + s)
  {
    var r := [x] + s;
    forall i, j | 0 <= i < j < |r| ensures r[i].id <= r[j].id {
      assert r[j] == s[j - 1];
      if i > 0 {
        assert r[i] == s[i - 1];
      }
    }
  }

  function InsertById(p: Pokemon, s: seq<Pokemon>): (r: seq<Pokemon>)
    requires SortedById(s)
    ensures SortedById(r)
    ensures multiset(r) == multiset(s) + multiset{p}
  {
    if s == [] || p.id <= s[0].id then
      SortedCons(p, s);
      [p] + s
    else
      var rest := InsertById(p, s[1..]);
      InsertLowerBound(p, s, rest);
      SortedCons(s[0], rest);
      assert s == [s[0]] + s[1..];
      [s[0]] + rest
  }

  /** The head of a sorted list bounds the ids of what inserting a larger record into its tail gives. */
  lemma InsertLowerBound(p: Pokemon, s: seq<Pokemon>, rest: seq<Pokemon>)
    requires SortedById(s) && s != [] && s[0].id < p.id
    requires multiset(rest) == multiset(s[1..]) + multiset{p}
    ensures forall y :: y in rest ==> s[0].id <= y.id
  {
    forall y | y in rest
      ensures s[0].id <= y.id
    {
      assert y in multiset(rest);
      if y != p {
        assert y in s[1..];
      }
    }
  }

  /** Stable insertion sort on the id column (`order: { id: 'ASC' }`). */
  function SortById(s: seq<Pokemon>): (r: seq<Pokemon>)
    ensures SortedById(r)
    ensures multiset(r) == multiset(s)
  {
    if s == [] then []
    else
      assert s == [s[0]] + s[1..];
      InsertById(s[0], SortById(s[1..]))
  }

  /**
   * `pokemonRepository.find({ where: { evolutionChainId }, order: { id: 'ASC' } })`:
   * exactly the records of the chain, in ascending id order.
   */
  function ChainRecords(table: seq<Pokemon>, chainId: int): (r: seq<Pokemon>)
    ensures SortedById(r)
    ensures multiset(r) == multiset(InChain(table, chainId))
    ensures forall p :: p in r <==> p in table && p.evolutionChainId == Some(chainId)
  {
    var r := SortById(InChain(table, chainId));
    assert forall p :: p in r <==> p in multiset(InChain(table, chainId));
    r
  }

  function IdSet(chain: seq<Pokemon>): set<int>
  {
    set p | p in chain :: p.id
  }

  /** Relations whose source is one of `ids`, in table order. */
  function FromAnyOf(table: seq<Evolution>, ids: set<int>): (r: seq<Evolution>)
    ensures forall e :: e in r <==> e in table && e.fromPokemonId in ids
  {
    if table == [] then []
    else (if table[0].fromPokemonId in ids then [table[0]] else []) + FromAnyOf(table[1..], ids)
  }

  /** `evolutionRepository.find({ where: { fromPokemonId: In(ids of the chain) } })`. */
  function ChainRelations(table: seq<Evolution>, chain: seq<Pokemon>): (r: seq<Evolution>)
    ensures forall e :: e in r <==> e in table && e.fromPokemonId in IdSet(chain)
  {
    FromAnyOf(table, IdSet(chain))
  }

  // ------------------------------------------------------------ lookup tables

  /** `new Map(chain.map(p => [p.id, p]))`: a later record with the same id replaces an earlier one. */
  function ById(chain: seq<Pokemon>): (m: map<int, Pokemon>)
    ensures m.Keys == IdSet(chain)
    ensures forall k :: k in m ==> m[k].id == k && m[k] in chain
  {
    if chain == [] then map[]
    else
      var last := chain[|chain| - 1];
      var m := ById(chain[..|chain| - 1])[last.id := last];
      assert chain == chain[..|chain| - 1] + [last];
      m
  }

  /** The relations with source `k`, in load order. */
  function Outgoing(evolutions: seq<Evolution>, k: int): (r: seq<Evolution>)
    ensures forall e :: e in r <==> e in evolutions && e.fromPokemonId == k
    ensures r == [] <==> k !in SourceIds(evolutions)
  {
    if evolutions == [] then []
    else
      var last := evolutions[|evolutions| - 1];
      assert evolutions == evolutions[..|evolutions| - 1] + [last];
      Outgoing(evolutions[..|evolutions| - 1], k) + (if last.fromPokemonId == k then [last] else [])
  }

  /** Loading one more relation extends the group of its source and no other group. */
  lemma OutgoingSnoc(evolutions: seq<Evolution>, evo: Evolution, k: int)
    ensures Outgoing(evolutions + [evo], k) == Outgoing(evolutions, k) + (if evo.fromPokemonId == k then [evo] else [])
  {
    var s := evolutions + [evo];
    assert s[..|s| - 1] == evolutions;
  }

  /** Loading one more relation adds its source to the source ids. */
  lemma SourceIdsSnoc(evolutions: seq<Evolution>, evo: Evolution)
    ensures SourceIds(evolutions + [evo]) == SourceIds(evolutions) + {evo.fromPokemonId}
  {
  }

  function SourceIds(evolutions: seq<Evolution>): set<int>
  {
    set e | e in evolutions :: e.fromPokemonId
  }

  /** The grouping `evolutionMap` is meant to hold: every source, with its relations in load order. */
  function Grouped(evolutions: seq<Evolution>): (m: map<int, seq<Evolution>>)
    ensures forall k :: k in m ==> m[k] != [] && forall e :: e in m[k] ==> e in evolutions && e.fromPokemonId == k
  {
    map k | k in SourceIds(evolutions) :: Outgoing(evolutions, k)
  }

  /** `evolutionMap` holds, for every source id of `evolutions`, that source's relations in load order. */
  ghost predicate GroupsOf(evolutionMap: map<int, seq<Evolution>>, evolutions: seq<Evolution>)
  {
    && evolutionMap.Keys == SourceIds(evolutions)
    && forall k :: k in evolutionMap ==> evolutionMap[k] == Outgoing(evolutions, k)
  }

  /** One step of the `forEach`: appending `evo` to its source's group keeps the grouping exact. */
  lemma GroupStep(evolutionMap: map<int, seq<Evolution>>, evolutions: seq<Evolution>, evo: Evolution)
    requires GroupsOf(evolutionMap, evolutions)
    ensures GroupsOf(evolutionMap[evo.fromPokemonId := NextEvolutions(evolutionMap, evo.fromPokemonId) + [evo]],
                     evolutions + [evo])
  {
    SourceIdsSnoc(evolutions, evo);
    var m := evolutionMap[evo.fromPokemonId := NextEvolutions(evolutionMap, evo.fromPokemonId) + [evo]];
    forall k | k in m
      ensures m[k] == Outgoing(evolutions + [evo], k)
    {
      OutgoingSnoc(evolutions, evo, k);
      if k != evo.fromPokemonId {
        assert k in evolutionMap;
      } else if k !in evolutionMap {
        assert Outgoing(evolutions, k) == [];
      }
    }
  }

  /** Proof step of `GroupBySource`: a second `set` of the same key replaces the first. */
  lemma SetTwice(m: map<int, seq<Evolution>>, k: int, first: seq<Evolution>, second: seq<Evolution>)
    ensures m[k := first][k := second] == m[k := second]
  {
  }

  /**
   * The `forEach` that fills `evolutionMap`: one key per source id, holding
   * that source's relations in load order.
   */
  method GroupBySource(evolutions: seq<Evolution>) returns (evolutionMap: map<int, seq<Evolution>>)
    ensures evolutionMap.Keys == SourceIds(evolutions)
    ensures forall k :: k in evolutionMap ==> evolutionMap[k] == Outgoing(evolutions, k)
    ensures evolutionMap == Grouped(evolutions)
  {
    evolutionMap := map[];
    for i := 0 to |evolutions|
      invariant GroupsOf(evolutionMap, evolutions[..i])
    {
      var evo := evolutions[i];
      assert evolutions[..i + 1] == evolutions[..i] + [evo];
      GroupStep(evolutionMap, evolutions[..i], evo);
      ghost var before := evolutionMap;
      if evo.fromPokemonId !in evolutionMap {
        evolutionMap := evolutionMap[evo.fromPokemonId := []];
        SetTwice(before, evo.fromPokemonId, [], [evo]);
      }
      evolutionMap := evolutionMap[evo.fromPokemonId := evolutionMap[evo.fromPokemonId] + [evo]];
    }
    assert evolutions[..|evolutions|] == evolutions;
    GroupsOfIsGrouped(evolutionMap, evolutions);
  }

  lemma GroupsOfIsGrouped(evolutionMap: map<int, seq<Evolution>>, evolutions: seq<Evolution>)
    requires GroupsOf(evolutionMap, evolutions)
    ensures evolutionMap == Grouped(evolutions)
  {
  }

  /** Every relation lands in the group of its source exactly as often as it was loaded, and in no other group. */
  lemma {:induction false} OutgoingKeepsEachOnce(evolutions: seq<Evolution>, k: int, e: Evolution)
    ensures multiset(Outgoing(evolutions, k))[e] == if e.fromPokemonId == k then multiset(evolutions)[e] else 0
  {
    if evolutions != [] {
      var init := evolutions[..|evolutions| - 1];
      assert evolutions == init + [evolutions[|evolutions| - 1]];
      OutgoingKeepsEachOnce(init, k, e);
    }
  }

  /** `evolutionMap` is a partition of the loaded relations by source, in load order. */
  lemma GroupedKeepsEachOnce(evolutions: seq<Evolution>, e: Evolution)
    requires e in evolutions
    ensures e.fromPokemonId in Grouped(evolutions)
    ensures multiset(Grouped(evolutions)[e.fromPokemonId])[e] == multiset(evolutions)[e]
    ensures forall k :: k in Grouped(evolutions) && k != e.fromPokemonId ==> e !in Grouped(evolutions)[k]
  {
    OutgoingKeepsEachOnce(evolutions, e.fromPokemonId, e);
  }

  /** `new Set(evolutions.map(e => e.toPokemonId))`. */
  function Targets(evolutions: seq<Evolution>): (r: set<int>)
    ensures forall e :: e in evolutions ==> e.toPokemonId in r
    ensures forall id :: id in r ==> exists e :: e in evolutions && e.toPokemonId == id
  {
    set e | e in evolutions :: e.toPokemonId
  }

  /**
   * `chain.find(p => !evolvedFromIds.has(p.id))`, as an index: the first
   * record that is no relation's target, or `None` when every record is one.
   */
  function FindRoot(chain: seq<Pokemon>, targets: set<int>): (r: Option<nat>)
    ensures r.Some? ==> r.value < |chain| && chain[r.value].id !in targets
    ensures r.Some? ==> forall j :: 0 <= j < r.value ==> chain[j].id in targets
    ensures r.None? <==> forall p :: p in chain ==> p.id in targets
  {
    if chain == [] then None
    else if chain[0].id !in targets then Some(0)
    else match FindRoot(chain[1..], targets)
      case None => None
      case Some(i) => Some(i + 1)
  }

  // ------------------------------------------------------------ acyclicity

  /** All loaded relations are acyclic: `rank` strictly decreases from source to target along every one of them. */
  ghost predicate Ranked(evolutions: seq<Evolution>, rank: int -> nat)
  {
    forall e :: e in evolutions ==> rank(e.toPokemonId) < rank(e.fromPokemonId)
  }

  ghost predicate RankedMap(evolutionMap: map<int, seq<Evolution>>, rank: int -> nat)
  {
    forall k, e :: k in evolutionMap && e in evolutionMap[k] ==> rank(e.toPokemonId) < rank(k)
  }

  /**
   * `rank` orders the part of the relation graph that `buildNode` visits
   * from a record of rank at most `top`: from every id of rank at most
   * `top`, each relation whose target record is loaded leads to an id of
   * smaller rank. Ids `buildNode` never reaches can take a rank above `top`,
   * so a cycle among them does not matter. Given such a rank, `buildNode`
   * returns; when a path of loaded relations from the record revisits a
   * record, no such rank exists (`CycleReachableFromRootHasNoRank`).
   */
  ghost predicate RankedUpTo(evolutionMap: map<int, seq<Evolution>>, pokemonMap: map<int, Pokemon>, rank: int -> nat, top: nat)
  {
    forall k, e :: k in evolutionMap && e in evolutionMap[k] && e.toPokemonId in pokemonMap && rank(k) <= top ==>
      rank(e.toPokemonId) < rank(k)
  }

  /**
   * What the model of `buildEvolutionTree` asks for: when the chain has a
   * root, a rank that decreases along every relation `buildNode` follows
   * from it. A chain without a root needs nothing, since `buildNode` is
   * never called.
   */
  ghost predicate TreeRanked(chain: seq<Pokemon>, evolutions: seq<Evolution>, rank: int -> nat)
  {
    match FindRoot(chain, Targets(evolutions))
    case None => true
    case Some(i) => RankedUpTo(Grouped(evolutions), ById(chain), rank, rank(chain[i].id))
  }

  predicate KeyedById(pokemonMap: map<int, Pokemon>)
  {
    forall k :: k in pokemonMap ==> pokemonMap[k].id == k
  }

  lemma GroupedRanked(evolutions: seq<Evolution>, rank: int -> nat)
    requires Ranked(evolutions, rank)
    ensures RankedMap(Grouped(evolutions), rank)
  {
  }

  /** Acyclic relations let `buildNode` return from every record. */
  lemma RankedIsTreeRanked(chain: seq<Pokemon>, evolutions: seq<Evolution>, rank: int -> nat)
    requires Ranked(evolutions, rank)
    ensures TreeRanked(chain, evolutions, rank)
  {
    GroupedRanked(evolutions, rank);
  }


  /** A relation from a record to itself makes the relations cyclic. */
  lemma SelfLoopIsNotRanked(evolutions: seq<Evolution>, rank: int -> nat, e: Evolution)
    requires e in evolutions && e.fromPokemonId == e.toPokemonId
    ensures !Ranked(evolutions, rank)
  {
  }

  /** So does a pair of relations pointing at each other. */
  lemma TwoCycleIsNotRanked(evolutions: seq<Evolution>, rank: int -> nat, e1: Evolution, e2: Evolution)
    requires e1 in evolutions && e2 in evolutions
    requires e1.toPokemonId == e2.fromPokemonId && e2.toPokemonId == e1.fromPokemonId
    ensures !Ranked(evolutions, rank)
  {
  }

  // ------------------------------------------------------------ tree building

  /** `evolutionMap.get(id) || []`. */
  function NextEvolutions(evolutionMap: map<int, seq<Evolution>>, id: int): seq<Evolution>
  {
    if id in evolutionMap then evolutionMap[id] else []
  }

  /**
   * On the grouped relations, the relations read for `id` are exactly those
   * leaving `id`, in load order, and none for an id no relation leaves.
   */
  lemma NextEvolutionsOfGrouped(evolutions: seq<Evolution>, id: int)
    ensures NextEvolutions(Grouped(evolutions), id) == Outgoing(evolutions, id)
  {
  }

  /** The relations whose target record was loaded, in order; the others produce no child. */
  function Surviving(evolutions: seq<Evolution>, pokemonMap: map<int, Pokemon>): (r: seq<Evolution>)
    ensures forall e :: e in r <==> e in evolutions && e.toPokemonId in pokemonMap
  {
    if evolutions == [] then []
    else (if evolutions[0].toPokemonId in pokemonMap then [evolutions[0]] else []) + Surviving(evolutions[1..], pokemonMap)
  }

  /**
   * The children match the relations one for one and in order: child `j`
   * wraps the target record of relation `j` and carries its condition.
   */
  ghost predicate Mirrors(children: seq<EvolutionNode>, evolutions: seq<Evolution>, pokemonMap: map<int, Pokemon>)
  {
    && |children| == |evolutions|
    && forall j :: 0 <= j < |children| ==>
         && evolutions[j].toPokemonId in pokemonMap
         && children[j].pokemon == FromEntity(pokemonMap[evolutions[j].toPokemonId])
         && children[j].evolutionConditions == evolutions[j].evolutionConditions
  }

  /**
   * `buildNode`: the node of `current` with the given inbound condition; its
   * children are built from the relations leaving `current`, in load order,
   * skipping those whose target was not loaded.
   */
  function BuildNode(current: Pokemon, pokemonMap: map<int, Pokemon>, evolutionMap: map<int, seq<Evolution>>,
                     conditions: string, ghost rank: int -> nat): (node: EvolutionNode)
    requires KeyedById(pokemonMap) && RankedUpTo(evolutionMap, pokemonMap, rank, rank(current.id))
    ensures node.pokemon == FromEntity(current) && node.evolutionConditions == conditions
    ensures Mirrors(node.evolvesTo, Surviving(NextEvolutions(evolutionMap, current.id), pokemonMap), pokemonMap)
    decreases rank(current.id), 1, 0
  {
    var node := FromPokemon(current, conditions);
    var children := BuildChildren(current.id, NextEvolutions(evolutionMap, current.id), pokemonMap, evolutionMap, rank);
    node.(evolvesTo := children)
  }

  /** `nextEvolutions.map(...).filter(n => n !== null)`. */
  function BuildChildren(parentId: int, evolutions: seq<Evolution>, pokemonMap: map<int, Pokemon>,
                         evolutionMap: map<int, seq<Evolution>>, ghost rank: int -> nat): (children: seq<EvolutionNode>)
    requires KeyedById(pokemonMap) && RankedUpTo(evolutionMap, pokemonMap, rank, rank(parentId))
    requires forall e :: e in evolutions && e.toPokemonId in pokemonMap ==> rank(e.toPokemonId) < rank(parentId)
    ensures Mirrors(children, Surviving(evolutions, pokemonMap), pokemonMap)
    decreases rank(parentId), 0, |evolutions|
  {
    if evolutions == [] then []
    else
      var evo := evolutions[0];
      var rest := BuildChildren(parentId, evolutions[1..], pokemonMap, evolutionMap, rank);
      if evo.toPokemonId in pokemonMap then
        assert Surviving(evolutions, pokemonMap) == [evo] + Surviving(evolutions[1..], pokemonMap);
        var child := BuildNode(pokemonMap[evo.toPokemonId], pokemonMap, evolutionMap, evo.evolutionConditions, rank);
        MirrorsCons(child, rest, evo, Surviving(evolutions[1..], pokemonMap), pokemonMap);
        [child] + rest
      else
        assert Surviving(evolutions, pokemonMap) == Surviving(evolutions[1..], pokemonMap);
        rest
  }

  /** One step of `nextEvolutions.map(...).filter(...)`: the first relation's child, if any, then the rest. */
  lemma BuildChildrenStep(parentId: int, evolutions: seq<Evolution>, pokemonMap: map<int, Pokemon>,
                          evolutionMap: map<int, seq<Evolution>>, rank: int -> nat)
    requires KeyedById(pokemonMap) && RankedUpTo(evolutionMap, pokemonMap, rank, rank(parentId))
    requires forall e :: e in evolutions && e.toPokemonId in pokemonMap ==> rank(e.toPokemonId) < rank(parentId)
    requires evolutions != []
    ensures var evo := evolutions[0];
            BuildChildren(parentId, evolutions, pokemonMap, evolutionMap, rank)
            == (if evo.toPokemonId in pokemonMap
                then [BuildNode(pokemonMap[evo.toPokemonId], pokemonMap, evolutionMap, evo.evolutionConditions, rank)]
                else [])
               + BuildChildren(parentId, evolutions[1..], pokemonMap, evolutionMap, rank)
  {
  }

  lemma MirrorsCons(child: EvolutionNode, children: seq<EvolutionNode>, evo: Evolution,
                    evolutions: seq<Evolution>, pokemonMap: map<int, Pokemon>)
    requires Mirrors(children, evolutions, pokemonMap)
    requires evo.toPokemonId in pokemonMap
    requires child.pokemon == FromEntity(pokemonMap[evo.toPokemonId])
    requires child.evolutionConditions == evo.evolutionConditions
    ensures Mirrors([child] + children, [evo] + evolutions, pokemonMap)
  {
    var cs, es := [child] + children, [evo] + evolutions;
    forall j | 0 <= j < |cs|
      ensures es[j].toPokemonId in pokemonMap
      ensures cs[j].pokemon == FromEntity(pokemonMap[es[j].toPokemonId])
      ensures cs[j].evolutionConditions == es[j].evolutionConditions
    {
      if j > 0 {
        assert cs[j] == children[j - 1] && es[j] == evolutions[j - 1];
      }
    }
  }

  /** The tree `buildEvolutionTree` returns for the loaded records and relations of one chain. */
  function EvolutionTree(chain: seq<Pokemon>, evolutions: seq<Evolution>, ghost rank: int -> nat): (r: Option<EvolutionNode>)
    requires TreeRanked(chain, evolutions, rank)
    ensures r.None? <==> forall p :: p in chain ==> p.id in Targets(evolutions)
    ensures r.Some? ==> r.value.evolutionConditions == "N/A" && r.value.pokemon.id !in Targets(evolutions)
  {
    if chain == [] then None
    else match FindRoot(chain, Targets(evolutions))
      case None => None
      case Some(i) => Some(BuildNode(chain[i], ById(chain), Grouped(evolutions), "N/A", rank))
  }

  /**
   * `buildEvolutionTree(chainId)`: absent when the chain has no record or
   * when every record is the target of a loaded relation; otherwise the tree
   * rooted at the first record, in ascending id order, that no loaded
   * relation points to, with the sentinel as its condition.
   */
  method BuildEvolutionTree(pokemonTable: seq<Pokemon>, evolutionTable: seq<Evolution>, chainId: int,
                            ghost rank: int -> nat) returns (tree: Option<EvolutionNode>)
    requires var chain := ChainRecords(pokemonTable, chainId);
             TreeRanked(chain, ChainRelations(evolutionTable, chain), rank)
    ensures var chain := ChainRecords(pokemonTable, chainId);
            var evolutions := ChainRelations(evolutionTable, chain);
            tree == EvolutionTree(chain, evolutions, rank)
    ensures var chain := ChainRecords(pokemonTable, chainId);
            var evolutions := ChainRelations(evolutionTable, chain);
            tree.None? <==> forall p :: p in chain ==> p.id in Targets(evolutions)
    ensures tree.Some? ==> tree.value.evolutionConditions == "N/A"
  {
    var pokemonsInChain := ChainRecords(pokemonTable, chainId);
    if |pokemonsInChain| == 0 {
      return None;
    }
    var evolutions := ChainRelations(evolutionTable, pokemonsInChain);
    var pokemonMap := ById(pokemonsInChain);
    var evolutionMap := GroupBySource(evolutions);
    var evolvedFromIds := Targets(evolutions);
    var root := FindRoot(pokemonsInChain, evolvedFromIds);
    if root.None? {
      return None;
    }
    tree := Some(BuildNode(pokemonsInChain[root.value], pokemonMap, evolutionMap, "N/A", rank));
  }
}
