/**
 * The ingestion service object: the in-memory condition cache it fills,
 * the two tables it writes, and its methods, each proved against the
 * functions of `PokeApiIngestion` and `ConditionCache`.
 */
module PokeApiService {
  import opened Wrappers
  import opened JsText
  import opened Entities
  import opened LocalizedNames
  import opened EvolutionConditions
  import opened ConditionCache
  import opened PokeApiIngestion

  /** Proof step of `StoreBatches`: appending to a table in two steps appends the concatenation. */
  lemma AppendInSteps<T>(table: seq<T>, a: seq<T>, b: seq<T>)
    ensures (table + a) + b == table + (a + b)
  {
  }

  /** How far the batch loop of `StoreBatches` has read once its index is `i`. */
  function Min(a: nat, b: nat): nat
  {
    if a < b then a else b
  }

  class PokeApiService {
    /** The upstream API. */
    const catalog: Catalog
    /** `evolutionConditionsMap`: condition text by `"<from>-<to>"`. */
    var evolutionConditionsMap: map<string, string>
    /** The rows of the `pokemon` table, in insertion order. */
    var pokemonTable: seq<Pokemon>
    /** The rows of the `evolution` table, in insertion order. */
    var evolutionTable: seq<Evolution>
    /** The argument of every `pokemonRepository.save` call so far. */
    ghost var savedBatches: seq<seq<Pokemon>>

    constructor(catalog: Catalog, pokemonTable: seq<Pokemon>, evolutionTable: seq<Evolution>)
      ensures this.catalog == catalog
      ensures this.pokemonTable == pokemonTable && this.evolutionTable == evolutionTable
      ensures evolutionConditionsMap == map[] && savedBatches == []
    {
      this.catalog := catalog;
      this.pokemonTable := pokemonTable;
      this.evolutionTable := evolutionTable;
      evolutionConditionsMap := map[];
      savedBatches := [];
    }

    /** Seeds the tables unless the Pokemon table already holds the full count. */
    method OnModuleInit()
      modifies this
      ensures old(|pokemonTable|) >= TotalPokemonCount ==>
        && pokemonTable == old(pokemonTable) && evolutionTable == old(evolutionTable)
        && evolutionConditionsMap == old(evolutionConditionsMap) && savedBatches == old(savedBatches)
      ensures old(|pokemonTable|) < TotalPokemonCount ==>
        && evolutionConditionsMap == ApplyWrites(old(evolutionConditionsMap), CachedWrites(catalog))
        && pokemonTable == SeededRecords(catalog)
        && evolutionTable == SeededRelations(catalog, evolutionConditionsMap)
    {
      var count := |pokemonTable|;
      if count < TotalPokemonCount {
        SeedDatabase();
      }
    }

    /**
     * Clears both tables, caches every evolution condition, then fetches the
     * Pokemon list and stores it batch by batch: the records of each batch of
     * 50 entries are saved together when there are any, and every relation is
     * saved as its Pokemon is fetched. A failed list request leaves both
     * tables empty.
     */
    method SeedDatabase()
      modifies this
      ensures evolutionConditionsMap == ApplyWrites(old(evolutionConditionsMap), CachedWrites(catalog))
      ensures pokemonTable == SeededRecords(catalog)
      ensures evolutionTable == SeededRelations(catalog, evolutionConditionsMap)
      ensures catalog.pokemonList.None? ==> savedBatches == old(savedBatches)
      ensures catalog.pokemonList.Some? ==>
        savedBatches == old(savedBatches) + SavedBatches(catalog, Batches(catalog.pokemonList.value))
    {
      evolutionTable := [];
      pokemonTable := [];
      CacheAllEvolutionConditions();
      if catalog.pokemonList.None? {
        return;
      }
      StoreBatches(catalog.pokemonList.value);
    }

    /**
     * The batch loop of the seeding: walks the list 50 entries at a time and
     * hands each slice to `ProcessBatch`; the index steps by 50, so the last
     * slice may be shorter.
     */
    method StoreBatches(pokemonList: seq<Option<NamedResource>>)
      modifies this`evolutionTable, this`pokemonTable, this`savedBatches
      ensures pokemonTable == old(pokemonTable) + RecordsOf(catalog, EntryUrls(pokemonList))
      ensures evolutionTable == old(evolutionTable) + RelationsOf(catalog, evolutionConditionsMap, EntryUrls(pokemonList))
      ensures savedBatches == old(savedBatches) + SavedBatches(catalog, Batches(pokemonList))
    {
      ghost var processed: seq<seq<Option<NamedResource>>> := [];
      ghost var done := 0;
      var i := 0;
      assert pokemonList[..0] == [] && pokemonList[0..] == pokemonList;
      while i < |pokemonList|
        invariant done == Min(i, |pokemonList|)
        invariant Batches(pokemonList) == processed + Batches(pokemonList[done..])
        invariant pokemonTable == old(pokemonTable) + RecordsOf(catalog, EntryUrls(pokemonList[..done]))
        invariant evolutionTable == old(evolutionTable) + RelationsOf(catalog, evolutionConditionsMap, EntryUrls(pokemonList[..done]))
        invariant savedBatches == old(savedBatches) + SavedBatches(catalog, processed)
        decreases |pokemonList| - i
      {
        var end := BatchEnd(|pokemonList|, i);
        var batch := pokemonList[i..end];
        BatchesStep(pokemonList, processed, i);
        RecordsStep(catalog, pokemonList, i);
        RelationsStep(catalog, evolutionConditionsMap, pokemonList, i);
        SavedBatchesSnoc(catalog, processed, batch);
        assert done == i;
        AppendInSteps(old(pokemonTable), RecordsOf(catalog, EntryUrls(pokemonList[..i])), RecordsOf(catalog, EntryUrls(batch)));
        AppendInSteps(old(evolutionTable), RelationsOf(catalog, evolutionConditionsMap, EntryUrls(pokemonList[..i])),
                      RelationsOf(catalog, evolutionConditionsMap, EntryUrls(batch)));
        AppendInSteps(old(savedBatches), SavedBatches(catalog, processed), SavedBatches(catalog, [batch]));
        ProcessBatch(batch);
        processed := processed + [batch];
        done := end;
        i := i + BatchSize;
      }
      assert pokemonList[..done] == pokemonList;
      assert Batches(pokemonList[done..]) == [];
      assert Batches(pokemonList) == processed;
    }

    /**
     * One iteration of the seeding loop: fetches every entry of the batch that
     * has a url, and saves the records that did not fail in one call when
     * there is at least one.
     */
    method ProcessBatch(batch: seq<Option<NamedResource>>)
      modifies this`evolutionTable, this`pokemonTable, this`savedBatches
      ensures evolutionTable == old(evolutionTable) + RelationsOf(catalog, evolutionConditionsMap, EntryUrls(batch))
      ensures pokemonTable == old(pokemonTable) + RecordsOf(catalog, EntryUrls(batch))
      ensures savedBatches == old(savedBatches) + SavedBatches(catalog, [batch])
    {
      var urls := EntryUrls(batch);
      var pokemonDetails := FetchAll(urls);
      SavedBatchesOne(catalog, batch);
      ghost var saved := SavedBatches(catalog, [batch]);
      assert pokemonDetails == RecordsOf(catalog, urls);
      if |pokemonDetails| > 0 {
        assert saved == [pokemonDetails];
        pokemonTable := pokemonTable + pokemonDetails;
        savedBatches := savedBatches + [pokemonDetails];
      } else {
        assert saved == [] && pokemonTable == pokemonTable + pokemonDetails;
      }
    }

    /**
     * `Promise.all` over the urls, then the filter that drops the `null`
     * results: the records in url order, with every relation saved on the
     * way.
     */
    method FetchAll(urls: seq<string>) returns (pokemonDetails: seq<Pokemon>)
      modifies this`evolutionTable
      ensures pokemonDetails == RecordsOf(catalog, urls)
      ensures evolutionTable == old(evolutionTable) + RelationsOf(catalog, evolutionConditionsMap, urls)
    {
      pokemonDetails := [];
      var j := 0;
      while j < |urls|
        invariant 0 <= j <= |urls|
        invariant pokemonDetails == RecordsOf(catalog, urls[..j])
        invariant evolutionTable == old(evolutionTable) + RelationsOf(catalog, evolutionConditionsMap, urls[..j])
      {
        RecordsOfPrefix(catalog, urls, j);
        RelationsOfPrefix(catalog, evolutionConditionsMap, urls, j);
        var record := FetchPokemonDetails(urls[j]);
        if record.Some? {
          assert Yielded(catalog, urls[j]) == [record.value];
          pokemonDetails := pokemonDetails + [record.value];
        } else {
          assert Yielded(catalog, urls[j]) == [];
        }
        j := j + 1;
      }
      assert urls[..j] == urls;
    }

    /**
     * Fetches the detail at `url` and its species, saves the relation from
     * the species it evolves from (with the cached condition text), and
     * builds the record; any failure yields `None`, but a relation saved
     * before the failure stays saved.
     */
    method FetchPokemonDetails(url: string) returns (record: Option<Pokemon>)
      modifies this`evolutionTable
      ensures record == FetchedRecord(catalog, url)
      ensures evolutionTable == old(evolutionTable) + FetchedRelations(catalog, evolutionConditionsMap, url)
    {
      var detailResponse := catalog.detailAt(url);
      if detailResponse.None? {
        return None;
      }
      var d := detailResponse.value;
      var speciesResponse := catalog.speciesAt(d.speciesUrl);
      if speciesResponse.None? {
        return None;
      }
      var s := speciesResponse.value;
      assert Fetched(catalog, url) == Some((d, s));

      SaveRelation(d, s);
      record := BuildRecord(d, s);
    }

    /**
     * The relation step of the detail fetch: when the species evolves from
     * another one whose id parses, saves the edge with its cached condition
     * text, or `"N/A"` when nothing (or only `""`) is cached under its key.
     */
    method SaveRelation(d: PokemonDetail, s: Species)
      modifies this`evolutionTable
      ensures evolutionTable == old(evolutionTable) + (match RelationOf(evolutionConditionsMap, d, s) case Some(e) => [e] case None => [])
    {
      if s.evolvesFromSpeciesUrl.Some? {
        var fromPokemonId := ResourceIdViaSlice(s.evolvesFromSpeciesUrl.value);
        if fromPokemonId.Some? {
          var key := CacheKey(fromPokemonId.value, d.id);
          var conditions := CachedCondition(evolutionConditionsMap, key);
          evolutionTable := evolutionTable + [Evolution(fromPokemonId.value, d.id, conditions)];
        } else {
          assert RelationOf(evolutionConditionsMap, d, s).None?;
        }
      }
    }

    /**
     * The record step of the detail fetch: the Korean names and texts, the
     * chain id, and the sprites with their fallbacks; `None` when the
     * animated or the official-artwork sprite set is missing.
     */
    method BuildRecord(d: PokemonDetail, s: Species) returns (record: Option<Pokemon>)
      ensures record == RecordOf(catalog.namesAt, d, s)
    {
      var evolutionChainId: Option<int> := None;
      if s.evolutionChainUrl.Some? && s.evolutionChainUrl.value != "" {
        var parsedId := ResourceId(s.evolutionChainUrl.value);
        if parsedId.Some? {
          evolutionChainId := parsedId;
        }
      }
      assert evolutionChainId == ChainIdOf(s);

      var types := GetKoreanNames(d.types, catalog.namesAt);
      var abilities := GetKoreanNames(d.abilities, catalog.namesAt);
      var generationNumber := ResourceId(s.generationUrl);

      if d.sprites.animated.None? || d.sprites.artwork.None? {
        return None;
      }
      var animated := d.sprites.animated.value;
      var artwork := d.sprites.artwork.value;
      record := Some(Pokemon(
        id := d.id,
        name := FindKoreanName(s.names),
        status := Join(Decimals(d.baseStats), ","),
        classification := FindKoreanName(s.genera, "genus"),
        characteristic := Join(abilities, ","),
        attribute := Join(types, ","),
        dotImage := animated.frontDefault,
        dotShinyImage := animated.frontShiny,
        image := Or(artwork.frontDefault, d.sprites.frontDefault),
        shinyImage := Or(artwork.frontShiny, d.sprites.frontShiny),
        description := FindKoreanFlavorText(s.flavorTextEntries),
        generation := generationNumber,
        evolutionChainId := evolutionChainId));
    }

    /**
     * Walks every evolution chain of the chain list and caches its
     * conditions; a chain whose request fails, or whose walk throws, is
     * skipped, keeping what it wrote before the failure.
     */
    method CacheAllEvolutionConditions()
      modifies this`evolutionConditionsMap
      ensures evolutionConditionsMap == ApplyWrites(old(evolutionConditionsMap), CachedWrites(catalog))
      ensures pokemonTable == old(pokemonTable) && evolutionTable == old(evolutionTable)
      ensures savedBatches == old(savedBatches)
    {
      if catalog.chainList.None? {
        return;
      }
      var allChains := catalog.chainList.value;
      var i := 0;
      while i < |allChains|
        invariant 0 <= i <= |allChains|
        invariant evolutionConditionsMap == ApplyWrites(old(evolutionConditionsMap), ChainWrites(catalog, allChains[..i]))
      {
        var response := catalog.chainAt(allChains[i]);
        ChainWritesPrefix(catalog, allChains, i);
        if response.Some? {
          ApplyWritesAppend(old(evolutionConditionsMap), ChainWrites(catalog, allChains[..i]), WalkLink(Actions(catalog.namesAt), response.value).writes);
          var _ := ParseChainForCaching(response.value);
        } else {
          assert ChainWrites(catalog, allChains[..i + 1]) == ChainWrites(catalog, allChains[..i]);
        }
        i := i + 1;
      }
      assert allChains[..i] == allChains;
    }

    /**
     * Caches the condition text of every edge below `link` whose two ids
     * parse, depth first; `false` when a name lookup failed, which ends the
     * walk with the writes made so far kept.
     */
    method ParseChainForCaching(link: ChainLink) returns (ok: bool)
      modifies this`evolutionConditionsMap
      ensures ok == WalkLink(Actions(catalog.namesAt), link).complete
      ensures evolutionConditionsMap == ApplyWrites(old(evolutionConditionsMap), WalkLink(Actions(catalog.namesAt), link).writes)
      decreases link, 1
    {
      if |link.evolvesTo| == 0 {
        return true;
      }
      var fromPokemonId := ResourceIdViaSlice(link.speciesUrl);
      var i := 0;
      while i < |link.evolvesTo|
        invariant 0 <= i <= |link.evolvesTo|
        invariant WalkChildren(Actions(catalog.namesAt), link, i).complete
        invariant evolutionConditionsMap == ApplyWrites(old(evolutionConditionsMap), WalkChildren(Actions(catalog.namesAt), link, i).writes)
      {
        ghost var before := WalkChildren(Actions(catalog.namesAt), link, i).writes;
        ghost var step := WalkEdge(Actions(catalog.namesAt), link, link.evolvesTo[i]);
        assert WalkChildren(Actions(catalog.namesAt), link, i + 1) == Walk(before + step.writes, step.complete);
        var edgeOk := CacheEdge(link, fromPokemonId, link.evolvesTo[i]);
        ApplyWritesAppend(old(evolutionConditionsMap), before, step.writes);
        if !edgeOk {
          FailureStops(Actions(catalog.namesAt), link, i + 1, |link.evolvesTo|);
          return false;
        }
        i := i + 1;
      }
      return true;
    }

    /**
     * One iteration of the walk's loop: caches the condition text of the
     * edge from `link` to `evolution` when both ids parse, then walks below
     * `evolution`.
     */
    method CacheEdge(link: ChainLink, fromPokemonId: Option<int>, evolution: ChainLink) returns (ok: bool)
      requires evolution in link.evolvesTo
      requires fromPokemonId == ResourceIdViaSlice(link.speciesUrl)
      modifies this`evolutionConditionsMap
      ensures ok == WalkEdge(Actions(catalog.namesAt), link, evolution).complete
      ensures evolutionConditionsMap == ApplyWrites(old(evolutionConditionsMap), WalkEdge(Actions(catalog.namesAt), link, evolution).writes)
      decreases link, 0
    {
      ghost var act := Actions(catalog.namesAt);
      ghost var below := WalkLink(act, evolution);
      var action := EdgeActionAt(link, fromPokemonId, evolution);
      assert act(link, evolution) == action;
      match action
      case Throw =>
        return false;
      case Skip =>
        ok := ParseChainForCaching(evolution);
      case Write(w) =>
        assert WalkEdge(act, link, evolution) == Walk([w] + below.writes, below.complete);
        WriteFirst(evolutionConditionsMap, w, below.writes);
        evolutionConditionsMap := evolutionConditionsMap[w.key := w.conditions];
        ok := ParseChainForCaching(evolution);
    }

    /**
     * The first half of one iteration of the walk's loop: parses the
     * child's id and, when both ids parse, formats the child's conditions.
     */
    method EdgeActionAt(link: ChainLink, fromPokemonId: Option<int>, evolution: ChainLink) returns (action: EdgeAction)
      requires fromPokemonId == ResourceIdViaSlice(link.speciesUrl)
      ensures action == ActionOf(catalog.namesAt, link, evolution)
    {
      var toPokemonId := ResourceIdViaSlice(evolution.speciesUrl);
      if fromPokemonId.Some? && toPokemonId.Some? {
        var conditions := FormatEvolutionConditions(evolution.evolutionDetails);
        if conditions.None? {
          return Throw;
        }
        ConditionTextNonEmpty(evolution.evolutionDetails, catalog.namesAt);
        return Write(CacheWrite(CacheKey(fromPokemonId.value, toPokemonId.value), conditions.value));
      }
      return Skip;
    }

    /**
     * The condition text of the first evolution detail, the clauses pushed
     * one by one; `None` when a name request fails.
     */
    method FormatEvolutionConditions(details: seq<EvolutionDetail>) returns (text: Option<string>)
      ensures text == ConditionText(details, catalog.namesAt)
    {
      if |details| == 0 {
        return Some(Sentinel);
      }
      var detail := details[0];
      var conditions: seq<string> := [];
      var trigger := NameAt(catalog.namesAt, detail.triggerUrl);
      if trigger.None? {
        return None;
      }
      ghost var level: seq<string> := if Truthy(detail.minLevel) then [LevelClause(detail.minLevel.value)] else [];
      if Truthy(detail.minLevel) {
        conditions := conditions + [LevelClause(detail.minLevel.value)];
      }
      assert conditions == level;
      var itemName: Option<string> := None;
      if detail.itemUrl.Some? {
        itemName := NameAt(catalog.namesAt, detail.itemUrl.value);
        if itemName.None? {
          return None;
        }
        conditions := conditions + [ItemClause(itemName.value)];
      }
      ghost var item: seq<string> := if itemName.Some? then [ItemClause(itemName.value)] else [];
      assert conditions == level + item;
      if Truthy(detail.minHappiness) {
        conditions := conditions + [HappinessClause(detail.minHappiness.value)];
      }
      ghost var happiness: seq<string> := if Truthy(detail.minHappiness) then [HappinessClause(detail.minHappiness.value)] else [];
      assert conditions == level + item + happiness;
      var heldItemName: Option<string> := None;
      if detail.heldItemUrl.Some? {
        heldItemName := NameAt(catalog.namesAt, detail.heldItemUrl.value);
        if heldItemName.None? {
          return None;
        }
        conditions := conditions + [HeldItemClause(heldItemName.value)];
      }
      ghost var heldItem: seq<string> := if heldItemName.Some? then [HeldItemClause(heldItemName.value)] else [];
      assert conditions == level + item + happiness + heldItem;
      if detail.timeOfDay != "" {
        conditions := conditions + [if detail.timeOfDay == "day" then Daytime else Nighttime];
      }
      ghost var timeOfDay: seq<string> := if detail.timeOfDay != "" then [if detail.timeOfDay == "day" then Daytime else Nighttime] else [];
      assert conditions == level + item + happiness + heldItem + timeOfDay;
      if trigger.value != "" {
        conditions := conditions + [trigger.value];
      }
      assert conditions == level + item + happiness + heldItem + timeOfDay + (if trigger.value != "" then [trigger.value] else []);
      return Some(Join(conditions, Separator));
    }
  }
}
