/**
 * What the PokeAPI ingestion service reads and what it derives from it: the
 * upstream catalog (every HTTP request the service makes is a lookup that
 * may fail), the record and the relation one Pokemon url yields, the batches
 * the seeding loop walks, and the conditions cached from every evolution
 * chain.
 */
module PokeApiIngestion {
  import opened Wrappers
  import opened JsText
  import opened Entities
  import opened LocalizedNames
  import opened EvolutionConditions
  import opened ConditionCache

  /** The seeding threshold: the number of Pokemon the upstream list is asked for. */
  const TotalPokemonCount: nat := 1032
  const BatchSize: nat := 50

  /** `sprites.versions['generation-v']['black-white'].animated`. */
  datatype AnimatedSprites = AnimatedSprites(frontDefault: Option<string>, frontShiny: Option<string>)

  /** `sprites.other['official-artwork']`. */
  datatype ArtworkSprites = ArtworkSprites(frontDefault: Option<string>, frontShiny: Option<string>)

  /**
   * The sprite paths the record reads; a `None` object is a path that is
   * missing from the response, which makes reading below it throw.
   */
  datatype Sprites = Sprites(
    animated: Option<AnimatedSprites>,
    artwork: Option<ArtworkSprites>,
    frontDefault: Option<string>,
    frontShiny: Option<string>)

  /** The parts of a `/pokemon/{id}` response the service reads. */
  datatype PokemonDetail = PokemonDetail(
    id: int,
    speciesUrl: string,
    baseStats: seq<int>,
    types: seq<NamedResource>,
    abilities: seq<NamedResource>,
    sprites: Sprites)

  /**
   * The parts of a `/pokemon-species/{id}` response the service reads:
   * `evolution_chain?.url` and `evolves_from_species?.url` are `None` when
   * the object is absent.
   */
  datatype Species = Species(
    names: seq<NameEntry>,
    genera: seq<NameEntry>,
    flavorTextEntries: seq<FlavorEntry>,
    evolutionChainUrl: Option<string>,
    evolvesFromSpeciesUrl: Option<string>,
    generationUrl: string)

  /**
   * The upstream API as the service sees it; `None` is a failed request.
   * `pokemonList` is `results` of the Pokemon list (a `None` entry is a
   * `null` one), `chainList` the urls of the evolution-chain list.
   */
  datatype Catalog = Catalog(
    pokemonList: Option<seq<Option<NamedResource>>>,
    chainList: Option<seq<string>>,
    chainAt: string -> Option<ChainLink>,
    detailAt: string -> Option<PokemonDetail>,
    speciesAt: string -> Option<Species>,
    namesAt: string -> Option<seq<NameEntry>>)

  // ------------------------------------------------------------ one Pokemon

  /** JavaScript `a || b` on two nullable strings. */
  function Or(a: Option<string>, b: Option<string>): Option<string>
  {
    if a.Some? && a.value != "" then a else b
  }

  /** `ns.join(',')` on numbers: their decimal renderings, comma-separated. */
  function Decimals(ns: seq<int>): (r: seq<string>)
    ensures |r| == |ns|
    ensures forall i :: 0 <= i < |ns| ==> r[i] == IntToDecimal(ns[i])
  {
    if ns == [] then [] else [IntToDecimal(ns[0])] + Decimals(ns[1..])
  }

  function StatusOf(baseStats: seq<int>): (r: string)
    ensures baseStats != [] ==> Split(r, ',') == Decimals(baseStats)
  {
    var ds := Decimals(baseStats);
    assert baseStats != [] ==> Split(Join(ds, ","), ',') == ds by {
      if baseStats != [] {
        forall i | 0 <= i < |ds|
          ensures ',' !in ds[i]
        {
          var d := ds[i];
          assert forall j :: 0 <= j < |d| ==> d[j] != ',';
        }
        SplitJoin(ds, ',');
      }
    }
    Join(ds, ",")
  }

  /** The evolution-chain id: read only from a non-empty reference, absent when it does not parse. */
  function ChainIdOf(species: Species): (r: Option<int>)
    ensures r.Some? ==> && species.evolutionChainUrl.Some? && species.evolutionChainUrl.value != ""
                        && r == ResourceId(species.evolutionChainUrl.value)
  {
    if species.evolutionChainUrl.Some? && species.evolutionChainUrl.value != "" then ResourceId(species.evolutionChainUrl.value)
    else None
  }

  /** The cached condition text under `key`, or the sentinel when it is missing or empty. */
  function CachedCondition(cache: map<string, string>, key: string): (r: string)
    ensures r != ""
  {
    if key in cache && cache[key] != "" then cache[key] else Sentinel
  }

  /** The relation a species that evolves from another yields, when the source id parses. */
  function RelationOf(cache: map<string, string>, detail: PokemonDetail, species: Species): (r: Option<Evolution>)
    ensures r.Some? <==> species.evolvesFromSpeciesUrl.Some? && ResourceId(species.evolvesFromSpeciesUrl.value).Some?
    ensures r.Some? ==> && r.value.fromPokemonId == ResourceId(species.evolvesFromSpeciesUrl.value).value
                        && r.value.toPokemonId == detail.id && r.value.evolutionConditions != ""
  {
    if species.evolvesFromSpeciesUrl.None? then None
    else
      match ResourceIdViaSlice(species.evolvesFromSpeciesUrl.value)
      case None => None
      case Some(fromId) => Some(Evolution(fromId, detail.id, CachedCondition(cache, CacheKey(fromId, detail.id))))
  }

  /** The record built from a detail and its species; `None` when a sprite path is missing. */
  function RecordOf(namesAt: string -> Option<seq<NameEntry>>, detail: PokemonDetail, species: Species): (r: Option<Pokemon>)
    ensures r.None? <==> detail.sprites.animated.None? || detail.sprites.artwork.None?
    ensures r.Some? ==> r.value.id == detail.id && r.value.name != "" && r.value.classification != ""
  {
    if detail.sprites.animated.None? || detail.sprites.artwork.None? then None
    else
      var animated := detail.sprites.animated.value;
      var artwork := detail.sprites.artwork.value;
      Some(Pokemon(
        id := detail.id,
        name := FindKoreanName(species.names),
        status := StatusOf(detail.baseStats),
        classification := FindKoreanName(species.genera, "genus"),
        characteristic := Join(GetKoreanNames(detail.abilities, namesAt), ","),
        attribute := Join(GetKoreanNames(detail.types, namesAt), ","),
        dotImage := animated.frontDefault,
        dotShinyImage := animated.frontShiny,
        image := Or(artwork.frontDefault, detail.sprites.frontDefault),
        shinyImage := Or(artwork.frontShiny, detail.sprites.frontShiny),
        description := FindKoreanFlavorText(species.flavorTextEntries),
        generation := ResourceId(species.generationUrl),
        evolutionChainId := ChainIdOf(species)))
  }

  /** The detail at `url` and the species it references, when both requests succeed. */
  function Fetched(catalog: Catalog, url: string): (r: Option<(PokemonDetail, Species)>)
    ensures r.Some? <==> catalog.detailAt(url).Some? && catalog.speciesAt(catalog.detailAt(url).value.speciesUrl).Some?
    ensures r.Some? ==> catalog.detailAt(url) == Some(r.value.0) && catalog.speciesAt(r.value.0.speciesUrl) == Some(r.value.1)
  {
    match catalog.detailAt(url)
    case None => None
    case Some(detail) =>
      match catalog.speciesAt(detail.speciesUrl)
      case None => None
      case Some(species) => Some((detail, species))
  }

  /** `fetchPokemonDetails(url)`: the record, `None` for `null`. */
  function FetchedRecord(catalog: Catalog, url: string): (r: Option<Pokemon>)
    ensures r.Some? ==> Fetched(catalog, url).Some? && r.value.id == Fetched(catalog, url).value.0.id
    ensures r.Some? ==> r.value.name != "" && r.value.classification != ""
  {
    match Fetched(catalog, url)
    case None => None
    case Some(pair) => RecordOf(catalog.namesAt, pair.0, pair.1)
  }

  /** The relations `fetchPokemonDetails(url)` saves: none or one. */
  function FetchedRelations(catalog: Catalog, cache: map<string, string>, url: string): (r: seq<Evolution>)
    ensures |r| <= 1
  {
    match Fetched(catalog, url)
    case None => []
    case Some(pair) =>
      match RelationOf(cache, pair.0, pair.1)
      case None => []
      case Some(e) => [e]
  }

  /**
   * The relation is saved before the record is built: a record that fails
   * on a missing sprite path still leaves its relation behind.
   */
  lemma RelationSurvivesFailedRecord(catalog: Catalog, cache: map<string, string>, url: string)
    requires Fetched(catalog, url).Some?
    requires var (detail, species) := Fetched(catalog, url).value;
      && species.evolvesFromSpeciesUrl.Some?
      && ResourceId(species.evolvesFromSpeciesUrl.value).Some?
      && detail.sprites.animated.None?
    ensures FetchedRecord(catalog, url).None?
    ensures |FetchedRelations(catalog, cache, url)| == 1
  {
  }

  /**
   * The saved relation goes from the species it evolves from to this
   * Pokemon, and carries the cached text for that pair, or `"N/A"` when
   * none is cached (a cached text is never empty).
   */
  lemma RelationReadsCache(catalog: Catalog, cache: map<string, string>, url: string)
    requires forall k :: k in cache ==> cache[k] != ""
    requires FetchedRelations(catalog, cache, url) != []
    ensures var (detail, species) := Fetched(catalog, url).value;
      var e := FetchedRelations(catalog, cache, url)[0];
      var key := CacheKey(e.fromPokemonId, e.toPokemonId);
      && species.evolvesFromSpeciesUrl.Some?
      && ResourceId(species.evolvesFromSpeciesUrl.value) == Some(e.fromPokemonId)
      && e.toPokemonId == detail.id
      && e.evolutionConditions == (if key in cache then cache[key] else Sentinel)
  {
  }

  /**
   * The stored status lists the base stats: split at the commas and parsed
   * back, it gives each stat in order.
   */
  lemma StatusRoundTrip(baseStats: seq<int>)
    requires baseStats != []
    ensures var parts := Split(StatusOf(baseStats), ',');
      && |parts| == |baseStats|
      && forall i :: 0 <= i < |parts| ==> ParseInt(parts[i]) == Some(baseStats[i])
  {
    var ds := Decimals(baseStats);
    forall i | 0 <= i < |ds|
      ensures ',' !in ds[i]
    {
      var d := ds[i];
      assert forall j :: 0 <= j < |d| ==> d[j] != ',';
    }
    SplitJoin(ds, ',');
    forall i | 0 <= i < |ds|
      ensures ParseInt(ds[i]) == Some(baseStats[i])
    {
      ParseIntOfDecimal(baseStats[i]);
    }
  }

  /**
   * The stored types list one name per type, in order: the Korean name when
   * that lookup succeeds, the raw name otherwise (for names without a comma).
   */
  lemma AttributeListsEveryType(catalog: Catalog, url: string)
    requires FetchedRecord(catalog, url).Some?
    requires var detail := Fetched(catalog, url).value.0;
      && detail.types != []
      && forall i :: 0 <= i < |detail.types| ==> ',' !in GetKoreanNames(detail.types, catalog.namesAt)[i]
    ensures var detail := Fetched(catalog, url).value.0;
      Split(FetchedRecord(catalog, url).value.attribute, ',') == GetKoreanNames(detail.types, catalog.namesAt)
  {
    var detail := Fetched(catalog, url).value.0;
    SplitJoin(GetKoreanNames(detail.types, catalog.namesAt), ',');
  }

  /**
   * The chain id is read from a canonical `<prefix>/<id>/` reference, and is
   * absent when the reference is missing, empty or has no `/`.
   */
  lemma ChainIdOfReference(species: Species, prefix: string, id: int)
    ensures species.evolutionChainUrl == Some(prefix + "/" + IntToDecimal(id) + "/") ==> ChainIdOf(species) == Some(id)
    ensures species.evolutionChainUrl.None? || species.evolutionChainUrl == Some("") ==> ChainIdOf(species).None?
    ensures species.evolutionChainUrl.Some? && '/' !in species.evolutionChainUrl.value ==> ChainIdOf(species).None?
  {
    ResourceIdOfCanonicalUrl(prefix, id);
    if species.evolutionChainUrl.Some? && '/' !in species.evolutionChainUrl.value {
      NoSlashMeansNaN(species.evolutionChainUrl.value);
    }
  }

  /** The image falls back to the plain front sprite when the artwork is missing or empty. */
  lemma ImageFallback(catalog: Catalog, url: string)
    requires FetchedRecord(catalog, url).Some?
    ensures var sprites := Fetched(catalog, url).value.0.sprites;
      var artwork := sprites.artwork.value;
      var image := FetchedRecord(catalog, url).value.image;
      && (artwork.frontDefault.Some? && artwork.frontDefault.value != "" ==> image == artwork.frontDefault)
      && (artwork.frontDefault.None? || artwork.frontDefault == Some("") ==> image == sprites.frontDefault)
  {
  }

  // ------------------------------------------------------------ many Pokemon

  /** `entries.filter(p => p && p.url)`, as urls. */
  function EntryUrls(entries: seq<Option<NamedResource>>): (r: seq<string>)
    ensures |r| <= |entries|
    ensures forall i :: 0 <= i < |r| ==> r[i] != ""
    ensures forall i :: 0 <= i < |entries| && entries[i].Some? && entries[i].value.url != "" ==> entries[i].value.url in r
    ensures forall u :: u in r ==> exists i :: 0 <= i < |entries| && entries[i].Some? && entries[i].value.url == u
  {
    if entries == [] then []
    else
      var init, last := entries[..|entries| - 1], entries[|entries| - 1];
      assert forall i :: 0 <= i < |init| ==> init[i] == entries[i];
      EntryUrls(init) + (if last.Some? && last.value.url != "" then [last.value.url] else [])
  }

  /** The record of `url` as a list: one record, or none for `null`. */
  function Yielded(catalog: Catalog, url: string): (r: seq<Pokemon>)
    ensures |r| <= 1
  {
    match FetchedRecord(catalog, url)
    case None => []
    case Some(p) => [p]
  }

  /** The records of the urls that yield one, in order. */
  function RecordsOf(catalog: Catalog, urls: seq<string>): (r: seq<Pokemon>)
    ensures |r| <= |urls|
  {
    ConcatAtMostOne(urls, url => Yielded(catalog, url));
    Concat(urls, url => Yielded(catalog, url))
  }

  /** The relations the urls save, in order. */
  function RelationsOf(catalog: Catalog, cache: map<string, string>, urls: seq<string>): seq<Evolution>
  {
    Concat(urls, url => FetchedRelations(catalog, cache, url))
  }

  /** The outputs of `f` on each url, concatenated in order. */
  function Concat<T>(urls: seq<string>, f: string -> seq<T>): seq<T>
  {
    if urls == [] then [] else Concat(urls[..|urls| - 1], f) + f(urls[|urls| - 1])
  }

  lemma {:induction false} ConcatAppend<T>(a: seq<string>, b: seq<string>, f: string -> seq<T>)
    ensures Concat(a + b, f) == Concat(a, f) + Concat(b, f)
    decreases |b|
  {
    if b == [] {
      assert a + b == a;
    } else {
      assert (a + b)[..|a + b| - 1] == a + b[..|b| - 1];
      ConcatAppend(a, b[..|b| - 1], f);
    }
  }

  lemma {:induction false} ConcatAtMostOne<T>(urls: seq<string>, f: string -> seq<T>)
    requires forall url :: |f(url)| <= 1
    ensures |Concat(urls, f)| <= |urls|
  {
    if urls != [] {
      ConcatAtMostOne(urls[..|urls| - 1], f);
    }
  }

  lemma {:induction false} ConcatMembers<T>(urls: seq<string>, f: string -> seq<T>, x: T)
    ensures x in Concat(urls, f) <==> exists i :: 0 <= i < |urls| && x in f(urls[i])
  {
    if urls != [] {
      var init := urls[..|urls| - 1];
      ConcatMembers(init, f, x);
      assert forall i :: 0 <= i < |init| ==> init[i] == urls[i];
    }
  }

  lemma {:induction false} EntryUrlsAppend(a: seq<Option<NamedResource>>, b: seq<Option<NamedResource>>)
    ensures EntryUrls(a + b) == EntryUrls(a) + EntryUrls(b)
    decreases |b|
  {
    if b == [] {
      assert a + b == a;
    } else {
      assert (a + b)[..|a + b| - 1] == a + b[..|b| - 1];
      EntryUrlsAppend(a, b[..|b| - 1]);
    }
  }

  lemma RecordsOfAppend(catalog: Catalog, a: seq<string>, b: seq<string>)
    ensures RecordsOf(catalog, a + b) == RecordsOf(catalog, a) + RecordsOf(catalog, b)
  {
    ConcatAppend(a, b, url => Yielded(catalog, url));
  }

  /** One more url of a prefix adds its own record, if any. */
  lemma RecordsOfPrefix(catalog: Catalog, urls: seq<string>, j: nat)
    requires j < |urls|
    ensures RecordsOf(catalog, urls[..j + 1]) == RecordsOf(catalog, urls[..j]) + Yielded(catalog, urls[j])
  {
    ConcatPrefix(urls, j, url => Yielded(catalog, url));
  }

  /** One more url of a prefix adds its own relation, if any. */
  lemma RelationsOfPrefix(catalog: Catalog, cache: map<string, string>, urls: seq<string>, j: nat)
    requires j < |urls|
    ensures RelationsOf(catalog, cache, urls[..j + 1]) == RelationsOf(catalog, cache, urls[..j]) + FetchedRelations(catalog, cache, urls[j])
  {
    ConcatPrefix(urls, j, url => FetchedRelations(catalog, cache, url));
  }

  /** One more url of a prefix adds its own output. */
  lemma ConcatPrefix<T>(urls: seq<string>, j: nat, f: string -> seq<T>)
    requires j < |urls|
    ensures Concat(urls[..j + 1], f) == Concat(urls[..j], f) + f(urls[j])
  {
    assert urls[..j + 1][..j] == urls[..j];
  }

  lemma RelationsOfAppend(catalog: Catalog, cache: map<string, string>, a: seq<string>, b: seq<string>)
    ensures RelationsOf(catalog, cache, a + b) == RelationsOf(catalog, cache, a) + RelationsOf(catalog, cache, b)
  {
    ConcatAppend(a, b, url => FetchedRelations(catalog, cache, url));
  }

  /**
   * A url's failure costs only its own record: a record is kept exactly when
   * some url yields it.
   */
  lemma RecordsOfYielded(catalog: Catalog, urls: seq<string>, p: Pokemon)
    ensures p in RecordsOf(catalog, urls) <==> exists i :: 0 <= i < |urls| && FetchedRecord(catalog, urls[i]) == Some(p)
  {
    ConcatMembers(urls, url => Yielded(catalog, url), p);
  }

  // ------------------------------------------------------------ batches

  /** `list.slice(i, i + BATCH_SIZE)` for `i = 0, 50, 100, ...` while `i < list.length`. */
  function Batches<T>(list: seq<T>): seq<seq<T>>
    decreases |list|
  {
    if list == [] then []
    else if |list| <= BatchSize then [list]
    else [list[..BatchSize]] + Batches(list[BatchSize..])
  }

  function Flatten<T>(batches: seq<seq<T>>): seq<T>
  {
    if batches == [] then [] else Flatten(batches[..|batches| - 1]) + batches[|batches| - 1]
  }

  lemma {:induction false} FlattenAppend<T>(a: seq<seq<T>>, b: seq<seq<T>>)
    ensures Flatten(a + b) == Flatten(a) + Flatten(b)
    decreases |b|
  {
    if b == [] {
      assert a + b == a;
    } else {
      assert (a + b)[..|a + b| - 1] == a + b[..|b| - 1];
      FlattenAppend(a, b[..|b| - 1]);
    }
  }

  /**
   * The batches cover the list in order, each index exactly once; every
   * batch holds between 1 and 50 entries, and there are ⌈n / 50⌉ of them.
   */
  lemma {:induction false} BatchesCover<T>(list: seq<T>)
    ensures Flatten(Batches(list)) == list
    ensures forall b :: b in Batches(list) ==> 1 <= |b| <= BatchSize
    ensures |Batches(list)| == (|list| + BatchSize - 1) / BatchSize
  {
    BatchesFlatten(list);
    BatchesSizes(list);
    BatchesCount(list);
  }

  lemma {:induction false} BatchesFlatten<T>(list: seq<T>)
    ensures Flatten(Batches(list)) == list
    decreases |list|
  {
    if list != [] && |list| <= BatchSize {
      assert Flatten([list]) == Flatten<T>([]) + list;
    } else if list != [] {
      var rest := list[BatchSize..];
      BatchesFlatten(rest);
      FlattenAppend([list[..BatchSize]], Batches(rest));
      assert Flatten([list[..BatchSize]]) == Flatten<T>([]) + list[..BatchSize];
      assert list[..BatchSize] + rest == list;
    }
  }

  lemma {:induction false} BatchesSizes<T>(list: seq<T>)
    ensures forall b :: b in Batches(list) ==> 1 <= |b| <= BatchSize
    decreases |list|
  {
    if |list| > BatchSize {
      BatchesSizes(list[BatchSize..]);
    }
  }

  lemma {:induction false} BatchesCount<T>(list: seq<T>)
    ensures |Batches(list)| == (|list| + BatchSize - 1) / BatchSize
    decreases |list|
  {
    if |list| > BatchSize {
      BatchesCount(list[BatchSize..]);
    }
  }

  /**
   * The argument of each `save` call the batches make, when `f` gives the
   * records of one url: a batch's records, when it has any; a batch without
   * records saves nothing.
   */
  function Saves<T>(batches: seq<seq<Option<NamedResource>>>, f: string -> seq<T>): (r: seq<seq<T>>)
    ensures |r| <= |batches|
    ensures forall s :: s in r ==> s != []
  {
    if batches == [] then []
    else
      var records := Concat(EntryUrls(batches[|batches| - 1]), f);
      Saves(batches[..|batches| - 1], f) + (if records != [] then [records] else [])
  }

  /** The `save` calls of the seeding batches. */
  function SavedBatches(catalog: Catalog, batches: seq<seq<Option<NamedResource>>>): (r: seq<seq<Pokemon>>)
    ensures |r| <= |batches|
    ensures forall s :: s in r ==> s != []
  {
    Saves(batches, url => Yielded(catalog, url))
  }

  lemma {:induction false} SavesStore<T>(batches: seq<seq<Option<NamedResource>>>, f: string -> seq<T>)
    requires forall url :: |f(url)| <= 1
    requires forall b :: b in batches ==> |b| <= BatchSize
    ensures forall s :: s in Saves(batches, f) ==> 1 <= |s| <= BatchSize
    ensures Flatten(Saves(batches, f)) == Concat(EntryUrls(Flatten(batches)), f)
    decreases |batches|
  {
    if batches != [] {
      var init := batches[..|batches| - 1];
      var last := batches[|batches| - 1];
      SavesStore(init, f);
      var records := Concat(EntryUrls(last), f);
      ConcatAtMostOne(EntryUrls(last), f);
      FlattenAppend(Saves(init, f), if records != [] then [records] else []);
      assert Flatten<T>([records]) == Flatten<T>([]) + records;
      EntryUrlsAppend(Flatten(init), last);
      ConcatAppend(EntryUrls(Flatten(init)), EntryUrls(last), f);
    }
  }

  /**
   * Each `save` call stores between 1 and 50 records, and together the
   * calls store the records of every entry of the batches, in order.
   */
  lemma SavedBatchesStoreRecords(catalog: Catalog, batches: seq<seq<Option<NamedResource>>>)
    requires forall b :: b in batches ==> |b| <= BatchSize
    ensures forall s :: s in SavedBatches(catalog, batches) ==> 1 <= |s| <= BatchSize
    ensures Flatten(SavedBatches(catalog, batches)) == RecordsOf(catalog, EntryUrls(Flatten(batches)))
  {
    SavesStore(batches, url => Yielded(catalog, url));
  }

  // ------------------------------------------------------------ the seeded state

  /** The end of the batch that starts at `i`: 50 entries later, or the end of the list. */
  function BatchEnd(length: nat, i: nat): (r: nat)
    requires i < length
    ensures i < r <= length && r - i <= BatchSize
    ensures r < length ==> r == i + BatchSize
  {
    if i + BatchSize < length then i + BatchSize else length
  }

  /** The batches from `i` on are the batch at `i` followed by the batches from its end on. */
  lemma BatchesFrom<T>(list: seq<T>, i: nat)
    requires i < |list|
    ensures Batches(list[i..]) == [list[i..BatchEnd(|list|, i)]] + Batches(list[BatchEnd(|list|, i)..])
  {
    var rest := list[i..];
    var end := BatchEnd(|list|, i);
    if |rest| <= BatchSize {
      assert list[i..end] == rest;
      assert list[end..] == [];
    } else {
      assert list[i..end] == rest[..BatchSize];
      assert list[end..] == rest[BatchSize..];
    }
  }

  /** The batch at `i` is the next of the batches. */
  lemma BatchesStep<T>(list: seq<T>, processed: seq<seq<T>>, i: nat)
    requires i < |list| && Batches(list) == processed + Batches(list[i..])
    ensures Batches(list) == (processed + [list[i..BatchEnd(|list|, i)]]) + Batches(list[BatchEnd(|list|, i)..])
  {
    BatchesFrom(list, i);
  }

  /**
   * One turn of the seeding loop: what the list read up to the end of the
   * batch at `i` yields is what was read before it followed by what the
   * batch yields.
   */
  lemma SeedStep<T>(list: seq<Option<NamedResource>>, i: nat, f: string -> seq<T>)
    requires i < |list|
    ensures Concat(EntryUrls(list[..BatchEnd(|list|, i)]), f)
         == Concat(EntryUrls(list[..i]), f) + Concat(EntryUrls(list[i..BatchEnd(|list|, i)]), f)
  {
    var end := BatchEnd(|list|, i);
    var batch := list[i..end];
    assert list[..end] == list[..i] + batch;
    EntryUrlsAppend(list[..i], batch);
    ConcatAppend(EntryUrls(list[..i]), EntryUrls(batch), f);
  }

  lemma RecordsStep(catalog: Catalog, list: seq<Option<NamedResource>>, i: nat)
    requires i < |list|
    ensures RecordsOf(catalog, EntryUrls(list[..BatchEnd(|list|, i)]))
         == RecordsOf(catalog, EntryUrls(list[..i])) + RecordsOf(catalog, EntryUrls(list[i..BatchEnd(|list|, i)]))
  {
    SeedStep(list, i, url => Yielded(catalog, url));
  }

  lemma RelationsStep(catalog: Catalog, cache: map<string, string>, list: seq<Option<NamedResource>>, i: nat)
    requires i < |list|
    ensures RelationsOf(catalog, cache, EntryUrls(list[..BatchEnd(|list|, i)]))
         == RelationsOf(catalog, cache, EntryUrls(list[..i])) + RelationsOf(catalog, cache, EntryUrls(list[i..BatchEnd(|list|, i)]))
  {
    SeedStep(list, i, url => FetchedRelations(catalog, cache, url));
  }

  lemma SavedBatchesSnoc(catalog: Catalog, batches: seq<seq<Option<NamedResource>>>, batch: seq<Option<NamedResource>>)
    ensures SavedBatches(catalog, batches + [batch]) == SavedBatches(catalog, batches) + SavedBatches(catalog, [batch])
  {
    SavesSnoc(batches, batch, url => Yielded(catalog, url));
  }

  /** A single batch makes one `save` call exactly when it yields a record. */
  lemma SavedBatchesOne(catalog: Catalog, batch: seq<Option<NamedResource>>)
    ensures var records := RecordsOf(catalog, EntryUrls(batch));
            SavedBatches(catalog, [batch]) == if records != [] then [records] else []
  {
    var f := url => Yielded(catalog, url);
    assert [batch][..0] == [];
    assert Saves([batch], f) == Saves([], f) + (if Concat(EntryUrls(batch), f) != [] then [Concat(EntryUrls(batch), f)] else []);
  }

  /** One more batch adds its own `save` call, if it makes one. */
  lemma SavesSnoc<T>(batches: seq<seq<Option<NamedResource>>>, batch: seq<Option<NamedResource>>, f: string -> seq<T>)
    ensures Saves(batches + [batch], f) == Saves(batches, f) + Saves([batch], f)
  {
    assert (batches + [batch])[..|batches|] == batches;
    assert [batch][..0] == [];
  }

  /** What the seeding leaves in the Pokemon table: nothing when the list request fails. */
  function SeededRecords(catalog: Catalog): (r: seq<Pokemon>)
    ensures catalog.pokemonList.None? ==> r == []
    ensures catalog.pokemonList.Some? ==> |r| <= |EntryUrls(catalog.pokemonList.value)|
  {
    match catalog.pokemonList
    case None => []
    case Some(list) => RecordsOf(catalog, EntryUrls(list))
  }

  /** What the seeding leaves in the relation table, given the conditions it cached first. */
  function SeededRelations(catalog: Catalog, cache: map<string, string>): (r: seq<Evolution>)
    ensures catalog.pokemonList.None? ==> r == []
    ensures catalog.pokemonList.Some? ==> |r| <= |EntryUrls(catalog.pokemonList.value)|
  {
    match catalog.pokemonList
    case None => []
    case Some(list) =>
      ConcatAtMostOne(EntryUrls(list), url => FetchedRelations(catalog, cache, url));
      RelationsOf(catalog, cache, EntryUrls(list))
  }

  /** The cache writes of the chains at `urls`, in order; a chain whose request fails writes nothing. */
  function ChainWrites(catalog: Catalog, urls: seq<string>): (r: seq<CacheWrite>)
    ensures (forall url :: url in urls ==> catalog.chainAt(url).None?) ==> r == []
  {
    if urls == [] then []
    else
      var link := catalog.chainAt(urls[|urls| - 1]);
      ChainWrites(catalog, urls[..|urls| - 1]) + (if link.Some? then WalkLink(Actions(catalog.namesAt), link.value).writes else [])
  }
  /** One more chain of a prefix adds the writes of its walk, when its request succeeds. */
  lemma ChainWritesPrefix(catalog: Catalog, urls: seq<string>, i: nat)
    requires i < |urls|
    ensures ChainWrites(catalog, urls[..i + 1])
         == ChainWrites(catalog, urls[..i])
            + (match catalog.chainAt(urls[i]) case Some(link) => WalkLink(Actions(catalog.namesAt), link).writes case None => [])
  {
    assert urls[..i + 1][..i] == urls[..i];
  }


  /** `cacheAllEvolutionConditions()`: nothing when the list request fails. */
  function CachedWrites(catalog: Catalog): (r: seq<CacheWrite>)
    ensures catalog.chainList.None? ==> r == []
    ensures forall w :: w in r ==> w.conditions != ""
  {
    match catalog.chainList
    case None => []
    case Some(urls) =>
      ChainWritesNonEmpty(catalog, urls);
      ChainWrites(catalog, urls)
  }

  lemma {:induction false} ChainWritesNonEmpty(catalog: Catalog, urls: seq<string>)
    ensures forall w :: w in ChainWrites(catalog, urls) ==> w.conditions != ""
  {
    if urls != [] {
      ChainWritesNonEmpty(catalog, urls[..|urls| - 1]);
      var link := catalog.chainAt(urls[|urls| - 1]);
      if link.Some? {
        WalkWritesNonEmpty(Actions(catalog.namesAt), link.value);
      }
    }
  }

  /**
   * Every cached condition text is non-empty, so the `|| 'N/A'` of a relation
   * replaces only a missing entry.
   */
  lemma CachedConditionsNonEmpty(catalog: Catalog, cache: map<string, string>)
    requires forall k :: k in cache ==> cache[k] != ""
    ensures forall k :: k in ApplyWrites(cache, CachedWrites(catalog)) ==> ApplyWrites(cache, CachedWrites(catalog))[k] != ""
  {
    if catalog.chainList.Some? {
      ChainWritesNonEmpty(catalog, catalog.chainList.value);
    }
    ApplyWritesNonEmpty(cache, CachedWrites(catalog));
  }
}
