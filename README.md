# korea-poke-api: a Dafny model of the ingestion and evolution-tree core

korea-poke-api serves Pokemon data in Korean. At start-up its ingestion
service (`PokeApiService`) checks the `pokemon` table. When the table holds
fewer than 1032 rows, the service seeds both tables from PokeAPI:

- it clears the `evolution` and `pokemon` tables;
- it walks every evolution chain and caches one Korean condition text per
  `"<from>-<to>"` edge in an in-memory map;
- it fetches the Pokemon list and processes it in batches of 50. For each
  entry that has a url, it fetches the detail and the species. It saves an
  evolution relation, whose condition comes from the cache or is `'N/A'`.
  It builds a record with Korean names, types, abilities, flavour text,
  sprites, generation and chain id. The records of a batch that did not fail
  are saved together.

On request, `EvolutionService.buildEvolutionTree` loads the records of one
chain in id order and the relations leaving them. It groups the relations by
source and takes as root the first record that no relation points to. From
the root it builds a nested tree of `EvolutionNodeDto`s, which wrap a
`PokemonInfoDto` projection of each record. `EvolutionStepDto.fromEvolution`
flattens one relation with its two endpoints' dot sprites.

The model has these modules:

- `Wrappers`: the `Option` type.
- `JsText`: JavaScript's `split`, `join`, `parseInt(…, 10)` and number
  rendering, and the id parsing of PokeAPI urls.
- `Entities`: the stored `Pokemon` and `Evolution` rows.
- `PokemonInfoDto`, `EvolutionNodeDto` and `EvolutionStepDto`: the three DTOs.
- `LocalizedNames`: `findKoreanName`, `findKoreanFlavorText` and
  `getKoreanNames`.
- `EvolutionConditions`: the condition text of one evolution and the cache key.
- `ConditionCache`: the recursive walk of an evolution chain as a sequence of
  map writes, with its structural properties.
- `PokeApiIngestion`: the upstream catalog as lookup functions. It defines
  what one Pokemon url yields, the batches, and what seeding and caching
  produce.
- `PokeApiService`: the service as a class. Its fields are the condition map
  and the two tables. Its methods update them step by step and are proved
  against the functions above.
- `EvolutionService`: the tree construction.
- `EvolutionTreeFacts` and `EvolutionTreeSize`: properties of the built tree.
  The main one is that on a well-formed chain the tree holds every record of
  the chain exactly once.

Every HTTP request is a lookup function in a `Catalog` value. `None` means
the request failed. A repository is a sequence of rows in insertion order.
`save` appends. `find` is a filter, and with `order: { id: 'ASC' }` it is a
filter followed by a stable sort by id.

`buildNode` recurses without a bound: it follows every relation whose target
record is loaded, and nothing stops it from visiting a record twice. The model
therefore takes a ghost `rank` on Pokemon ids. From the root, along every
relation `buildNode` follows, the rank must strictly decrease (`TreeRanked`).
When a path of loaded relations from the root comes back to a record it has
already left, no such rank exists (`CycleReachableFromRootHasNoRank`). On
those chains the source recurses until the call stack overflows, and
`buildEvolutionTree` rejects with a `RangeError`. When the relations have no
cycle at all, any rank that decreases along every relation will do
(`RankedIsTreeRanked`). Two further cases are inside the model:

- When every record is a relation's target there is no root. `buildNode` is
  never called, and the tree is `null` whatever the relations are
  (`CycleThroughEveryRecordHasNoTree`).
- A cycle that the root cannot reach is never visited, so it does not matter
  (`UnreachableCycleIsIgnored`).

The properties of the tree's size (`EvolutionTreeSize`) assume the stronger
`Ranked`: the rank decreases along every loaded relation, so the relations
have no cycle at all.

## Model

| member | source | states |
|---|---|---|
| JsText.Split | src/pokeapi/poke-api.service.ts:95 | `split` always yields at least one part, and no part contains the separator |
| JsText.JoinSplit | src/pokeapi/poke-api.service.ts:95 | joining the parts of a split with the same separator gives back the original string |
| JsText.SplitJoin | src/pokeapi/poke-api.service.ts:135-138 | splitting a join of separator-free parts gives back the parts |
| JsText.IntToDecimal | src/pokeapi/poke-api.service.ts:116 | a number renders as a non-empty string of digits, with a leading `-` exactly when it is negative |
| JsText.IntToDecimalInjective | src/pokeapi/poke-api.service.ts:115-116 | distinct numbers render differently |
| JsText.ParseInt | src/pokeapi/poke-api.service.ts:96 | `parseInt(s, 10)` is `NaN` exactly when no digit follows the leading whitespace and optional sign |
| JsText.ParseIntOfDecimal | src/pokeapi/poke-api.service.ts:96 | parsing the decimal rendering of any integer returns that integer |
| JsText.SecondToLast | src/pokeapi/poke-api.service.ts:95-96 | `parts[parts.length - 2]` is defined exactly when there are at least two parts, and is that part |
| JsText.SliceSecondToLastAgrees | src/pokeapi/poke-api.service.ts:105-108 | `slice(-2, -1)[0]` picks the same part as `parts[length - 2]` |
| JsText.ResourceId | src/pokeapi/poke-api.service.ts:94-96 | `parseInt(parts[parts.length - 2], 10)` of the url's `/`-separated parts: a url without `/` gives no id |
| JsText.ResourceIdViaSlice | src/pokeapi/poke-api.service.ts:194-197 | the id parsed through `slice(-2, -1)` equals the id parsed through `length - 2` |
| JsText.ResourceIdOfCanonicalUrl | src/pokeapi/poke-api.service.ts:94-100 | a url of the form `<prefix>/<id>/` yields exactly `id`, for every integer id |
| JsText.PikachuSpeciesId | src/pokeapi/poke-api.service.ts:105-108 | the species url of Pikachu yields 25 |
| JsText.NoSlashMeansNaN | src/pokeapi/poke-api.service.ts:105-110 | a url without any `/` yields `NaN`, so no id |
| PokemonInfoDto.FromEntity | src/pokemon/dto/pokenmon-info.dto.ts:10-18 | the projection copies id, name, the two dot sprites and the attribute of the record |
| PokemonInfoDto.FromEntityKeepsOnlyFiveFields | src/pokemon/dto/pokenmon-info.dto.ts:10-18 | two records project to the same DTO exactly when those five fields agree |
| EvolutionNodeDto.FromPokemon | src/pokemon/dto/evolution-node.dto.ts:9-15 | a new node wraps the record's projection and the given conditions, with no children |
| EvolutionNodeDto.FromPokemonDefaultCondition | src/pokemon/dto/evolution-node.dto.ts:9 | without a conditions argument, the node's conditions are `"N/A"` |
| EvolutionStepDto.DotOf | src/pokemon/dto/evolution-step.dto.ts:18 | `pokemon?.dotImage` is absent for an absent Pokemon and is its dot sprite otherwise |
| EvolutionStepDto.ShinyDotOf | src/pokemon/dto/evolution-step.dto.ts:19 | `pokemon?.dotShinyImage` is absent for an absent Pokemon and is its shiny dot sprite otherwise |
| EvolutionStepDto.FromEvolution | src/pokemon/dto/evolution-step.dto.ts:13-27 | the step carries the relation's two ids and conditions, the source's sprites as `before…` and the target's as `after…` |
| EvolutionStepDto.FromEvolutionWithoutEndpoints | src/pokemon/dto/evolution-step.dto.ts:13-27 | without endpoints, all four sprites are absent and the relation's fields still come through |
| EvolutionStepDto.FromEvolutionSidesIndependent | src/pokemon/dto/evolution-step.dto.ts:13-27 | the `after…` sprites do not depend on the source Pokemon |
| LocalizedNames.FirstInFinds | src/pokeapi/poke-api.service.ts:260 | `find` by language succeeds exactly when some entry has that language, and then returns the first such entry |
| LocalizedNames.FirstInAt | src/pokeapi/poke-api.service.ts:260 | the entry at the first index with the language is the one found |
| LocalizedNames.FindKoreanName | src/pokeapi/poke-api.service.ts:259-266 | the localized name is never empty |
| LocalizedNames.KoreanNameOrigin | src/pokeapi/poke-api.service.ts:259-266 | the result is `"N/A"` or the key's value in some Korean or English entry |
| LocalizedNames.KoreanFirst | src/pokeapi/poke-api.service.ts:260-262 | the first Korean entry's non-empty value wins |
| LocalizedNames.EnglishFallback | src/pokeapi/poke-api.service.ts:262-263 | when the first Korean entry gives nothing, the first English entry's non-empty value is used |
| LocalizedNames.FirstKoreanEntryOnly | src/pokeapi/poke-api.service.ts:260-264 | a later Korean entry is never consulted when the first one is empty |
| LocalizedNames.BothEmptyGiveSentinel | src/pokeapi/poke-api.service.ts:259-266 | when the first Korean and the first English entry each are missing, lack the field or hold it empty, the name is `"N/A"` |
| LocalizedNames.EmptyNamesGiveSentinel | src/pokeapi/poke-api.service.ts:259-266 | a Korean and an English entry with empty names give `"N/A"` |
| LocalizedNames.NoKoreanNoEnglish | src/pokeapi/poke-api.service.ts:264 | with neither a Korean nor an English entry the name is `"N/A"` |
| LocalizedNames.LastInFinds | src/pokeapi/poke-api.service.ts:269 | `filter(...).pop()` succeeds exactly when an entry has the language, and returns the last such entry |
| LocalizedNames.ReplaceLineBreaks | src/pokeapi/poke-api.service.ts:270 | every newline and form feed becomes a space, and every other character is kept in place |
| LocalizedNames.ReplaceLineBreaksRemovesThem | src/pokeapi/poke-api.service.ts:270 | no newline or form feed is left |
| LocalizedNames.ReplaceLineBreaksIdempotent | src/pokeapi/poke-api.service.ts:270 | replacing twice is the same as replacing once |
| LocalizedNames.FindKoreanFlavorText | src/pokeapi/poke-api.service.ts:268-271 | the description has no line breaks, and it is empty when no entry is Korean |
| LocalizedNames.LastKoreanEntryWins | src/pokeapi/poke-api.service.ts:269-270 | appending a Korean entry makes its cleaned text the description |
| LocalizedNames.OtherLanguagesIgnored | src/pokeapi/poke-api.service.ts:269 | appending an entry in another language does not change the description |
| LocalizedNames.GetKoreanNames | src/pokeapi/poke-api.service.ts:247-257 | one name per item, in order |
| LocalizedNames.KoreanNameOfEach | src/pokeapi/poke-api.service.ts:247-257 | each name is the localized name from the item's url, or the item's own name when that request fails |
| LocalizedNames.KoreanNamesNonEmpty | src/pokeapi/poke-api.service.ts:252-253 | items with non-empty names get non-empty names |
| EvolutionConditions.Clauses | src/pokeapi/poke-api.service.ts:220-243 | at most six clauses, and a non-empty trigger name is always the last one |
| EvolutionConditions.ConditionText | src/pokeapi/poke-api.service.ts:217-245 | no details give `"N/A"`; the formatting fails only when the trigger, item or held-item name request fails |
| EvolutionConditions.NameAt | src/pokeapi/poke-api.service.ts:221-224 | a looked-up trigger or item name is never empty |
| EvolutionConditions.TriggerLast | src/pokeapi/poke-api.service.ts:225-243 | the list is never empty and the trigger is its last clause; with non-empty item names every clause is non-empty |
| EvolutionConditions.ClauseCount | src/pokeapi/poke-api.service.ts:225-243 | there is one clause per truthy condition field, plus one for the trigger |
| EvolutionConditions.ClausePositions | src/pokeapi/poke-api.service.ts:225-243 | the clauses come in the order level, item, happiness, held item, time of day, trigger: each present clause sits right after the present clauses before it in that order |
| EvolutionConditions.LevelBeforeHeldItem | src/pokeapi/poke-api.service.ts:225-234 | with both a level and a held item, the level clause is first and the held-item clause follows the item and happiness clauses, before the trigger |
| EvolutionConditions.TimeOfDayClause | src/pokeapi/poke-api.service.ts:241-242 | a time of day adds "낮에" for `day` and "밤에" otherwise, right before the trigger; without one neither appears |
| EvolutionConditions.ZeroIsOmitted | src/pokeapi/poke-api.service.ts:225-233 | a level or happiness of 0 is falsy and adds no clause |
| EvolutionConditions.ConditionTextNonEmpty | src/pokeapi/poke-api.service.ts:217-245 | a condition text that is produced is never empty |
| EvolutionConditions.OnlyFirstDetail | src/pokeapi/poke-api.service.ts:219 | only the first evolution detail matters |
| EvolutionConditions.TriggerFailureFails | src/pokeapi/poke-api.service.ts:221-224 | a failed trigger lookup makes the whole formatting fail |
| EvolutionConditions.LevelSixteenExample | src/pokeapi/poke-api.service.ts:217-245 | `{min_level: 16}` with a level-up trigger gives "레벨 16 이상, 레벨업" |
| EvolutionConditions.CacheKeyInjective | src/pokeapi/poke-api.service.ts:208-211 | distinct id pairs never share a `"<from>-<to>"` key |
| ConditionCache.ActionOf | src/pokeapi/poke-api.service.ts:199-212 | an edge is skipped exactly when one of its two ids is `NaN`; it throws exactly when both ids parse and the child's conditions fail to format; otherwise it writes the child's condition text under the key `"<from>-<to>"` of the two ids, and that text is non-empty |
| ConditionCache.WalkLink | src/pokeapi/poke-api.service.ts:190-215 | a link without successors completes and writes nothing |
| ConditionCache.WalkChildren | src/pokeapi/poke-api.service.ts:198-214 | the loop over the first `n` successors can fail only once it visits a successor |
| ConditionCache.WalkEdge | src/pokeapi/poke-api.service.ts:199-213 | a throwing edge writes nothing and fails; a writing edge's own write comes before every write below the child |
| ConditionCache.ApplyWritesAppend | src/pokeapi/poke-api.service.ts:208-211 | applying two write sequences in turn equals applying their concatenation |
| ConditionCache.ApplyWritesKeys | src/pokeapi/poke-api.service.ts:208-211 | the keys afterwards are the old keys plus every written key |
| ConditionCache.LastWriteWins | src/pokeapi/poke-api.service.ts:208-211 | a key holds the text of its last write |
| ConditionCache.UntouchedKey | src/pokeapi/poke-api.service.ts:208-211 | a key that is never written keeps its old value or stays absent |
| ConditionCache.ApplyWritesNonEmpty | src/pokeapi/poke-api.service.ts:208-211 | non-empty writes into a map of non-empty texts keep every text non-empty |
| ConditionCache.LeafWritesNothing | src/pokeapi/poke-api.service.ts:191-192 | a link without successors writes nothing and completes |
| ConditionCache.FailureStops | src/pokeapi/poke-api.service.ts:198-214 | once a successor's walk throws, later successors are not visited |
| ConditionCache.ChildrenPrefix | src/pokeapi/poke-api.service.ts:198-214 | the writes of the first m successors are a prefix of those of the first n, and completion of more implies completion of fewer |
| ConditionCache.WalkWritesNonEmpty | src/pokeapi/poke-api.service.ts:190-215 | when every edge write is non-empty, so is every write of the walk |
| ConditionCache.WritesAreEdgeWrites | src/pokeapi/poke-api.service.ts:190-215 | every write of the walk is the write of some edge of the chain |
| ConditionCache.CompleteWalkWritesEveryEdge | src/pokeapi/poke-api.service.ts:190-215 | a walk that does not throw writes every edge write of the chain |
| ConditionCache.ChainEdgeIsCached | src/pokeapi/poke-api.service.ts:190-215 | when `parseChainForCaching` runs to the end, every edge whose ids are `a` and `b` and whose child's conditions format to `t` has written `t` under `"a-b"`, the key the saved relation reads |
| PokeApiIngestion.StatusOf | src/pokeapi/poke-api.service.ts:135 | for a non-empty stat list, splitting the status at commas gives back one decimal per stat, in order |
| PokeApiIngestion.ChainIdOf | src/pokeapi/poke-api.service.ts:92-100 | a chain id is present only for a non-empty chain reference, and is then the id parsed from it |
| PokeApiIngestion.RelationOf | src/pokeapi/poke-api.service.ts:103-123 | there is a relation exactly when the species evolves from another whose id parses; it goes from that id to the detail's id and carries a non-empty condition |
| PokeApiIngestion.RecordOf | src/pokeapi/poke-api.service.ts:125-154 | the record fails exactly when a sprite path is missing; otherwise it carries the detail's id and non-empty name and classification |
| PokeApiIngestion.Decimals | src/pokeapi/poke-api.service.ts:135 | the base stats render one decimal per stat, in order |
| PokeApiIngestion.StatusRoundTrip | src/pokeapi/poke-api.service.ts:135 | splitting the status at commas and parsing each part gives back the base stats |
| PokeApiIngestion.CachedCondition | src/pokeapi/poke-api.service.ts:114-117 | the relation's condition is never empty; a missing or empty cache entry gives `"N/A"` |
| PokeApiIngestion.FetchedRelations | src/pokeapi/poke-api.service.ts:103-123 | one Pokemon url saves at most one relation |
| PokeApiIngestion.Fetched | src/pokeapi/poke-api.service.ts:84-90 | present exactly when the detail request and the request for the species it references both succeed, and then holds those two responses |
| PokeApiIngestion.FetchedRecord | src/pokeapi/poke-api.service.ts:81-158 | a record only when both requests succeeded, carrying the detail's id and a non-empty name and classification; `null` otherwise |
| PokeApiIngestion.RelationReadsCache | src/pokeapi/poke-api.service.ts:103-123 | a saved relation goes from the parsed source species id to the detail's id, and carries the cached text for that key or `"N/A"` |
| PokeApiIngestion.RelationSurvivesFailedRecord | src/pokeapi/poke-api.service.ts:103-157 | a Pokemon whose record fails on a missing sprite path still saves its relation |
| PokeApiIngestion.ChainIdOfReference | src/pokeapi/poke-api.service.ts:93-101 | a canonical chain url gives its id; an absent or empty url, or one without `/`, gives none |
| PokeApiIngestion.AttributeListsEveryType | src/pokeapi/poke-api.service.ts:125-138 | splitting the attribute at commas gives the Korean type names, one per type and in order |
| PokeApiIngestion.ImageFallback | src/pokeapi/poke-api.service.ts:145-147 | the image is the official artwork when it is non-empty, and the default sprite otherwise |
| PokeApiIngestion.EntryUrls | src/pokeapi/poke-api.service.ts:59-61 | the urls are exactly those of the non-null entries with a non-empty url, so no more urls than entries |
| PokeApiIngestion.EntryUrlsAppend | src/pokeapi/poke-api.service.ts:59-61 | the filter keeps list order: the urls of two lists are the urls of each, concatenated |
| PokeApiIngestion.Yielded | src/pokeapi/poke-api.service.ts:62-64 | a url contributes at most one record |
| PokeApiIngestion.RecordsOf | src/pokeapi/poke-api.service.ts:59-66 | there are never more records than urls |
| PokeApiIngestion.RecordsOfYielded | src/pokeapi/poke-api.service.ts:59-66 | a record is kept exactly when some url fetched it successfully |
| PokeApiIngestion.RecordsOfAppend | src/pokeapi/poke-api.service.ts:57-74 | the records of two url lists are the records of each, concatenated |
| PokeApiIngestion.RelationsOfAppend | src/pokeapi/poke-api.service.ts:57-74 | the relations of two url lists are the relations of each, concatenated |
| PokeApiIngestion.BatchesCover | src/pokeapi/poke-api.service.ts:56-58 | the batches concatenate back to the list; each holds 1 to 50 entries; there are ⌈n/50⌉ of them |
| PokeApiIngestion.BatchEnd | src/pokeapi/poke-api.service.ts:57-58 | a slice ends after at most 50 entries, and exactly 50 unless it reaches the end of the list |
| PokeApiIngestion.BatchesStep | src/pokeapi/poke-api.service.ts:57-58 | after the batches already processed, the next batch is the slice from `i` |
| PokeApiIngestion.SavedBatchesOne | src/pokeapi/poke-api.service.ts:68-70 | a batch saves its records in one call when there are any, and makes no call otherwise |
| PokeApiIngestion.SavedBatchesStoreRecords | src/pokeapi/poke-api.service.ts:56-74 | every save holds 1 to 50 records, and together the saves hold every fetched record in list order |
| PokeApiIngestion.SavedBatches | src/pokeapi/poke-api.service.ts:56-71 | at most one `save` per batch, and never a save of an empty list |
| PokeApiIngestion.SeededRecords | src/pokeapi/poke-api.service.ts:49-74 | nothing when the list request fails; otherwise at most one record per listed url |
| PokeApiIngestion.SeededRelations | src/pokeapi/poke-api.service.ts:49-74 | nothing when the list request fails; otherwise at most one relation per listed url |
| PokeApiIngestion.ChainWritesNonEmpty | src/pokeapi/poke-api.service.ts:170-183 | every write of the chain walks is non-empty |
| PokeApiIngestion.ChainWrites | src/pokeapi/poke-api.service.ts:170-183 | chains whose requests all fail write nothing |
| PokeApiIngestion.CachedWrites | src/pokeapi/poke-api.service.ts:162-188 | nothing when the chain list request fails; every write carries non-empty text |
| PokeApiIngestion.CachedConditionsNonEmpty | src/pokeapi/poke-api.service.ts:162-188 | after caching, every cached condition is non-empty, so the `'N/A'` fallback only replaces missing keys |
| PokeApiService.PokeApiService.constructor | src/pokeapi/poke-api.service.ts:18-26 | the service starts with an empty condition map over the given tables |
| PokeApiService.PokeApiService.OnModuleInit | src/pokeapi/poke-api.service.ts:28-37 | below 1032 rows the service seeds; otherwise nothing changes |
| PokeApiService.PokeApiService.SeedDatabase | src/pokeapi/poke-api.service.ts:39-79 | the tables end up holding exactly the seeded records and relations; the cache holds every chain write; a failed list request leaves both tables empty |
| PokeApiService.PokeApiService.StoreBatches | src/pokeapi/poke-api.service.ts:56-74 | the batch loop appends the records and relations of every entry url in list order, with one save per non-empty batch |
| PokeApiService.PokeApiService.ProcessBatch | src/pokeapi/poke-api.service.ts:58-70 | one batch appends its records and relations, and saves the records only when there are any |
| PokeApiService.PokeApiService.FetchAll | src/pokeapi/poke-api.service.ts:59-64 | the non-null results are the records of the urls, and the relations of the urls are appended |
| PokeApiService.PokeApiService.FetchPokemonDetails | src/pokeapi/poke-api.service.ts:81-159 | returns the record of the url, or null, and appends the url's relation if it has one |
| PokeApiService.PokeApiService.SaveRelation | src/pokeapi/poke-api.service.ts:103-123 | appends the relation of the species, if any, with its condition read from the cache |
| PokeApiService.PokeApiService.BuildRecord | src/pokeapi/poke-api.service.ts:125-154 | builds the record of the detail and species: names, stats, sprites with fallbacks, generation and chain id, or null on a missing sprite path |
| PokeApiService.PokeApiService.CacheAllEvolutionConditions | src/pokeapi/poke-api.service.ts:162-188 | the cache receives the writes of every chain walk in list order, including the writes made before a chain fails; the tables are untouched |
| PokeApiService.PokeApiService.ParseChainForCaching | src/pokeapi/poke-api.service.ts:190-215 | the recursive walk performs exactly the writes of the chain's walk and completes exactly when the walk does |
| PokeApiService.PokeApiService.CacheEdge | src/pokeapi/poke-api.service.ts:198-214 | one loop iteration writes the edge's text when both ids parse, then walks the successor |
| PokeApiService.PokeApiService.EdgeActionAt | src/pokeapi/poke-api.service.ts:199-207 | parses the successor id and formats the conditions, deciding skip, write or throw as the edge action says |
| PokeApiService.PokeApiService.FormatEvolutionConditions | src/pokeapi/poke-api.service.ts:217-245 | the formatted text is the condition text of the details, or a failure when a lookup fails |
| EvolutionService.InChain | src/evolution/evolution.service.ts:20-23 | exactly the records whose chain id is `chainId` |
| EvolutionService.InsertById | src/evolution/evolution.service.ts:20-23 | inserting into an id-sorted list keeps it sorted and adds exactly the record |
| EvolutionService.SortById | src/evolution/evolution.service.ts:20-23 | the result is sorted by id and is a permutation of the input |
| EvolutionService.ChainRecords | src/evolution/evolution.service.ts:20-23 | the chain's records, sorted by id, each exactly once per occurrence in the table |
| EvolutionService.FromAnyOf | src/evolution/evolution.service.ts:29-31 | exactly the relations whose source id is in the given set |
| EvolutionService.ChainRelations | src/evolution/evolution.service.ts:29-31 | exactly the relations whose source is a record of the chain |
| EvolutionService.ById | src/evolution/evolution.service.ts:33 | the map's keys are the chain's ids, and each key maps to a chain record with that id |
| EvolutionService.Outgoing | src/evolution/evolution.service.ts:34-40 | the relations leaving one id, in order; empty exactly when no relation leaves it |
| EvolutionService.Grouped | src/evolution/evolution.service.ts:34-40 | every group is non-empty and holds only relations of the chain that leave its key |
| EvolutionService.GroupBySource | src/evolution/evolution.service.ts:34-40 | the map's keys are the source ids, and each group holds the relations leaving that id in load order |
| EvolutionService.GroupedKeepsEachOnce | src/evolution/evolution.service.ts:34-40 | every relation lands in its own source's group, as often as it was loaded, and in no other group |
| EvolutionService.Targets | src/evolution/evolution.service.ts:42 | the ids some relation points to: every relation's target, and nothing else |
| EvolutionService.FindRoot | src/evolution/evolution.service.ts:42-43 | the root is the first record that no relation points to; there is none exactly when every record is pointed to |
| EvolutionService.RankedIsTreeRanked | src/evolution/evolution.service.ts:42-77 | relations with no cycle at all let `buildNode` return from the root |
| EvolutionService.SelfLoopIsNotRanked | src/evolution/evolution.service.ts:52-77 | a relation from a Pokemon to itself makes the relations cyclic, so `Ranked` fails for every rank |
| EvolutionService.TwoCycleIsNotRanked | src/evolution/evolution.service.ts:52-77 | two relations pointing at each other make the relations cyclic, so `Ranked` fails for every rank |
| EvolutionService.NextEvolutionsOfGrouped | src/evolution/evolution.service.ts:59 | the relations read for an id are exactly those leaving it, in load order, and none when no relation leaves it |
| EvolutionService.Surviving | src/evolution/evolution.service.ts:61-74 | the relations whose target record is loaded, in order |
| EvolutionService.BuildNode | src/evolution/evolution.service.ts:52-77 | given a rank that decreases along every relation `buildNode` follows from the record, the node wraps the record and conditions, and its children correspond one to one, in order, to the outgoing relations whose target is loaded |
| EvolutionService.BuildChildren | src/evolution/evolution.service.ts:61-74 | the children correspond one to one, in order, to the relations whose target is loaded |
| EvolutionService.BuildChildrenStep | src/evolution/evolution.service.ts:61-74 | the first relation contributes its target's node when the target is loaded and nothing otherwise, followed by the children of the rest |
| EvolutionService.EvolutionTree | src/evolution/evolution.service.ts:25-49 | absent exactly when every record of the chain, if any, is a relation's target; otherwise rooted at a record no relation points to, with condition `"N/A"` |
| EvolutionService.BuildEvolutionTree | src/evolution/evolution.service.ts:17-50 | given a rank that decreases along every relation `buildNode` follows from the root, the tree is the one built from the chain's sorted records and relations; null exactly when every record of the chain, if any, is pointed to; the root carries `"N/A"` |
| EvolutionTreeFacts.RootIsFirstUnpointedRecord | src/evolution/evolution.service.ts:42-49 | the root carries `"N/A"`, no relation points to it, it is a chain record, and its id is the smallest among unpointed records |
| EvolutionTreeFacts.RootExists | src/evolution/evolution.service.ts:25-47 | when all relations leave chain records and have no cycle, there is a tree exactly when the chain is non-empty |
| EvolutionTreeFacts.ChainRelationsComeFromChain | src/evolution/evolution.service.ts:29-31 | every loaded relation leaves a record of the chain |
| EvolutionTreeFacts.EvolutionTreeWellBuilt | src/evolution/evolution.service.ts:52-77 | every node of the tree is a loaded record whose children mirror its outgoing relations |
| EvolutionTreeFacts.EveryNodeWrapsChainRecord | src/evolution/evolution.service.ts:52-77 | every node of the tree is the projection of a record of the chain |
| EvolutionTreeFacts.CycleThroughEveryRecordHasNoTree | src/evolution/evolution.service.ts:42-46 | records 1 and 2 evolving into each other leave no root, so the tree is `null` for every rank |
| EvolutionTreeFacts.LeafRootIsLoneNode | src/evolution/evolution.service.ts:47-49 | a root that no relation leaves gives a node without children, whatever the relations among the other records |
| EvolutionTreeFacts.UnreachableCycleIsIgnored | src/evolution/evolution.service.ts:42-77 | with records 1, 2 and 3 and a cycle between 2 and 3, the tree is record 1 alone |
| EvolutionTreeFacts.PathDescends | src/evolution/evolution.service.ts:52-77 | a rank that lets `buildNode` return from a record strictly decreases along every path of loaded relations from it |
| EvolutionTreeFacts.CycleReachableFromRootHasNoRank | src/evolution/evolution.service.ts:52-77 | when a path of loaded relations from the root comes back to a record it has already left, no rank lets `buildNode` return |
| EvolutionTreeFacts.ReachableCycleHasNoRank | src/evolution/evolution.service.ts:52-77 | with relations 1→2, 2→3 and 3→2, no rank lets `buildNode` return |
| EvolutionTreeSize.NodeCount | src/evolution/evolution.service.ts:52-77 | below a node, a chain record appears once if the node is its ancestor and not at all otherwise |
| EvolutionTreeSize.ChildrenCount | src/evolution/evolution.service.ts:61-74 | among the children's subtrees, a record appears once for each child that is its ancestor |
| EvolutionTreeSize.RootReachesAll | src/evolution/evolution.service.ts:42-49 | in a chain with a single unpointed record, that record is an ancestor of every record |
| EvolutionTreeSize.ProjectionOccursOnce | src/pokemon/dto/pokenmon-info.dto.ts:10-18 | with distinct ids, each record's projection occurs once among the chain's projections |
| EvolutionTreeSize.TreeHoldsEveryRecordOnce | src/evolution/evolution.service.ts:17-77 | on a forest-shaped chain (distinct ids, each record pointed to at most once, one unpointed record) there is a tree, and it holds every chain record exactly once: its nodes are a permutation of the chain's projections |

## Left out

- HTTP: every request is a lookup in a `Catalog` value that either answers or fails. Timeouts, retries, response shapes beyond the fields read, and logging are not modelled.
- Concurrency: `Promise.all` over a batch and `forkJoin` over the names are modelled as sequential, in list order. Each relation save is awaited inside its own fetch, so interleaving does not change which rows are written. It may change their order, which the model fixes as list order.
- GetKoreanNames: `forkJoin([])` on an empty type or ability list never emits, so the source's `firstValueFrom` rejects and the record fails. The model returns an empty name list instead.
- Database: `clear`, `save` and `find` are modelled on sequences. `save` appends; TypeORM's upsert by primary key, database failures and transactions are not modelled. `count` is the length of the `pokemon` table.
- SeedDatabase: the outer `try`/`catch` is modelled only for the failed list request. A failing `clear` or `save` is not modelled.
- The catch around one chain in `cacheAllEvolutionConditions` is modelled as "the chain's walk stops". A failing chain list request is modelled as "no writes".
- Numbers: ids and levels are unbounded integers. `NaN` is `None`. `parseInt` on non-integer text is modelled only as far as its leading decimal digits. Rendering a non-integer number is not modelled.
- Sprites: only the paths the record reads are modelled, as optional objects. A missing object makes the record fail; the `a || b` fallback is modelled for the two images.
- BuildNode: chains in which a cycle of loaded records is reachable from the root are outside the model. On them the source recurses until the call stack overflows. Chains without a root and cycles the root cannot reach are modelled.
- BuildEvolutionTree: the model proves that no rank exists when a path from the root revisits a record, and that a rank decreasing along every relation is enough. It does not construct a rank for every chain whose root reaches no cycle; a caller supplies one.
- `src/pokemon/pokemon.service.ts`, the controllers, the NestJS modules and `main.ts` are not part of this model.

## Behaviour worth noting

- A chain that fails halfway through keeps the cache writes it made before the failure. The map is written edge by edge, and nothing is rolled back.
- The description of a Pokemon is the last Korean flavour-text entry (`filter(...).pop()`), not the first.
- The root of the evolution tree is the first record, in id order, that no relation points to. A chain with several such records is not rejected.
- The trigger name is always appended as the last clause. A looked-up name is never empty, so `if (trigger)` always holds: `{min_level: 16}` with the level-up trigger gives "레벨 16 이상, 레벨업", not just "레벨 16 이상".
