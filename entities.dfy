/**
 * The two stored entities: a Pokemon record (table `pokemon`) and an
 * evolution relation (table `evolution`). Nullable columns whose value may be
 * missing after ingestion are `Option`s; the number columns are unbounded
 * integers, and a `NaN` generation is `None`.
 */
module Entities {
  import opened Wrappers

  datatype Pokemon = Pokemon(
    id: int,
    name: string,
    status: string,
    classification: string,
    characteristic: string,
    attribute: string,
    dotImage: Option<string>,
    dotShinyImage: Option<string>,
    image: Option<string>,
    shinyImage: Option<string>,
    description: string,
    generation: Option<int>,
    evolutionChainId: Option<int>)

  /** One directed "evolves into" relation with its condition text. */
  datatype Evolution = Evolution(fromPokemonId: int, toPokemonId: int, evolutionConditions: string)
}
