/** One relation projected together with the dot images of its two endpoints. */
module EvolutionStepDto {
  import opened Wrappers
  import opened Entities

  datatype EvolutionStep = EvolutionStep(
    fromPokemonId: int,
    beforeDot: Option<string>,
    beforeShinyDot: Option<string>,
    toPokemonId: int,
    afterDot: Option<string>,
    afterShinyDot: Option<string>,
    evolutionConditions: string)

  /** `fromPokemon?.dotImage`: undefined when the record is absent. */
  function DotOf(pokemon: Option<Pokemon>): (r: Option<string>)
    ensures pokemon.None? ==> r.None?
    ensures pokemon.Some? ==> r == pokemon.value.dotImage
  {
    match pokemon
    case None => None
    case Some(p) => p.dotImage
  }

  /** `fromPokemon?.dotShinyImage`. */
  function ShinyDotOf(pokemon: Option<Pokemon>): (r: Option<string>)
    ensures pokemon.None? ==> r.None?
    ensures pokemon.Some? ==> r == pokemon.value.dotShinyImage
  {
    match pokemon
    case None => None
    case Some(p) => p.dotShinyImage
  }

  /**
   * `EvolutionStepDto.fromEvolution`: ids and condition come from the
   * relation, the "before" images from the source record and the "after"
   * images from the target record; an absent record leaves its two images
   * undefined.
   */
  function FromEvolution(evolution: Evolution, fromPokemon: Option<Pokemon>, toPokemon: Option<Pokemon>): (dto: EvolutionStep)
    ensures dto.fromPokemonId == evolution.fromPokemonId
    ensures dto.toPokemonId == evolution.toPokemonId
    ensures dto.evolutionConditions == evolution.evolutionConditions
    ensures dto.beforeDot == DotOf(fromPokemon) && dto.beforeShinyDot == ShinyDotOf(fromPokemon)
    ensures dto.afterDot == DotOf(toPokemon) && dto.afterShinyDot == ShinyDotOf(toPokemon)
  {
    EvolutionStep(
      evolution.fromPokemonId,
      DotOf(fromPokemon),
      ShinyDotOf(fromPokemon),
      evolution.toPokemonId,
      DotOf(toPokemon),
      ShinyDotOf(toPokemon),
      evolution.evolutionConditions)
  }

  /** Missing endpoint records blank the images and nothing else. */
  lemma FromEvolutionWithoutEndpoints(evolution: Evolution)
    ensures var dto := FromEvolution(evolution, None, None);
      && dto.beforeDot.None? && dto.beforeShinyDot.None?
      && dto.afterDot.None? && dto.afterShinyDot.None?
      && dto.fromPokemonId == evolution.fromPokemonId
      && dto.toPokemonId == evolution.toPokemonId
      && dto.evolutionConditions == evolution.evolutionConditions
  {
  }

  /** The images of a side depend only on that side's record. */
  lemma FromEvolutionSidesIndependent(evolution: Evolution, from1: Option<Pokemon>, from2: Option<Pokemon>, to: Option<Pokemon>)
    ensures FromEvolution(evolution, from1, to).afterDot == FromEvolution(evolution, from2, to).afterDot
    ensures FromEvolution(evolution, from1, to).afterShinyDot == FromEvolution(evolution, from2, to).afterShinyDot
  {
  }
}
