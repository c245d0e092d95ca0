/** A node of the reconstructed evolution tree. */
module EvolutionNodeDto {
  import opened Entities
  import opened PokemonInfoDto

  /** The record projection, the condition of the inbound transition, and the children in order. */
  datatype EvolutionNode = EvolutionNode(
    pokemon: PokemonInfo,
    evolutionConditions: string,
    evolvesTo: seq<EvolutionNode>)

  /** `EvolutionNodeDto.fromPokemon`: a childless node; the condition defaults to "N/A". */
  function FromPokemon(pokemon: Pokemon, conditions: string := "N/A"): (node: EvolutionNode)
    ensures node.pokemon == FromEntity(pokemon) && node.pokemon.id == pokemon.id
    ensures node.evolutionConditions == conditions
    ensures node.evolvesTo == []
  {
    EvolutionNode(FromEntity(pokemon), conditions, [])
  }

  /** Omitting the condition argument gives the sentinel condition. */
  lemma FromPokemonDefaultCondition(pokemon: Pokemon)
    ensures FromPokemon(pokemon).evolutionConditions == "N/A"
  {
  }
}
