/** The record projection carried by every evolution-tree node. */
module PokemonInfoDto {
  import opened Wrappers
  import opened Entities

  datatype PokemonInfo = PokemonInfo(
    id: int,
    name: string,
    dotImage: Option<string>,
    dotShinyImage: Option<string>,
    attribute: string)

  /** `PokemonInfoDto.fromEntity`: copies five fields of the record unchanged. */
  function FromEntity(pokemon: Pokemon): (dto: PokemonInfo)
    ensures dto.id == pokemon.id && dto.name == pokemon.name
    ensures dto.dotImage == pokemon.dotImage && dto.dotShinyImage == pokemon.dotShinyImage
    ensures dto.attribute == pokemon.attribute
  {
    PokemonInfo(pokemon.id, pokemon.name, pokemon.dotImage, pokemon.dotShinyImage, pokemon.attribute)
  }

  /**
   * The projection carries exactly the five copied fields: two records have
   * the same projection if and only if they agree on id, name, the two dot
   * images and the attribute, whatever their other columns hold.
   */
  lemma FromEntityKeepsOnlyFiveFields(p: Pokemon, q: Pokemon)
    ensures FromEntity(p) == FromEntity(q) <==>
      && p.id == q.id && p.name == q.name
      && p.dotImage == q.dotImage && p.dotShinyImage == q.dotShinyImage
      && p.attribute == q.attribute
  {
  }
}
