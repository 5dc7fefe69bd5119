/**
 * What the game API answers, as lookup tables: a player or clan the API does not return (an
 * unknown tag, or a failed request) is absent from the table.
 */
module GameApi {
  import opened Wrappers

  /** A player as the API reports it. */
  datatype ApiPlayer = ApiPlayer(tag: string, name: string, townHall: int)

  /** The player lookup, by the tag passed to it. */
  type PlayerApi = map<string, ApiPlayer>

  /** A clan-capital district. */
  datatype District = District(name: string, hallLevel: nat)

  /** A clan's details; the attributes the handlers probe with `hasattr` or test for `None`
      are `Option`s. */
  datatype ClanDetails = ClanDetails(
    warLeague: Option<string>,
    capitalHallLevel: Option<nat>,
    capitalDistricts: Option<seq<District>>)

  /** The clan lookup, by clan tag. */
  type ClanApi = map<string, ClanDetails>
}
