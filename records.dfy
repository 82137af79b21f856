/** The records that flow from the schedule feed to the viewer. */
module Records {
  import opened Wrappers
  import opened JsNumber

  /** One row of the published schedule feed: the cells the enrichment
      script reads, by column header ('Match #', 'Date', 'Time',
      'Home Team', 'Away Team', 'ELI7E Team', 'Location', 'Division',
      'Coach Name'). */
  datatype Row = Row(
    matchId: string, date: string, time: string,
    homeTeam: string, awayTeam: string, eli7eTeam: string,
    location: string, division: string, coachName: string)

  /** A `{lat, lon}` pair as the geocoding service and the cache file hold it. */
  datatype Coordinate = Coordinate(lat: Number, lon: Number)

  /** One game of the output dataset (`public/games.json`). `coords` is
      `[lat, lon]`; the viewer also copes with a game that has none. */
  datatype Game = Game(
    matchId: string, date: string, time: string, time24: string,
    homeTeam: string, awayTeam: string,
    location: string, address: string,
    division: string, coachName: string,
    isEli7eGame: bool, eli7eTeamName: Option<string>,
    coords: Option<Coordinate>)

  /** The keys the views group, filter and select games by. */
  function DateOf(g: Game): string { g.date }

  function AddressOf(g: Game): string { g.address }

  function LocationOf(g: Game): string { g.location }

  function CoachOf(g: Game): string { g.coachName }
}
