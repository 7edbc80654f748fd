/**
  The match records of the static data snapshot and the derived match status.
  Timestamps are whole milliseconds since the epoch; the "MM/DD/YYYY HH:MM"
  strings of the data file are taken as already parsed.
 */
module Types {

  datatype Option<+T> = None | Some(value: T) {
    function GetOr(default: T): T {
      match this
      case Some(v) => v
      case None => default
    }
  }

  /** Which playback surface a source needs. */
  datatype SourceType = Video | Iframe

  datatype Quality = HD | SD | Mobile

  /** One playable endpoint of a match. */
  datatype MatchSource = MatchSource(
    id: string,
    name: string,
    url: string,
    kind: SourceType,
    quality: Option<Quality>)

  datatype Teams = Teams(
    teamA: string,
    teamB: string,
    teamALogo: Option<string>,
    teamBLogo: Option<string>)

  datatype AdditionalInfo = AdditionalInfo(
    matchType: Option<string>,
    round: Option<string>,
    description: Option<string>)

  /** One scheduled match; `startTime` and `endTime` in milliseconds. */
  datatype MatchData = MatchData(
    id: string,
    teams: Teams,
    tournament: string,
    venue: string,
    startTime: int,
    endTime: int,
    sources: seq<MatchSource>,
    additionalInfo: Option<AdditionalInfo>)

  /** Derived from the clock, never stored. */
  datatype MatchStatus = Live | Upcoming | Finished
}
