/** The records shared by the score-entry and submission code. */
module ScoreTypes {

  import opened Wrappers

  /** The two tournament formats a score can belong to. */
  datatype TournamentType = TwoMan | FourMan

  /** The wire name of a tournament type. */
  function TournamentName(t: TournamentType): string
  {
    match t
    case TwoMan => "2-man"
    case FourMan => "4-man"
  }

  /** Reads a wire name back; only the two exact names are accepted. */
  function ParseTournamentType(s: string): (r: Option<TournamentType>)
    ensures r.Some? <==> s == "2-man" || s == "4-man"
    ensures r.Some? ==> TournamentName(r.value) == s
  {
    if s == "2-man" then Some(TwoMan)
    else if s == "4-man" then Some(FourMan)
    else None
  }

  lemma ParseTournamentName(t: TournamentType)
    ensures ParseTournamentType(TournamentName(t)) == Some(t)
  {
  }

  /** One stored row of the `scores` table. */
  datatype ScoreRecord = ScoreRecord(
    id: string,
    teamId: string,
    holeNumber: int,
    strokes: int,
    drivePlayerId: string,
    mulliganPlayerId: Option<string>,
    tournamentType: string,
    createdAt: string)
}
