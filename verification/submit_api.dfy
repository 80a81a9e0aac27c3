/**
 * The `POST /api/scores/submit` handler: validation in source order, then a
 * single- or bulk-score payload forwarded to the store, whose answer decides
 * the status code.
 */
module SubmitApi {

  import opened Wrappers
  import ScoreTypes

  /** One element of a bulk `scores` array, as the client sent it. */
  datatype ScoreItem = ScoreItem(
    holeNumber: Option<int>,
    strokes: Option<int>,
    drivePlayerId: Option<string>,
    mulliganPlayerId: Option<string>)

  /**
   * The request body's fields. `holeNumber` is Some exactly when the field is
   * a JavaScript number; `scores` is Some exactly when it is an array. An
   * element of `scores` is None when it is `null` or `undefined`, whose
   * properties cannot be read; any other non-object element reads as a
   * `ScoreItem` whose fields are all missing.
   */
  datatype Body = Body(
    teamId: Option<string>,
    tournamentType: Option<string>,
    scores: Option<seq<Option<ScoreItem>>>,
    holeNumber: Option<int>,
    strokes: Option<int>,
    drivePlayerId: Option<string>,
    mulliganPlayerId: Option<string>)

  /** `body` is None when the parsed body is null or undefined, so destructuring it throws. */
  datatype Request = Request(httpMethod: string, body: Option<Body>)

  /** The normalised single score handed to the store. */
  datatype SingleScore = SingleScore(
    teamId: string,
    tournamentType: ScoreTypes.TournamentType,
    holeNumber: int,
    strokes: int,
    drivePlayerId: string,
    mulliganPlayerId: Option<string>)

  /** One normalised bulk row; its per-score fields pass through unvalidated. */
  datatype BulkScore = BulkScore(
    teamId: string,
    tournamentType: ScoreTypes.TournamentType,
    holeNumber: Option<int>,
    strokes: Option<int>,
    drivePlayerId: Option<string>,
    mulliganPlayerId: Option<string>)

  datatype Decision =
    | Reject(status: int, error: string)
    | ForwardSingle(score: SingleScore)
    | ForwardBulk(scores: seq<BulkScore>)

  const MethodNotAllowed: int := 405
  const BadRequest: int := 400
  const InternalError: int := 500
  const Ok: int := 200

  const MethodNotAllowedError: string := "Method not allowed"
  const TeamRequiredError: string := "Team ID is required"
  const TournamentTypeError: string := "Valid tournament type is required (2-man or 4-man)"
  const StrokesError: string := "Valid strokes value is required"
  const DrivePlayerError: string := "Drive player ID is required"
  const ScoresArrayError: string := "Scores array is required for bulk submission"
  const InternalErrorMessage: string := "Internal server error"

  /** JavaScript truthiness of an optional string: present and non-empty. */
  predicate Truthy(s: Option<string>)
  {
    s.Some? && s.value != ""
  }

  /** `value || null`: an empty or missing id is forwarded as null. */
  function OrNull(s: Option<string>): (r: Option<string>)
    ensures Truthy(s) ==> r == s
    ensures !Truthy(s) ==> r.None?
  {
    if Truthy(s) then s else None
  }

  /**
   * `scores.map(...)`: every row stamped with the request's team and
   * tournament, or None when reading a `null` element throws.
   */
  function FormatBulk(teamId: string, t: ScoreTypes.TournamentType, items: seq<Option<ScoreItem>>): (r: Option<seq<BulkScore>>)
    ensures r.None? <==> exists i :: 0 <= i < |items| && items[i].None?
    ensures r.Some? ==> |r.value| == |items|
    ensures r.Some? ==> forall i :: 0 <= i < |items| ==>
      && items[i].Some?
      && r.value[i].teamId == teamId
      && r.value[i].tournamentType == t
      && r.value[i].holeNumber == items[i].value.holeNumber
      && r.value[i].strokes == items[i].value.strokes
      && r.value[i].drivePlayerId == items[i].value.drivePlayerId
      && r.value[i].mulliganPlayerId == OrNull(items[i].value.mulliganPlayerId)
    decreases |items|
  {
    if |items| == 0 then Some([])
    else
      match items[0]
      case None => None
      case Some(it) =>
        var rest := FormatBulk(teamId, t, items[1..]);
        if rest.None? then
          assert exists i :: 0 <= i < |items| && items[i].None? by {
            var j :| 0 <= j < |items[1..]| && items[1..][j].None?;
            assert items[j + 1].None?;
          }
          None
        else
          Some([BulkScore(teamId, t, it.holeNumber, it.strokes, it.drivePlayerId, OrNull(it.mulliganPlayerId))] + rest.value)
  }

  /** The body checks after the method check, in the handler's order. */
  function DecideBody(b: Body): (d: Decision)
    ensures !Truthy(b.teamId) ==> d == Reject(BadRequest, TeamRequiredError)
    ensures Truthy(b.teamId) && (b.tournamentType.None? || ScoreTypes.ParseTournamentType(b.tournamentType.value).None?)
      ==> d == Reject(BadRequest, TournamentTypeError)
    ensures d.ForwardSingle? ==> b.holeNumber.Some?
    ensures d.ForwardBulk? ==> b.holeNumber.None? && b.scores.Some? && |b.scores.value| > 0
    ensures d.ForwardBulk? ==> forall i :: 0 <= i < |b.scores.value| ==> b.scores.value[i].Some?
  {
    if !Truthy(b.teamId) then Reject(BadRequest, TeamRequiredError)
    else if b.tournamentType.None? || ScoreTypes.ParseTournamentType(b.tournamentType.value).None? then
      Reject(BadRequest, TournamentTypeError)
    else
      var teamId := b.teamId.value;
      var t := ScoreTypes.ParseTournamentType(b.tournamentType.value).value;
      match b.holeNumber
      case Some(hole) =>
        if b.strokes.None? || b.strokes.value <= 0 then Reject(BadRequest, StrokesError)
        else if !Truthy(b.drivePlayerId) then Reject(BadRequest, DrivePlayerError)
        else ForwardSingle(SingleScore(teamId, t, hole, b.strokes.value, b.drivePlayerId.value, OrNull(b.mulliganPlayerId)))
      case None =>
        if b.scores.None? || |b.scores.value| == 0 then Reject(BadRequest, ScoresArrayError)
        else
          match FormatBulk(teamId, t, b.scores.value)
          case None => Reject(InternalError, InternalErrorMessage)
          case Some(rows) => ForwardBulk(rows)
  }

  /** What the handler forwards, or the error it answers with before forwarding anything. */
  function Decide(req: Request): (d: Decision)
    ensures req.httpMethod != "POST" ==> d == Reject(MethodNotAllowed, MethodNotAllowedError)
    ensures req.httpMethod == "POST" && req.body.None? ==> d == Reject(InternalError, InternalErrorMessage)
    ensures req.httpMethod == "POST" && req.body.Some? ==> d == DecideBody(req.body.value)
  {
    if req.httpMethod != "POST" then Reject(MethodNotAllowed, MethodNotAllowedError)
    else match req.body
      case None => Reject(InternalError, InternalErrorMessage)
      case Some(b) => DecideBody(b)
  }

  /** What the store call produced: a `{success, error}` answer, or an exception. */
  datatype StoreOutcome = Answered(success: bool, error: Option<string>) | Threw

  datatype Response = Response(status: int, success: bool, error: Option<string>)

  /** The response sent for a decision, given what the store did with a forwarded payload. */
  function Respond(d: Decision, store: StoreOutcome): (r: Response)
    ensures d.Reject? ==> r == Response(d.status, false, Some(d.error))
    ensures !d.Reject? && store.Threw? ==> r == Response(InternalError, false, Some(InternalErrorMessage))
    ensures !d.Reject? && store.Answered? ==>
      && r.success == store.success
      && r.error == store.error
      && (r.status == Ok <==> store.success)
      && (r.status != Ok ==> r.status == BadRequest)
  {
    match d
    case Reject(status, error) => Response(status, false, Some(error))
    case _ =>
      match store
      case Threw => Response(InternalError, false, Some(InternalErrorMessage))
      case Answered(success, error) => Response(if success then Ok else BadRequest, success, error)
  }

  /** The handler end to end: only a forwarded payload the store accepts is answered with 200. */
  function Handle(req: Request, store: StoreOutcome): (r: Response)
    ensures req.httpMethod != "POST" ==> r == Response(MethodNotAllowed, false, Some(MethodNotAllowedError))
    ensures r.status == Ok <==> !Decide(req).Reject? && store.Answered? && store.success
    ensures r.status in {Ok, BadRequest, MethodNotAllowed, InternalError}
    ensures r.success <==> r.status == Ok
  {
    Respond(Decide(req), store)
  }

  /** The team check precedes the tournament check: a request failing both gets the team error. */
  lemma TeamCheckedBeforeTournament(b: Body)
    requires !Truthy(b.teamId)
    requires b.tournamentType.None?
    ensures Handle(Request("POST", Some(b)), Threw) == Response(BadRequest, false, Some(TeamRequiredError))
  {
  }

  /** The single path is taken exactly when `hole_number` is a number, once the common checks pass. */
  lemma SinglePathIffHoleNumber(b: Body)
    requires Truthy(b.teamId) && b.tournamentType.Some?
    requires ScoreTypes.ParseTournamentType(b.tournamentType.value).Some?
    ensures b.holeNumber.Some? <==>
      (DecideBody(b).ForwardSingle? || DecideBody(b) in {Reject(BadRequest, StrokesError), Reject(BadRequest, DrivePlayerError)})
  {
  }

  /** On the single path, bad strokes win over a missing driver; a valid pair is forwarded as given. */
  lemma SingleValidation(b: Body, teamId: string, t: ScoreTypes.TournamentType, hole: int)
    requires b.teamId == Some(teamId) && teamId != ""
    requires b.tournamentType == Some(ScoreTypes.TournamentName(t))
    requires b.holeNumber == Some(hole)
    ensures (b.strokes.None? || b.strokes.value <= 0) ==> DecideBody(b) == Reject(BadRequest, StrokesError)
    ensures b.strokes.Some? && b.strokes.value > 0 && !Truthy(b.drivePlayerId)
      ==> DecideBody(b) == Reject(BadRequest, DrivePlayerError)
    ensures b.strokes.Some? && b.strokes.value > 0 && Truthy(b.drivePlayerId)
      ==> DecideBody(b) == ForwardSingle(SingleScore(teamId, t, hole, b.strokes.value,
            b.drivePlayerId.value, OrNull(b.mulliganPlayerId)))
  {
  }

  /** No hole-range check exists: a hole number of 0 or 19 is forwarded like any other. */
  lemma HoleNumberNotRangeChecked(teamId: string, hole: int, strokes: int, driver: string)
    requires teamId != "" && driver != "" && strokes > 0
    ensures Decide(Request("POST", Some(Body(Some(teamId), Some("2-man"), None, Some(hole), Some(strokes), Some(driver), None))))
      == ForwardSingle(SingleScore(teamId, ScoreTypes.TwoMan, hole, strokes, driver, None))
  {
  }

  /**
   * The bulk path forwards every row in order with the request's team and
   * tournament; a `null` element makes the handler throw, which it answers
   * with 500.
   */
  lemma BulkForwardsAllRows(b: Body)
    requires Truthy(b.teamId) && b.tournamentType.Some?
    requires ScoreTypes.ParseTournamentType(b.tournamentType.value).Some?
    requires b.holeNumber.None?
    ensures b.scores.None? || |b.scores.value| == 0 ==> DecideBody(b) == Reject(BadRequest, ScoresArrayError)
    ensures b.scores.Some? && (exists i :: 0 <= i < |b.scores.value| && b.scores.value[i].None?) ==>
      DecideBody(b) == Reject(InternalError, InternalErrorMessage)
    ensures b.scores.Some? && |b.scores.value| > 0 && (forall i :: 0 <= i < |b.scores.value| ==> b.scores.value[i].Some?) ==>
      var fwd := DecideBody(b);
      && fwd.ForwardBulk?
      && |fwd.scores| == |b.scores.value|
      && forall i :: 0 <= i < |fwd.scores| ==>
           && fwd.scores[i].teamId == b.teamId.value
           && Some(ScoreTypes.TournamentName(fwd.scores[i].tournamentType)) == b.tournamentType
           && fwd.scores[i].holeNumber == b.scores.value[i].value.holeNumber
  {
    if b.scores.Some? && |b.scores.value| > 0 {
      var t := ScoreTypes.ParseTournamentType(b.tournamentType.value).value;
      var rows := FormatBulk(b.teamId.value, t, b.scores.value);
      assert rows.None? ==> DecideBody(b) == Reject(InternalError, InternalErrorMessage);
      assert rows.Some? ==> DecideBody(b) == ForwardBulk(rows.value);
    }
  }

  /** Every rejection carries a non-empty message. */
  lemma RejectMessagesNonEmpty(req: Request)
    requires Decide(req).Reject?
    ensures Decide(req).error != ""
    ensures Decide(req).status != Ok
  {
  }
}
