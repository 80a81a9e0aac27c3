/**
 * The client-side submission hook. Each call is split into the step before
 * the request (the checks and the pending-key bookkeeping) and the step after
 * it, so that other calls may interleave while a request is in flight. The
 * request's outcome is an input.
 */
module ScoreSubmission {

  import opened Wrappers
  import Decimal
  import ScoreTypes
  import SubmitApi

  /** The hook's state. `pending` holds the keys of single-score requests in flight. */
  datatype HookState = HookState(isSubmitting: bool, error: Option<string>, isSuccess: bool, pending: set<string>)

  const InitialState: HookState := HookState(false, None, false, {})

  /** The parameters of one single-score submission. */
  datatype SingleParams = SingleParams(
    teamId: string,
    tournamentType: ScoreTypes.TournamentType,
    holeNumber: int,
    strokes: int,
    drivePlayerId: string,
    mulliganPlayerId: Option<string>)

  /** What a submission call resolves to. */
  datatype SubmissionResponse = Succeeded | Failed(error: string)

  /**
   * How the request ended: the server answered (`ok` is the HTTP status check,
   * `success` and `error` the JSON body), or it threw — with the message of an
   * `Error`, or None for any other thrown value.
   */
  datatype FetchOutcome = Answered(ok: bool, success: bool, error: Option<string>) | Threw(message: Option<string>)

  const AlreadySavingError: string := "This score is already being saved"
  const InProgressError: string := "Submission already in progress"
  const SingleDefaultError: string := "Failed to submit score"
  const BatchDefaultError: string := "Failed to submit scores"
  const UnknownError: string := "Unknown error occurred"

  /** The key that identifies a single-score request: team id, a dash, the hole number. */
  function SubmissionKey(teamId: string, holeNumber: int): (k: string)
    ensures |k| > |teamId| + 1
    ensures k[..|teamId| + 1] == teamId + "-"
    ensures Decimal.ParseInt(k[|teamId| + 1..]) == Some(holeNumber)
  {
    Decimal.ParseIntToString(holeNumber);
    var k := teamId + "-" + Decimal.IntToString(holeNumber);
    assert k[|teamId| + 1..] == Decimal.IntToString(holeNumber);
    k
  }

  /** Two holes of one team never share a key, so they never block each other. */
  lemma SubmissionKeySeparatesHoles(teamId: string, a: int, b: int)
    requires a != b
    ensures SubmissionKey(teamId, a) != SubmissionKey(teamId, b)
  {
  }

  /** The response a finished request resolves to; `default` replaces a missing or empty server error. */
  function Interpret(outcome: FetchOutcome, default: string): (r: SubmissionResponse)
    ensures r.Succeeded? <==> outcome.Answered? && outcome.ok && outcome.success
    ensures outcome.Answered? && !(outcome.ok && outcome.success) ==>
      r.Failed? && r.error == (if outcome.error.Some? && outcome.error.value != "" then outcome.error.value else default)
    ensures outcome.Threw? ==> r == Failed(outcome.message.GetOr(UnknownError))
  {
    match outcome
    case Answered(ok, success, error) =>
      if !ok || !success then
        Failed(if error.Some? && error.value != "" then error.value else default)
      else Succeeded
    case Threw(message) =>
      Failed(if message.Some? then message.value else UnknownError)
  }

  /** The result of the step before a request: refused at once, or sent with the state in flight. */
  datatype Attempt = Refused(response: SubmissionResponse) | Sent(state: HookState)

  /** `submitSingleScore` up to the request. */
  function BeginSingle(s: HookState, p: SingleParams): (a: Attempt)
    ensures SubmissionKey(p.teamId, p.holeNumber) in s.pending <==> a.Refused?
    ensures a.Refused? ==> a.response == Failed(AlreadySavingError)
    ensures a.Sent? ==>
      && a.state.pending == s.pending + {SubmissionKey(p.teamId, p.holeNumber)}
      && a.state.isSubmitting
      && a.state.error.None?
      && a.state.isSuccess == s.isSuccess
  {
    var key := SubmissionKey(p.teamId, p.holeNumber);
    if key in s.pending then Refused(Failed(AlreadySavingError))
    else Sent(HookState(true, None, s.isSuccess, s.pending + {key}))
  }

  /** `submitSingleScore` after the request: map the outcome and drop this request's key. */
  function FinishSingle(s: HookState, p: SingleParams, outcome: FetchOutcome): (r: (HookState, SubmissionResponse))
    ensures r.0.pending == s.pending - {SubmissionKey(p.teamId, p.holeNumber)}
    ensures !r.0.isSubmitting
    ensures r.1 == Interpret(outcome, SingleDefaultError)
    ensures r.1.Succeeded? ==> r.0.isSuccess && r.0.error == s.error
    ensures r.1.Failed? ==> r.0.isSuccess == s.isSuccess && r.0.error == Some(r.1.error)
  {
    var response := Interpret(outcome, SingleDefaultError);
    var key := SubmissionKey(p.teamId, p.holeNumber);
    match response
    case Succeeded => (HookState(false, s.error, true, s.pending - {key}), response)
    case Failed(e) => (HookState(false, Some(e), s.isSuccess, s.pending - {key}), response)
  }

  /**
   * A call that is not refused leaves the pending set as it found it, whatever
   * other requests started or finished in between.
   */
  lemma SingleRestoresPending(s: HookState, p: SingleParams, others: set<string>, outcome: FetchOutcome)
    requires BeginSingle(s, p).Sent?
    requires SubmissionKey(p.teamId, p.holeNumber) !in others
    ensures var mid := BeginSingle(s, p).state;
      FinishSingle(mid.(pending := mid.pending + others), p, outcome).0.pending == s.pending + others
  {
  }

  /** While a request is in flight, a second one for the same team and hole is refused. */
  lemma InFlightBlocksDuplicate(s: HookState, p: SingleParams, q: SingleParams)
    requires BeginSingle(s, p).Sent?
    requires q.teamId == p.teamId && q.holeNumber == p.holeNumber
    ensures BeginSingle(BeginSingle(s, p).state, q) == Refused(Failed(AlreadySavingError))
  {
  }

  /** Once a request has finished, the same score may be sent again, as the mulligan retry does. */
  lemma FinishedAllowsResend(s: HookState, p: SingleParams, outcome: FetchOutcome, q: SingleParams)
    requires q.teamId == p.teamId && q.holeNumber == p.holeNumber
    ensures BeginSingle(FinishSingle(s, p, outcome).0, q).Sent?
  {
  }

  /** `submitScores` up to the request. */
  function BeginBatch(s: HookState): (a: Attempt)
    ensures s.isSubmitting <==> a.Refused?
    ensures a.Refused? ==> a.response == Failed(InProgressError)
    ensures a.Sent? ==> a.state == s.(isSubmitting := true, error := None)
  {
    if s.isSubmitting then Refused(Failed(InProgressError))
    else Sent(s.(isSubmitting := true, error := None))
  }

  /** `submitScores` after the request. */
  function FinishBatch(s: HookState, outcome: FetchOutcome): (r: (HookState, SubmissionResponse))
    ensures !r.0.isSubmitting
    ensures r.0.pending == s.pending
    ensures r.1 == Interpret(outcome, BatchDefaultError)
    ensures r.0.isSuccess <==> r.1.Succeeded?
    ensures r.1.Succeeded? ==> r.0.error == s.error
    ensures r.1.Failed? ==> r.0.error == Some(r.1.error)
  {
    var response := Interpret(outcome, BatchDefaultError);
    match response
    case Succeeded => (s.(isSubmitting := false, isSuccess := true), response)
    case Failed(e) => (s.(isSubmitting := false, isSuccess := false, error := Some(e)), response)
  }

  /** A finished batch releases the guard: the next batch is sent, whatever the outcome was. */
  lemma FinishedBatchAllowsNext(s: HookState, outcome: FetchOutcome)
    requires BeginBatch(s).Sent?
    ensures BeginBatch(FinishBatch(BeginBatch(s).state, outcome).0).Sent?
    ensures FinishBatch(BeginBatch(s).state, outcome).0.pending == s.pending
  {
  }

  /** What `fetch` reports for a route response: `ok` is a 2xx status, the JSON body carries the rest. */
  function Received(r: SubmitApi.Response): FetchOutcome
  {
    Answered(200 <= r.status < 300, r.success, r.error)
  }

  /**
   * Through the route, the hook reports success exactly when the request was
   * forwarded and the store answered with success; a request the route
   * rejects comes back with the route's own message.
   */
  lemma InterpretRouteResponse(req: SubmitApi.Request, store: SubmitApi.StoreOutcome, default: string)
    ensures Interpret(Received(SubmitApi.Handle(req, store)), default).Succeeded?
      <==> !SubmitApi.Decide(req).Reject? && store.Answered? && store.success
    ensures SubmitApi.Decide(req).Reject? ==>
      Interpret(Received(SubmitApi.Handle(req, store)), default) == Failed(SubmitApi.Decide(req).error)
  {
    var d := SubmitApi.Decide(req);
    if d.Reject? {
      SubmitApi.RejectMessagesNonEmpty(req);
    }
  }
}
