# cdi-scorecard score-keeping core, in Dafny

A model of the score-keeping core of the cdi-scorecard golf-scramble site:

- **the shared formatters**: relative-to-par text, its colour class, the "thru" column and the minimum-drive check;
- **the score-submission API route**: request validation in its fixed order, single and bulk paths, error statuses;
- **the submission hook**: the in-flight key set that blocks a duplicate save of one hole, and the batch guard;
- **the per-hole scoring card**: drive and mulligan counters kept in step with each hole's choices, the mulligan menu's disabled options, the drive summary and the auto-submit guard;
- **the 18-row score sheet**: loading stored scores, recounting drivers, the save-and-retry policy for a refused mulligan, and the drive-requirement warning that clears itself;
- **the leaderboard's team detail table**: padding, sorting and the per-row cells;
- **the admin team manager**: validation, add, edit, save, cancel and delete.

Each React handler is one pure transition over an immutable state. Network calls, timers, `alert` and `confirm` become inputs: the store's answer, the fetch outcome, a fresh id, the confirmation. Integers are unbounded. JavaScript's `Number#toString` of an integral value is `Decimal.IntToString`, and `Decimal.ParseInt` is its inverse. CSS class names are kept as the literal strings of the source.

Modules (one per source component):
- `Wrappers`: the `Option` type.
- `Decimal`: integer to decimal text, and back.
- `Text`: substring search, and JavaScript's white-space test used by `trim()`.
- `ScoreTypes`: the tournament type and the stored score row.
- `ScoreFormatters`, `HoleBands`, `TeamRow`, `SubmitApi`, `ScoreSubmission`, `ScoringForm`, `SheetForm`, `AdminTeams`.

The route accepts any numeric `hole_number`, including 0, 19 and negative values; `SubmitApi.HoleNumberNotRangeChecked` states it.

## Model

| member | source | states |
|---|---|---|
| ScoreTypes.ParseTournamentType | src/types/supabase.ts:188 | exactly "2-man" and "4-man" are tournament types, and each parses to the type whose name it is |
| ScoreTypes.ParseTournamentName | src/types/supabase.ts:188 | every tournament type's name parses back to that type |
| Decimal.ParseIntToString | src/lib/scoreFormatters.ts:40 | an integer's decimal text, with its minus sign, reads back as the same integer |
| Decimal.IntToStringInjective | src/lib/scoreFormatters.ts:40 | two different integers never print alike |
| ScoreFormatters.FormatRelativeToPar | src/lib/scoreFormatters.ts:6-14 | "E" exactly for even par; over par is "+" then the digits, under par is "-" then the digits of the magnitude |
| ScoreFormatters.ParseFormatRelativeToPar | src/lib/scoreFormatters.ts:6-14 | the relative-to-par text reads back as the score it was made from |
| ScoreFormatters.FormatRelativeToParInjective | src/lib/scoreFormatters.ts:6-14 | different scores never show the same relative-to-par text |
| ScoreFormatters.ScoreColorClass | src/lib/scoreFormatters.ts:21-29 | green exactly under par, red exactly over par, grey exactly at even par |
| ScoreFormatters.ScoreColorClassBySign | src/lib/scoreFormatters.ts:21-29 | two scores get the same colour if and only if they have the same sign |
| ScoreFormatters.FormatThru | src/lib/scoreFormatters.ts:36-42 | "F" exactly when 18 holes are complete; otherwise the text reads back as the number of holes |
| ScoreFormatters.ParseFormatThru | src/lib/scoreFormatters.ts:36-42 | the thru column reads back as the number of holes completed |
| ScoreFormatters.CheckMinimumDrives | src/lib/scoreFormatters.ts:50-55 | true if and only if every listed player has at least the minimum number of drives |
| ScoreFormatters.CheckMinimumDrivesVacuous | src/lib/scoreFormatters.ts:50-55 | an empty list always passes |
| ScoreFormatters.CheckMinimumDrivesAntitone | src/lib/scoreFormatters.ts:50-55 | a list that meets a minimum also meets every lower one |
| ScoreFormatters.CheckMinimumDrivesDefault | src/lib/scoreFormatters.ts:50-55 | without an explicit minimum, the required number of drives is 5 |
| HoleBands.Highlight | src/components/scoring/ScoreInputForm.tsx:57-63 | the highlight of a hole is the class of its scoring band, and never empty |
| HoleBands.BandOfMonotone | src/components/scoring/ScoreInputForm.tsx:57-63 | a worse score never falls in a better band |
| HoleBands.HighlightClassInjective | src/components/scoring/ScoreInputForm.tsx:57-63 | the five bands have five different highlight classes |
| TeamRow.FormatScore | src/components/leaderboard/TeamRow.tsx:37-41 | the table's score text is the shared relative-to-par text |
| TeamRow.GetScoreColor | src/components/leaderboard/TeamRow.tsx:44-48 | emerald exactly under par, red exactly over par, dark grey exactly at even par |
| TeamRow.GetScoreColorMatchesShared | src/components/leaderboard/TeamRow.tsx:44-48 | the table colours two scores alike exactly when the shared colour helper does |
| TeamRow.FormatHoleScore | src/components/leaderboard/TeamRow.tsx:51-59 | a hole cell's highlight is the class of its band, the same bands as the scoring card |
| TeamRow.Padded | src/components/leaderboard/TeamRow.tsx:148-161 | the hole list is kept as a prefix and filled up to 18 entries with hole-0 placeholders |
| TeamRow.SortByHole | src/components/leaderboard/TeamRow.tsx:162 | the sorted entries are in hole order and are a permutation of the input |
| TeamRow.Insert | src/components/leaderboard/TeamRow.tsx:162 | inserting into a hole-ordered list keeps it in hole order and adds exactly the new entry |
| TeamRow.SortByHoleStable | src/components/leaderboard/TeamRow.tsx:162 | entries for the same hole keep their relative order |
| TeamRow.SortByHoleOfSorted | src/components/leaderboard/TeamRow.tsx:162 | a list already in hole order is left unchanged |
| TeamRow.Layout | src/components/leaderboard/TeamRow.tsx:148-162 | every table row lists at least 18 entries, in hole order, holding exactly the team's holes plus the placeholders |
| TeamRow.PlaceholdersFirst | src/components/leaderboard/TeamRow.tsx:148-162 | with real holes numbered from 1, all placeholders come first and every real hole comes after them |
| TeamRow.LayoutMisalignsUnfinishedRound | src/components/leaderboard/TeamRow.tsx:133-162 | after only hole 1, the column under header 1 is a placeholder and hole 1 appears under header 18 |
| TeamRow.AlignedLayout | src/components/leaderboard/TeamRow.tsx:133-142 | column k holds the entry for hole k+1 or a placeholder, and a played hole always reaches its own column |
| TeamRow.AlignedLayoutAgreesOnFinishedRound | src/components/leaderboard/TeamRow.tsx:148-162 | for a complete round in hole order, the aligned layout and the sorted layout are the same list |
| TeamRow.ParCell | src/components/leaderboard/TeamRow.tsx:168 | the par cell is a dash exactly when the par is 0, and otherwise reads back as the par |
| TeamRow.ScoreCell | src/components/leaderboard/TeamRow.tsx:198 | the score cell is a dash exactly for a placeholder, and otherwise reads back as the strokes |
| TeamRow.DriveCell | src/components/leaderboard/TeamRow.tsx:227 | the drive cell shows the driver, or a dash when there is none |
| TeamRow.MulliganCell | src/components/leaderboard/TeamRow.tsx:255 | the mulligan cell shows the mulligan player, or a dash when there is none |
| TeamRow.Columns | src/components/leaderboard/TeamRow.tsx:163-256 | one column per entry; column k's par, score, drive and mulligan cells all show entry k, and its score is a dash exactly where that entry is a placeholder |
| TeamRow.PlaceholderColumnsBlank | src/components/leaderboard/TeamRow.tsx:179-201 | an unfinished round shows its dashes in the leading columns |
| TeamRow.DetailTable | src/components/leaderboard/TeamRow.tsx:133-142 | the corrected table (see Findings): 18 columns; column k shows the par, score, drive and mulligan cells of the first entry for header hole k+1, and is dashed exactly where that hole has no score |
| SubmitApi.OrNull | src/pages/api/scores/submit.ts:98 | an empty or missing mulligan id is sent as null, any other is kept |
| SubmitApi.FormatBulk | src/pages/api/scores/submit.ts:113-120 | one stored row per submitted score, in order, each carrying the request's team and tournament; a `null` element throws instead |
| SubmitApi.DecideBody | src/pages/api/scores/submit.ts:61-110 | a missing team id is rejected first, then a bad tournament type; a hole number selects the single path; otherwise a non-empty score list is required |
| SubmitApi.Decide | src/pages/api/scores/submit.ts:43-58 | anything but POST gets 405; a body that cannot be read gets 500; otherwise the body decides |
| SubmitApi.Handle | src/pages/api/scores/submit.ts:42-131 | anything but POST gets 405; the answer is 200 exactly when the payload was forwarded and the store reported success; only 200, 400, 405 and 500 occur |
| SubmitApi.Respond | src/pages/api/scores/submit.ts:101-131 | a rejection carries its status and message; a thrown store gives 500; otherwise 200 on success and 400 on failure |
| SubmitApi.TeamCheckedBeforeTournament | src/pages/api/scores/submit.ts:61-75 | a request missing both team and tournament is refused for the team |
| SubmitApi.SinglePathIffHoleNumber | src/pages/api/scores/submit.ts:78 | a valid request takes the single path exactly when it has a numeric hole number |
| SubmitApi.SingleValidation | src/pages/api/scores/submit.ts:80-101 | strokes must be positive, then a driver is required, then the score is forwarded with its mulligan |
| SubmitApi.HoleNumberNotRangeChecked | src/pages/api/scores/submit.ts:78-101 | any hole number, inside or outside 1 to 18, is forwarded once strokes and driver are valid |
| SubmitApi.BulkForwardsAllRows | src/pages/api/scores/submit.ts:105-124 | without a hole number, a missing or empty list is refused with 400, a list holding a `null` element is answered with 500, and any other list is forwarded whole |
| ScoreSubmission.SubmissionKey | src/lib/useScoreSubmission.ts:97 | the key is the team id, a dash, then text that reads back as the hole number |
| ScoreSubmission.SubmissionKeySeparatesHoles | src/lib/useScoreSubmission.ts:97 | two holes of one team never share a key |
| ScoreSubmission.Interpret | src/lib/useScoreSubmission.ts:70-84 | success exactly when the response is ok and reports success; otherwise the server's message, the default, or the thrown message |
| ScoreSubmission.InterpretRouteResponse | src/lib/useScoreSubmission.ts:111-138 | through the route, the hook reports success exactly when the route forwarded the payload and the store succeeded; a rejected request returns the route's own message |
| ScoreSubmission.BeginSingle | src/lib/useScoreSubmission.ts:97-108 | a save whose key is in flight is refused; otherwise the key joins the in-flight set and submitting starts |
| ScoreSubmission.FinishSingle | src/lib/useScoreSubmission.ts:110-152 | the key leaves the in-flight set, submitting stops, and the error or success flag follows the outcome |
| ScoreSubmission.SingleRestoresPending | src/lib/useScoreSubmission.ts:97-152 | a save and its completion leave the in-flight set as it was |
| ScoreSubmission.InFlightBlocksDuplicate | src/lib/useScoreSubmission.ts:99-102 | while a hole is being saved, a second save of it is refused |
| ScoreSubmission.FinishedAllowsResend | src/lib/useScoreSubmission.ts:144-151 | once a save completes, the same hole can be saved again |
| ScoreSubmission.BeginBatch | src/lib/useScoreSubmission.ts:50-56 | a batch is refused exactly while one is in progress; otherwise the error is cleared |
| ScoreSubmission.FinishBatch | src/lib/useScoreSubmission.ts:59-87 | submitting stops, success is set exactly on success, and a failure records its message |
| ScoreSubmission.FinishedBatchAllowsNext | src/lib/useScoreSubmission.ts:47-88 | once a batch has finished, whatever its outcome, the next batch is sent, and single-score keys are untouched |
| ScoringForm.InitialForm | src/components/scoring/ScoreInputForm.tsx:75-103 | one blank entry per course hole in course order, a zero drive counter for every team player, and each player's starting mulligans, the later player winning for a repeated id |
| ScoringForm.FormatHoleScore | src/components/scoring/ScoreInputForm.tsx:55-64 | no style without strokes; otherwise the class of the hole's band |
| ScoringForm.Allowance | src/components/scoring/ScoreInputForm.tsx:94-103 | every team player gets a counter holding their starting mulligans; for a repeated id the later player wins |
| ScoringForm.InitialFormInvariants | src/components/scoring/ScoreInputForm.tsx:75-103 | both counter invariants hold on the fresh card |
| ScoringForm.UpdatedScores | src/components/scoring/ScoreInputForm.tsx:144-196 | the entries for the hole get the field set and all other entries are unchanged |
| ScoringForm.DriveFold | src/components/scoring/ScoreInputForm.tsx:148-163 | each drive counter keeps its offset from the number of holes that player drove |
| ScoringForm.MulliganFold | src/components/scoring/ScoreInputForm.tsx:164-189 | each remaining-mulligan counter plus the mulligans that player used stays constant |
| ScoringForm.StrokesKeepsCounters | src/components/scoring/ScoreInputForm.tsx:148-189 | a strokes edit never moves a drive or mulligan counter |
| ScoringForm.UpdateUniqueHole | src/components/scoring/ScoreInputForm.tsx:165-189 | with one entry per hole, the mulligan counters move only by that hole's old and new mulligan |
| ScoringForm.UpdateHoleScore | src/components/scoring/ScoreInputForm.tsx:139-198 | only the hole's entries change; a strokes edit leaves both counters alone; both balances are kept |
| ScoringForm.UpdatePreservesInvariants | src/components/scoring/ScoreInputForm.tsx:139-198 | drive counter equals drives taken, and mulligans left plus used equals the allowance, after every edit |
| ScoringForm.ReselectingMulliganIsNoOp | src/components/scoring/ScoreInputForm.tsx:174 | choosing the mulligan a hole already has changes neither the card nor the counters |
| ScoringForm.IncompleteHoles | src/components/scoring/ScoreInputForm.tsx:107-113 | zero exactly when every hole has strokes and a driver |
| ScoringForm.AutoSubmit | src/components/scoring/ScoreInputForm.tsx:105-129 | the card is handed over exactly when it is complete and every drive counter meets the minimum |
| ScoringForm.SubmittedMeetsMinimumDrives | src/components/scoring/ScoreInputForm.tsx:105-129 | a handed-over card has every team player driving at least the minimum number of holes |
| ScoringForm.FindHole | src/components/scoring/ScoreInputForm.tsx:224 | the first entry for the hole, or none exactly when no entry has that hole |
| ScoringForm.MulliganOptionDisabled | src/components/scoring/ScoreInputForm.tsx:316-322 | a player is greyed out exactly when they have no mulligans left and are not this hole's current mulligan |
| ScoringForm.EnabledMulliganKeepsCountsNonNegative | src/components/scoring/ScoreInputForm.tsx:164-189 | choosing only enabled mulligan options never drives a remaining count below zero |
| ScoringForm.DriveStatusOf | src/components/scoring/ScoreInputForm.tsx:362-370 | met at or above the minimum; impossible when short and every hole already has a driver; low otherwise |
| ScoringForm.ImpossibleBlocksSubmission | src/components/scoring/ScoreInputForm.tsx:362-370 | a player shown as impossible keeps the card from being handed over |
| SheetForm.GetScoreClass | src/components/scoreInput/ScoreInputForm.tsx:24-33 | no class without a score or a par; otherwise the class of the hole's band |
| SheetForm.GetPlayerSelectClass | src/components/scoreInput/ScoreInputForm.tsx:36-45 | the first team player's class exactly for the first player, the second's for the second, none otherwise |
| SheetForm.FirstIndex | src/components/scoreInput/ScoreInputForm.tsx:91 | the first position holding the hole, or -1 exactly when no element holds it |
| SheetForm.LoadSheet | src/components/scoreInput/ScoreInputForm.tsx:81-117 | 18 rows for holes 1 to 18 from the first stored score of each, and one counter per team player equal to the rows they drive |
| SheetForm.FindIndex | src/components/scoreInput/ScoreInputForm.tsx:229 | the first row for the hole, or -1 when there is none |
| SheetForm.RecountDrivers | src/components/scoreInput/ScoreInputForm.tsx:237-255 | the old driver's counter drops by one but not below 0, the new driver's rises by one, every other counter is kept, and no counter is added or removed |
| SheetForm.UpdateScore | src/components/scoreInput/ScoreInputForm.tsx:222-272 | only the hole's first row changes; a save is scheduled exactly when that row has strokes and a driver |
| SheetForm.UpdateScorePreservesDriveInvariant | src/components/scoreInput/ScoreInputForm.tsx:222-272 | each team player's counter still equals the rows they drive after any edit |
| SheetForm.SaveScore | src/components/scoreInput/ScoreInputForm.tsx:131-205 | nothing is sent without strokes and a driver; a refused mulligan is retried once without it; a successful retry leaves the mulligan-dropped notice, a failed one "Error saving score: " and its error; the other outcomes leave their own message |
| SheetForm.ApplySaveReport | src/components/scoreInput/ScoreInputForm.tsx:188-196 | a successful retry clears the hole's mulligan and nothing else |
| SheetForm.ApplySaveReportKeepsDrivers | src/components/scoreInput/ScoreInputForm.tsx:188-196 | clearing a mulligan keeps the drive counters correct |
| SheetForm.FilledHoles | src/components/scoreInput/ScoreInputForm.tsx:301-306 | the number of row positions that have strokes and a driver |
| SheetForm.FilledHolesAllReady | src/components/scoreInput/ScoreInputForm.tsx:301-306 | every row counts as filled exactly when every row has strokes and a driver |
| SheetForm.CheckerMatchesRequirement | src/components/scoreInput/ScoreInputForm.tsx:278-287 | the shared check over the listed counters is the requirement on the counters themselves |
| SheetForm.DriveRequirementCheck | src/components/scoreInput/ScoreInputForm.tsx:275-313 | no check under 9 filled holes; a shortfall sets the warning; a met requirement only ever clears the warning |
| SheetForm.DriveWarningClearsItself | src/components/scoreInput/ScoreInputForm.tsx:289-298 | once the requirement is met the drive warning is cleared and any other message is kept |
| AdminTeams.Validate | src/components/admin/AdminTeamsManager.tsx:139-150 | the team name is checked first; then every player needs a name and an email that are not blank |
| AdminTeams.WithIds | src/components/admin/AdminTeamsManager.tsx:156-159 | each draft player keeps its fields and gets its own new id |
| AdminTeams.DraftsOfWithIds | src/components/admin/AdminTeamsManager.tsx:152-160 | giving draft players ids keeps every form field, so the saved team reads back as the draft |
| AdminTeams.AddTeam | src/components/admin/AdminTeamsManager.tsx:137-183 | an invalid draft changes nothing and raises the alert; a valid one raises no alert, is appended and the form resets to two blank players |
| AdminTeams.AddTeamAppends | src/components/admin/AdminTeamsManager.tsx:162 | a successful add grows the list by one at the end and keeps every earlier team |
| AdminTeams.AddThenDelete | src/components/admin/AdminTeamsManager.tsx:137-225 | deleting a team just added under a fresh id restores the list |
| AdminTeams.BlankNameRejected | src/components/admin/AdminTeamsManager.tsx:139-142 | a team whose name is only white space is never added |
| AdminTeams.ReplaceById | src/components/admin/AdminTeamsManager.tsx:208-210 | every team with the edited id is replaced and every other is kept, in place |
| AdminTeams.StartEdit | src/components/admin/AdminTeamsManager.tsx:185-190 | the edit form holds a copy of the team; the list, the add form and every other part of the manager are unchanged |
| AdminTeams.StartThenCancel | src/components/admin/AdminTeamsManager.tsx:185-219 | opening an edit and cancelling it, with no edit open before, leaves the manager as it was |
| AdminTeams.SaveEdit | src/components/admin/AdminTeamsManager.tsx:192-214 | no edit does nothing; an invalid edit raises the alert; a valid one replaces the team and closes the form |
| AdminTeams.SaveEditReplacesOnlyItsTeam | src/components/admin/AdminTeamsManager.tsx:208-213 | saving keeps the list's length and order and touches only the teams with the edited id |
| AdminTeams.CancelEdit | src/components/admin/AdminTeamsManager.tsx:216-219 | the edit form closes and the list is unchanged |
| AdminTeams.RemoveById | src/components/admin/AdminTeamsManager.tsx:223 | no surviving team carries the deleted id, and the list never grows |
| AdminTeams.RemoveByIdAppend | src/components/admin/AdminTeamsManager.tsx:223 | the survivors of two joined lists are the survivors of each, in order |
| AdminTeams.RemoveByIdCons | src/components/admin/AdminTeamsManager.tsx:223 | the first team stays at the front exactly when its id differs, ahead of the filtered rest |
| AdminTeams.RemoveByIdCount | src/components/admin/AdminTeamsManager.tsx:223 | removal drops exactly as many teams as carry the id |
| AdminTeams.RemoveAbsentId | src/components/admin/AdminTeamsManager.tsx:223 | removing an id no team carries changes nothing |
| AdminTeams.RemoveByIdMembers | src/components/admin/AdminTeamsManager.tsx:223 | a team survives exactly when it was listed under another id |
| AdminTeams.DeleteTeam | src/components/admin/AdminTeamsManager.tsx:221-225 | an unconfirmed delete changes nothing; a confirmed one keeps exactly the teams with other ids, in their order |
| AdminTeams.NewPlayerChange | src/components/admin/AdminTeamsManager.tsx:96-110 | one field of one draft player changes; every other player, the draft's own fields and every other part of the manager are unchanged |
| AdminTeams.EditPlayerChange | src/components/admin/AdminTeamsManager.tsx:120-135 | without an edit nothing happens; otherwise one field of one player in the edit form changes and every other part of the manager is unchanged |
| AdminTeams.NewTeamChange | src/components/admin/AdminTeamsManager.tsx:89-94 | one team-level field of the add form changes; the players and every other part of the manager stay |
| AdminTeams.EditTeamChange | src/components/admin/AdminTeamsManager.tsx:112-118 | without an edit nothing happens; otherwise one team-level field of the edit form changes and every other part of the manager is unchanged |
| AdminTeams.EditsStayInTheForm | src/components/admin/AdminTeamsManager.tsx:112-135 | field edits and cancelling never touch the team list |
| AdminTeams.SetPlayerFieldTouchesOneField | src/components/admin/AdminTeamsManager.tsx:126-130 | setting a player field changes that field alone |

## Left out

- Database I/O: the Supabase queries, the upsert and the realtime feed are not modelled. The store's answer is an input, and the stored row is `ScoreTypes.ScoreRecord`. The upsert key (team, hole, tournament) at src/utils/supabase-client.ts:159 is not modelled. The stored rows a team query returns may hold one row per hole for each tournament type. The sheet keeps one row per hole because `SheetForm.LoadSheet` builds holes 1 to 18 and takes the first stored row for each.
- The leaderboard aggregation (`lib/supabaseQueries.ts`) and the leaderboard table are not part of this model.
- React scheduling is not modelled:
  - the 500 ms debounce before a sheet save;
  - effect ordering;
  - updater functions run twice under StrictMode;
  - the 3-second timer that resets the success flag.
  Each handler is one atomic transition; the hook is split into begin and finish transitions so saves of other holes can interleave.
- Stale closures are not modelled. The hook reads `pendingSubmissions` and `error` from the render that created it. The model reads the current state.
- ScoreSubmission.InFlightBlocksDuplicate: holds only for a caller that sees the current in-flight set. The sheet's 500 ms timers are never cleared, and each calls the `saveScore` of the render where its edit was made. That `submitSingleScore` reads `pendingSubmissions` from the same render. So two edits of one hole within 500 ms both send a request.
- `fetch`, JSON parsing, response data and thrown-error objects: only `ok`, `success`, the error text and a thrown message are modelled.
- `alert`, `confirm`, `Date.now()` and `Math.random()` are inputs. A player id from `Date.now() + Math.random()` is a fractional number in the source; here it is an integer supplied by the caller.
- `handleSendInvitation` only raises an alert. The buttons that open the add form and the `clearError`/`resetSuccess` setters each assign one field. None of these is modelled.
- JSX rendering beyond the cells listed in the table, the mock team data, the course data and the `HoleInput` component are not modelled.
- JavaScript numbers: `NaN` from `parseInt` or from arithmetic on a missing counter is not modelled. A missing counter reads as 0. Only ids of team players reach the counters through the select menus. The exponent form that `Number#toString` uses at 10^21 and above is not modelled.
- The `catch` around the sheet's save is not modelled. The hook already catches every thrown error and returns a failure, so the sheet's handler never sees one.
- AdminTeams.NewPlayerChange: requires an index inside the draft's player list. The form only passes indices of rendered players. In JavaScript an index past the end would extend the list.
- AdminTeams.EditPlayerChange: requires an index inside the edited team's player list, for the same reason.
- SheetForm.LoadSheet: the drive invariant is stated for non-empty player ids. A stored row without a driver is created with an empty driver and is never counted, so an empty id cannot be kept in step.
- TeamRow.Columns: cells are modelled as their text only, without the trailing space the score cell renders and without the cells' CSS classes; the score cell's highlight is `TeamRow.FormatHoleScore`, stated on its own.
- TeamRow.SortByHole: stability is stated per hole (entries for one hole keep their order), not as one statement about the whole list.

## Findings

| source | as written | input that shows it | evidently intended | confidence | as-written member | corrected member |
|---|---|---|---|---|---|---|
| src/components/leaderboard/TeamRow.tsx:148-162 | each detail row pads the team's holes with hole-0 placeholders and then sorts by hole, so the placeholders move to the front | a team that has played only hole 1: the column under header "1" shows a dash and hole 1's score appears under header "18" | column k shows hole k+1, with dashes only under holes not yet played | not executed | TeamRow.LayoutMisalignsUnfinishedRound | TeamRow.AlignedLayout |
