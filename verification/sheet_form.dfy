/**
 * The 18-row score sheet: rows built from the team's stored scores, drive
 * counters derived from them, driver changes that keep the counters in step,
 * the save guard with its one-shot retry without the mulligan, and the
 * minimum-drives warning.
 */
module SheetForm {

  import opened Wrappers
  import Decimal
  import Text
  import HoleBands
  import ScoreTypes
  import ScoreFormatters
  import ScoreSubmission

  /** One row of the sheet; `driver` is "" while no driver is chosen. */
  datatype Row = Row(holeNumber: int, strokes: int, driver: string, mulligan: Option<string>)

  datatype Sheet = Sheet(rows: seq<Row>, driveCounts: map<string, int>)

  /** The strokes input's class: none without strokes or a par, else the band of strokes minus par. */
  function GetScoreClass(score: int, par: Option<int>): (r: string)
    ensures r == "" <==> score == 0 || par.None? || par.value == 0
    ensures r != "" ==> r == HoleBands.SheetClass(HoleBands.BandOf(score - par.value))
  {
    if score == 0 || par.None? || par.value == 0 then ""
    else
      var relativeScore := score - par.value;
      if relativeScore <= -2 then "score-eagle"
      else if relativeScore == -1 then "score-birdie"
      else if relativeScore == 0 then "score-equal-par"
      else if relativeScore == 1 then "score-bogey"
      else if relativeScore >= 2 then "score-double-bogey-plus"
      else ""
  }

  /** The select's class by the chosen player's position in the team. */
  function GetPlayerSelectClass(selected: Option<string>, playerMap: map<string, int>): (r: string)
    ensures r == "player1-selected" <==>
      selected.Some? && selected.value != "" && selected.value in playerMap && playerMap[selected.value] == 0
    ensures r == "player2-selected" <==>
      selected.Some? && selected.value != "" && selected.value in playerMap && playerMap[selected.value] == 1
    ensures r in {"", "player1-selected", "player2-selected"}
  {
    if selected.None? || selected.value == "" then ""
    else if selected.value !in playerMap then ""
    else if playerMap[selected.value] == 0 then "player1-selected"
    else if playerMap[selected.value] == 1 then "player2-selected"
    else ""
  }

  /** The index of the first element whose hole is `h`, or -1: how both `find` and `findIndex` search. */
  function FirstIndex<T>(s: seq<T>, holeOf: T -> int, h: int): (r: int)
    ensures -1 <= r < |s|
    ensures r == -1 <==> forall i :: 0 <= i < |s| ==> holeOf(s[i]) != h
    ensures r >= 0 ==> holeOf(s[r]) == h && forall j :: 0 <= j < r ==> holeOf(s[j]) != h
    decreases |s|
  {
    if |s| == 0 then -1
    else if holeOf(s[0]) == h then 0
    else
      var r := FirstIndex(s[1..], holeOf, h);
      if r == -1 then -1 else r + 1
  }

  /** `scoresData.find(...)`: the first stored score for hole `h`. */
  function FirstForHole(stored: seq<ScoreTypes.ScoreRecord>, h: int): Option<ScoreTypes.ScoreRecord>
  {
    var i := FirstIndex(stored, (s: ScoreTypes.ScoreRecord) => s.holeNumber, h);
    if i == -1 then None else Some(stored[i])
  }

  /** The row loaded for hole `h`: the first stored score, or an empty row. */
  function RowForHole(stored: seq<ScoreTypes.ScoreRecord>, h: int): Row
  {
    match FirstForHole(stored, h)
    case Some(s) => Row(h, s.strokes, s.drivePlayerId, s.mulliganPlayerId)
    case None => Row(h, 0, "", None)
  }

  function Ind(b: bool): nat
  {
    if b then 1 else 0
  }

  /** The number of rows driven by `player`. */
  function Driven(rows: seq<Row>, player: string): nat
    decreases |rows|
  {
    if |rows| == 0 then 0 else Driven(rows[..|rows| - 1], player) + Ind(rows[|rows| - 1].driver == player)
  }

  lemma DrivenSnoc(rows: seq<Row>, row: Row, player: string)
    ensures Driven(rows + [row], player) == Driven(rows, player) + Ind(row.driver == player)
  {
    assert (rows + [row])[..|rows|] == rows;
  }

  function SeqSet(ids: seq<string>): set<string>
  {
    set i | 0 <= i < |ids| :: ids[i]
  }

  /** Every team player with a non-empty id has a counter equal to the rows they drove. */
  ghost predicate DriveInvariant(s: Sheet)
  {
    forall p :: p in s.driveCounts && p != "" ==> s.driveCounts[p] == Driven(s.rows, p)
  }

  /** `fetchData`: the 18 rows and the drive counters of the team's players. */
  method LoadSheet(stored: seq<ScoreTypes.ScoreRecord>, playerIds: seq<string>) returns (sheet: Sheet)
    ensures |sheet.rows| == 18
    ensures forall i :: 0 <= i < 18 ==> sheet.rows[i] == RowForHole(stored, i + 1)
    ensures sheet.driveCounts.Keys == SeqSet(playerIds)
    ensures DriveInvariant(sheet)
  {
    var counts: map<string, int> := map p | p in SeqSet(playerIds) :: 0;
    var rows: seq<Row> := [];
    var i := 1;
    while i <= 18
      invariant 1 <= i <= 19
      invariant |rows| == i - 1
      invariant forall k :: 0 <= k < |rows| ==> rows[k] == RowForHole(stored, k + 1)
      invariant counts.Keys == SeqSet(playerIds)
      invariant forall p :: p in counts && p != "" ==> counts[p] == Driven(rows, p)
    {
      var existing := FirstForHole(stored, i);
      var row: Row;
      var before := counts;
      if existing.Some? {
        row := Row(i, existing.value.strokes, existing.value.drivePlayerId, existing.value.mulliganPlayerId);
        var d := existing.value.drivePlayerId;
        if d in counts {
          counts := counts[d := counts[d] + 1];
        }
      } else {
        row := Row(i, 0, "", None);
      }
      forall p | p in counts && p != ""
        ensures counts[p] == Driven(rows + [row], p)
      {
        DrivenSnoc(rows, row, p);
      }
      rows := rows + [row];
      i := i + 1;
    }
    sheet := Sheet(rows, counts);
  }

  /** `findIndex`: the first row for `hole`, or -1. */
  function FindIndex(rows: seq<Row>, hole: int): (r: int)
    ensures -1 <= r < |rows|
    ensures r == -1 <==> forall i :: 0 <= i < |rows| ==> rows[i].holeNumber != hole
    ensures r >= 0 ==> rows[r].holeNumber == hole && forall j :: 0 <= j < r ==> rows[j].holeNumber != hole
  {
    FirstIndex(rows, (row: Row) => row.holeNumber, hole)
  }

  /** The field edits the sheet's inputs make. */
  datatype Change = SetStrokes(strokes: int) | SetDriver(driver: string) | SetMulligan(mulligan: Option<string>)

  function Apply(row: Row, change: Change): Row
  {
    match change
    case SetStrokes(n) => row.(strokes := n)
    case SetDriver(d) => row.(driver := d)
    case SetMulligan(m) => row.(mulligan := m)
  }

  /** The save guard: strokes entered and a driver chosen. */
  predicate ReadyToSave(row: Row)
  {
    row.strokes > 0 && row.driver != ""
  }

  /** `id && counts[id] !== undefined`: a chosen driver who has a counter. */
  predicate Counted(counts: map<string, int>, id: string)
  {
    id != "" && id in counts
  }

  /** `Math.max(0, n - 1)` */
  function Decrement(n: int): (r: int)
    ensures r >= 0 && r >= n - 1
    ensures n >= 1 ==> r == n - 1
  {
    if n - 1 > 0 then n - 1 else 0
  }

  /** The counters after a driver change: the old driver loses one (never below 0), the new one gains one. */
  function RecountDrivers(counts: map<string, int>, oldDriver: string, newDriver: string): (r: map<string, int>)
    ensures r.Keys == counts.Keys
    ensures Counted(counts, oldDriver) && oldDriver != newDriver ==> r[oldDriver] == Decrement(counts[oldDriver])
    ensures Counted(counts, newDriver) && newDriver != oldDriver ==> r[newDriver] == counts[newDriver] + 1
    ensures Counted(counts, oldDriver) && oldDriver == newDriver ==> r[oldDriver] == Decrement(counts[oldDriver]) + 1
    ensures forall p :: p in counts && !(Counted(counts, p) && (p == oldDriver || p == newDriver)) ==> r[p] == counts[p]
  {
    var c1 := if oldDriver != "" && oldDriver in counts then
      counts[oldDriver := Decrement(counts[oldDriver])]
    else counts;
    if newDriver != "" && newDriver in c1 then c1[newDriver := c1[newDriver] + 1] else c1
  }

  /**
   * `updateScore`: change the first row for `hole`, recount drivers when the
   * driver changes, and schedule a save of the changed row when it passes the
   * save guard.
   */
  function UpdateScore(s: Sheet, hole: int, change: Change): (r: (Sheet, Option<Row>))
    ensures FindIndex(s.rows, hole) == -1 ==> r == (s, None)
    ensures FindIndex(s.rows, hole) >= 0 ==>
      var i := FindIndex(s.rows, hole);
      && r.0.rows == s.rows[i := Apply(s.rows[i], change)]
      && r.1 == (if ReadyToSave(Apply(s.rows[i], change)) then Some(Apply(s.rows[i], change)) else None)
    ensures r.0.driveCounts.Keys == s.driveCounts.Keys
    ensures !change.SetDriver? ==> r.0.driveCounts == s.driveCounts
  {
    var i := FindIndex(s.rows, hole);
    if i == -1 then (s, None)
    else
      var updated := Apply(s.rows[i], change);
      var counts := if change.SetDriver? then RecountDrivers(s.driveCounts, s.rows[i].driver, change.driver) else s.driveCounts;
      (Sheet(s.rows[i := updated], counts), if ReadyToSave(updated) then Some(updated) else None)
  }

  /** Replacing one row changes each player's drive tally by what that row's driver changed. */
  lemma {:induction false} DrivenUpdate(rows: seq<Row>, i: int, row: Row, p: string)
    requires 0 <= i < |rows|
    ensures Driven(rows[i := row], p) + Ind(rows[i].driver == p) == Driven(rows, p) + Ind(row.driver == p)
    decreases |rows|
  {
    var n := |rows| - 1;
    if i < n {
      assert rows[i := row][..n] == rows[..n][i := row];
      DrivenUpdate(rows[..n], i, row, p);
    } else {
      assert rows[i := row][..n] == rows[..n];
    }
  }

  /** Changing the driver keeps every counter equal to its player's tally; the floor at 0 never applies. */
  lemma UpdateScorePreservesDriveInvariant(s: Sheet, hole: int, change: Change)
    requires DriveInvariant(s)
    ensures DriveInvariant(UpdateScore(s, hole, change).0)
  {
    var i := FindIndex(s.rows, hole);
    if i >= 0 {
      var r := UpdateScore(s, hole, change).0;
      var old_ := s.rows[i].driver;
      var new_ := Apply(s.rows[i], change).driver;
      forall p | p in r.driveCounts && p != ""
        ensures r.driveCounts[p] == Driven(r.rows, p)
      {
        DrivenUpdate(s.rows, i, Apply(s.rows[i], change), p);
        if old_ == p {
          DrivenUpdate(s.rows, i, s.rows[i].(driver := ""), p);
        }
      }
    }
  }

  const RlsMarker: string := "row-level security policy"
  const MulliganDroppedMessage: string := "Mulligan not allowed due to permissions. Score saved without mulligan."

  /** The request `saveScore` sends for a row. */
  function ParamsFor(row: Row, teamId: string, t: ScoreTypes.TournamentType): ScoreSubmission.SingleParams
  {
    ScoreSubmission.SingleParams(teamId, t, row.holeNumber, row.strokes, row.driver, row.mulligan)
  }

  /** What `saveScore` did: the requests it sent, the form error it left, whether it clears the hole's mulligan. */
  datatype SaveReport = SaveReport(requests: seq<ScoreSubmission.SingleParams>, formError: Option<string>, clearMulligan: bool)

  predicate Truthy(s: Option<string>)
  {
    s.Some? && s.value != ""
  }

  /**
   * `saveScore`, given the responses of the first request and of the retry.
   * A row-level security failure on a row with a mulligan is retried once
   * without the mulligan.
   */
  function SaveScore(row: Row, teamId: string, t: ScoreTypes.TournamentType, formError: Option<string>,
                     first: ScoreSubmission.SubmissionResponse, retry: ScoreSubmission.SubmissionResponse): (r: SaveReport)
    ensures !ReadyToSave(row) ==> r == SaveReport([], formError, false)
    ensures ReadyToSave(row) ==> 1 <= |r.requests| <= 2 && r.requests[0] == ParamsFor(row, teamId, t)
    ensures |r.requests| == 2 <==>
      ReadyToSave(row) && first.Failed? && Text.Contains(first.error, RlsMarker) && Truthy(row.mulligan)
    ensures |r.requests| == 2 ==> r.requests[1] == r.requests[0].(mulliganPlayerId := None)
    ensures r.clearMulligan <==> |r.requests| == 2 && retry.Succeeded?
    ensures ReadyToSave(row) && first.Succeeded? ==> r.formError.None?
    ensures |r.requests| == 2 && retry.Succeeded? ==> r.formError == Some(MulliganDroppedMessage)
    ensures |r.requests| == 2 && retry.Failed? ==> r.formError == Some("Error saving score: " + retry.error)
    ensures ReadyToSave(row) && first.Failed? && Text.Contains(first.error, RlsMarker) && !Truthy(row.mulligan)
      ==> r.formError == Some("Permission denied: " + first.error)
    ensures ReadyToSave(row) && first.Failed? && !Text.Contains(first.error, RlsMarker)
      ==> r.formError == (if first.error != "" then Some(first.error) else None)
  {
    if !ReadyToSave(row) then SaveReport([], formError, false)
    else
      var request := ParamsFor(row, teamId, t);
      match first
      case Succeeded => SaveReport([request], None, false)
      case Failed(e) =>
        if Text.Contains(e, RlsMarker) then
          if Truthy(row.mulligan) then
            var again := request.(mulliganPlayerId := None);
            match retry
            case Succeeded => SaveReport([request, again], Some(MulliganDroppedMessage), true)
            case Failed(e2) => SaveReport([request, again], Some("Error saving score: " + e2), false)
          else SaveReport([request], Some("Permission denied: " + e), false)
        else if e != "" then SaveReport([request], Some(e), false)
        else SaveReport([request], None, false)
  }

  /** After a successful retry, only the saved hole's mulligan is cleared on the sheet. */
  function ApplySaveReport(s: Sheet, hole: int, report: SaveReport): (r: Sheet)
    ensures r.driveCounts == s.driveCounts
    ensures |r.rows| == |s.rows|
    ensures forall i :: 0 <= i < |s.rows| ==>
      r.rows[i] == if report.clearMulligan && s.rows[i].holeNumber == hole then s.rows[i].(mulligan := None) else s.rows[i]
  {
    if !report.clearMulligan then s
    else Sheet(seq(|s.rows|, i requires 0 <= i < |s.rows| =>
      if s.rows[i].holeNumber == hole then s.rows[i].(mulligan := None) else s.rows[i]), s.driveCounts)
  }

  /** Clearing a mulligan never disturbs the drive counters' invariant. */
  lemma {:induction false} ApplySaveReportKeepsDrivers(s: Sheet, hole: int, report: SaveReport)
    requires DriveInvariant(s)
    ensures DriveInvariant(ApplySaveReport(s, hole, report))
  {
    var r := ApplySaveReport(s, hole, report);
    forall p | p in r.driveCounts && p != ""
      ensures r.driveCounts[p] == Driven(r.rows, p)
    {
      SameDrivers(s.rows, r.rows, p);
    }
  }

  lemma {:induction false} SameDrivers(a: seq<Row>, b: seq<Row>, p: string)
    requires |a| == |b|
    requires forall i :: 0 <= i < |a| ==> a[i].driver == b[i].driver
    ensures Driven(a, p) == Driven(b, p)
    decreases |a|
  {
    if |a| > 0 {
      SameDrivers(a[..|a| - 1], b[..|b| - 1], p);
    }
  }

  /** The positions of the rows that pass the save guard. */
  function ReadyPositions(rows: seq<Row>): set<int>
  {
    set i | 0 <= i < |rows| && ReadyToSave(rows[i])
  }

  /** `scores.filter(...).length`: how many rows pass the save guard. */
  function FilledHoles(rows: seq<Row>): (n: nat)
    ensures n == |ReadyPositions(rows)|
    ensures n <= |rows|
    decreases |rows|
  {
    if |rows| == 0 then 0
    else
      var k := |rows| - 1;
      ReadyPositionsSnoc(rows);
      FilledHoles(rows[..k]) + Ind(ReadyToSave(rows[k]))
  }

  lemma ReadyPositionsSnoc(rows: seq<Row>)
    requires |rows| > 0
    ensures var k := |rows| - 1;
      |ReadyPositions(rows)| == |ReadyPositions(rows[..k])| + Ind(ReadyToSave(rows[k]))
  {
    var k := |rows| - 1;
    var before := ReadyPositions(rows[..k]);
    var here: set<int> := if ReadyToSave(rows[k]) then {k} else {};
    assert ReadyPositions(rows) == before + here;
    assert k !in before;
  }

  /** All rows count as filled exactly when every row passes the save guard. */
  lemma {:induction false} FilledHolesAllReady(rows: seq<Row>)
    ensures FilledHoles(rows) == |rows| <==> forall i :: 0 <= i < |rows| ==> ReadyToSave(rows[i])
    decreases |rows|
  {
    if |rows| > 0 {
      var k := |rows| - 1;
      FilledHolesAllReady(rows[..k]);
      assert forall i :: 0 <= i < k ==> rows[..k][i] == rows[i];
    }
  }

  const DriveWarningMarker: string := "drives, which is the minimum requirement"

  function DriveShortfallMessage(minDrives: int): string
  {
    "Some players have fewer than " + Decimal.IntToString(minDrives) + " " + DriveWarningMarker + "."
  }

  /** Every counter on the sheet reaches the minimum. */
  predicate RequirementMet(counts: map<string, int>, minDrives: int)
  {
    forall p :: p in counts ==> counts[p] >= minDrives
  }

  /** `list` enumerates the counters' entries, as `Object.entries` does. */
  ghost predicate ListsEntries(list: seq<ScoreFormatters.DriverCount>, counts: map<string, int>)
  {
    && (forall i :: 0 <= i < |list| ==> list[i].id in counts && list[i].count == counts[list[i].id])
    && (forall p :: p in counts ==> exists i :: 0 <= i < |list| && list[i].id == p)
  }

  /** The shared drive checker over any listing of the counters agrees with `RequirementMet`. */
  lemma CheckerMatchesRequirement(list: seq<ScoreFormatters.DriverCount>, counts: map<string, int>, minDrives: int)
    requires ListsEntries(list, counts)
    ensures ScoreFormatters.CheckMinimumDrives(list, minDrives) == RequirementMet(counts, minDrives)
  {
  }

  /** The drive-requirement effect: the form error it leaves, given the current one. */
  function DriveRequirementCheck(s: Sheet, minDrives: int, formError: Option<string>): (r: Option<string>)
    ensures FilledHoles(s.rows) < 9 ==> r == formError
    ensures FilledHoles(s.rows) >= 9 && !RequirementMet(s.driveCounts, minDrives) ==> r == Some(DriveShortfallMessage(minDrives))
    ensures FilledHoles(s.rows) >= 9 && RequirementMet(s.driveCounts, minDrives) ==> r.None? || r == formError
  {
    if FilledHoles(s.rows) < 9 then formError
    else if !RequirementMet(s.driveCounts, minDrives) then Some(DriveShortfallMessage(minDrives))
    else if formError.Some? && Text.Contains(formError.value, DriveWarningMarker) then None
    else formError
  }

  /** The warning clears itself once the requirement is met, and leaves other errors alone. */
  lemma DriveWarningClearsItself(s: Sheet, minDrives: int, other: string)
    requires FilledHoles(s.rows) >= 9
    requires RequirementMet(s.driveCounts, minDrives)
    requires !Text.Contains(other, DriveWarningMarker)
    ensures DriveRequirementCheck(s, minDrives, Some(DriveShortfallMessage(minDrives))) == None
    ensures DriveRequirementCheck(s, minDrives, Some(other)) == Some(other)
  {
    var prefix := "Some players have fewer than " + Decimal.IntToString(minDrives) + " ";
    assert DriveShortfallMessage(minDrives) == prefix + (DriveWarningMarker + ".");
    Text.StartsWithAppend(DriveWarningMarker, ".");
    Text.ContainsAfter(prefix, DriveWarningMarker + ".", DriveWarningMarker);
  }
}
