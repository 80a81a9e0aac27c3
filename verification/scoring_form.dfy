/**
 * The per-hole score entry grid: a score sheet with one entry per course
 * hole, per-player drive counters and remaining-mulligan counters kept in
 * step with the drive and mulligan chosen on each hole, and the guard that
 * submits a complete card. Each handler is one atomic transition.
 */
module ScoringForm {

  import opened Wrappers
  import HoleBands

  datatype Player = Player(id: int, name: string, mulligansLeft: int)
  datatype Hole = Hole(number: int, par: int)

  /** One hole of the card; `drive` and `mulligan` hold player ids. */
  datatype HoleScore = HoleScore(hole: int, strokes: Option<int>, drive: Option<int>, mulligan: Option<int>)

  /** The card and the two per-player counters. */
  datatype Form = Form(scores: seq<HoleScore>, driveCounts: map<int, int>, mulliganCounts: map<int, int>)

  datatype Field = Strokes | Drive | Mulligan

  /** What the card hands to its owner once it is complete. */
  datatype SubmittedScoreData = SubmittedScoreData(
    teamId: int,
    scores: seq<HoleScore>,
    driveCounts: map<int, int>,
    mulliganCounts: map<int, int>)

  /** The highlight of a strokes input; empty while no strokes are entered. */
  function FormatHoleScore(strokes: Option<int>, par: int): (r: string)
    ensures strokes.None? <==> r == ""
    ensures strokes.Some? ==> r == HoleBands.HighlightClass(HoleBands.BandOf(strokes.value - par))
  {
    match strokes
    case None => ""
    case Some(s) => HoleBands.Highlight(s - par)
  }

  /** A counter's value, reading an absent player as 0. */
  function Count(m: map<int, int>, id: int): int
  {
    if id in m then m[id] else 0
  }

  function Adjust(m: map<int, int>, id: int, delta: int): (r: map<int, int>)
    ensures r.Keys == m.Keys + {id}
    ensures Count(r, id) == Count(m, id) + delta
    ensures forall q :: q != id ==> Count(r, q) == Count(m, q)
  {
    m[id := Count(m, id) + delta]
  }

  function Ind(b: bool): int
  {
    if b then 1 else 0
  }

  /** The number of holes driven by player `id`. */
  function DrivesOf(scores: seq<HoleScore>, id: int): nat
    decreases |scores|
  {
    if |scores| == 0 then 0 else Ind(scores[0].drive == Some(id)) + DrivesOf(scores[1..], id)
  }

  /** The number of holes on which player `id`'s mulligan is used. */
  function MulligansOf(scores: seq<HoleScore>, id: int): nat
    decreases |scores|
  {
    if |scores| == 0 then 0 else Ind(scores[0].mulligan == Some(id)) + MulligansOf(scores[1..], id)
  }

  function PlayerIds(players: seq<Player>): set<int>
  {
    set i | 0 <= i < |players| :: players[i].id
  }

  /** No later player on the list shares player `i`'s id. */
  predicate LastOccurrence(players: seq<Player>, i: int)
  {
    0 <= i < |players| && forall j :: i < j < |players| ==> players[j].id != players[i].id
  }

  lemma PlayerIdsSnoc(players: seq<Player>)
    requires |players| > 0
    ensures PlayerIds(players) == PlayerIds(players[..|players| - 1]) + {players[|players| - 1].id}
  {
    var prefix := players[..|players| - 1];
    forall x | x in PlayerIds(players) ensures x in PlayerIds(prefix) + {players[|players| - 1].id} {
      var i :| 0 <= i < |players| && players[i].id == x;
      if i < |players| - 1 { assert prefix[i] == players[i]; }
    }
    forall x | x in PlayerIds(prefix) ensures x in PlayerIds(players) {
      var i :| 0 <= i < |prefix| && prefix[i].id == x;
      assert players[i] == prefix[i];
    }
  }

  /** The starting mulligan allowance per player; for a repeated id the later player wins. */
  function Allowance(players: seq<Player>): (r: map<int, int>)
    ensures r.Keys == PlayerIds(players)
    ensures forall i :: LastOccurrence(players, i) ==> r[players[i].id] == players[i].mulligansLeft
    decreases |players|
  {
    if |players| == 0 then map[]
    else
      var last := players[|players| - 1];
      var prefix := players[..|players| - 1];
      var r := Allowance(prefix)[last.id := last.mulligansLeft];
      PlayerIdsSnoc(players);
      AllowanceStep(players, prefix, Allowance(prefix), r);
      r
  }

  lemma AllowanceStep(players: seq<Player>, prefix: seq<Player>, before: map<int, int>, r: map<int, int>)
    requires |players| > 0 && prefix == players[..|players| - 1]
    requires forall i :: LastOccurrence(prefix, i) ==> prefix[i].id in before && before[prefix[i].id] == prefix[i].mulligansLeft
    requires r == before[players[|players| - 1].id := players[|players| - 1].mulligansLeft]
    ensures forall i :: LastOccurrence(players, i) ==> players[i].id in r && r[players[i].id] == players[i].mulligansLeft
  {
    var n := |players|;
    forall i | LastOccurrence(players, i)
      ensures players[i].id in r && r[players[i].id] == players[i].mulligansLeft
    {
      if i < n - 1 {
        assert prefix[i] == players[i];
        assert LastOccurrence(prefix, i);
      }
    }
  }

  /** The card and counters before anything is entered. */
  function InitialForm(course: seq<Hole>, players: seq<Player>): (r: Form)
    ensures |r.scores| == |course|
    ensures forall i :: 0 <= i < |course| ==> r.scores[i] == HoleScore(course[i].number, None, None, None)
    ensures r.driveCounts.Keys == PlayerIds(players)
    ensures forall id :: id in r.driveCounts ==> r.driveCounts[id] == 0
    ensures r.mulliganCounts.Keys == PlayerIds(players)
    ensures forall i :: LastOccurrence(players, i) ==> r.mulliganCounts[players[i].id] == players[i].mulligansLeft
  {
    Form(
      seq(|course|, i requires 0 <= i < |course| => HoleScore(course[i].number, None, None, None)),
      map id | id in PlayerIds(players) :: 0,
      Allowance(players))
  }

  /** Every listed player's drive counter equals the number of holes they drove. */
  ghost predicate DriveInvariant(f: Form, ids: set<int>)
  {
    forall id :: id in ids ==> id in f.driveCounts && f.driveCounts[id] == DrivesOf(f.scores, id)
  }

  /** Remaining mulligans plus mulligans used equals the starting allowance, player by player. */
  ghost predicate MulliganInvariant(f: Form, allowance: map<int, int>)
  {
    forall id :: id in allowance ==> id in f.mulliganCounts && f.mulliganCounts[id] + MulligansOf(f.scores, id) == allowance[id]
  }

  lemma {:induction false} NoneSelected(scores: seq<HoleScore>, id: int)
    requires forall i :: 0 <= i < |scores| ==> scores[i].drive.None? && scores[i].mulligan.None?
    ensures DrivesOf(scores, id) == 0 && MulligansOf(scores, id) == 0
    decreases |scores|
  {
    if |scores| > 0 {
      NoneSelected(scores[1..], id);
    }
  }

  /** Both counter invariants hold before anything is entered. */
  lemma InitialFormInvariants(course: seq<Hole>, players: seq<Player>)
    ensures DriveInvariant(InitialForm(course, players), PlayerIds(players))
    ensures MulliganInvariant(InitialForm(course, players), Allowance(players))
  {
    var f := InitialForm(course, players);
    forall id | true
      ensures DrivesOf(f.scores, id) == 0 && MulligansOf(f.scores, id) == 0
    {
      NoneSelected(f.scores, id);
    }
  }

  /** The entry with one field set. */
  function SetField(e: HoleScore, field: Field, value: Option<int>): HoleScore
  {
    match field
    case Strokes => e.(strokes := value)
    case Drive => e.(drive := value)
    case Mulligan => e.(mulligan := value)
  }

  /** The drive counters after changing entry `e`'s driver: the old one loses a drive, the new one gains it. */
  function DriveCountersAfter(e: HoleScore, field: Field, value: Option<int>, d: map<int, int>): map<int, int>
  {
    if field != Drive then d
    else
      var d1 := if e.drive.Some? then Adjust(d, e.drive.value, -1) else d;
      if value.Some? then Adjust(d1, value.value, 1) else d1
  }

  /**
   * The mulligan counters after changing entry `e`'s mulligan: a cleared or
   * replaced mulligan is returned to its player, a new one is deducted, and
   * re-selecting the same player does nothing.
   */
  function MulliganCountersAfter(e: HoleScore, field: Field, value: Option<int>, m: map<int, int>): map<int, int>
  {
    if field != Mulligan then m
    else
      var m1 := if e.mulligan.Some? && value.None? then Adjust(m, e.mulligan.value, 1) else m;
      if value.Some? && e.mulligan != value then
        var m2 := if e.mulligan.Some? then Adjust(m1, e.mulligan.value, 1) else m1;
        Adjust(m2, value.value, -1)
      else m1
  }

  /** One entry's counter changes match the change in what that entry selects. */
  lemma EntryDelta(e: HoleScore, field: Field, value: Option<int>, d: map<int, int>, m: map<int, int>, id: int)
    ensures Count(DriveCountersAfter(e, field, value, d), id) - Count(d, id)
      == Ind(SetField(e, field, value).drive == Some(id)) - Ind(e.drive == Some(id))
    ensures Count(MulliganCountersAfter(e, field, value, m), id) - Count(m, id)
      == Ind(e.mulligan == Some(id)) - Ind(SetField(e, field, value).mulligan == Some(id))
    ensures d.Keys <= DriveCountersAfter(e, field, value, d).Keys
    ensures m.Keys <= MulliganCountersAfter(e, field, value, m).Keys
  {
  }

  /** `prevScores.map(...)`: every entry for `hole` gets the field set, the others stay. */
  function UpdatedScores(scores: seq<HoleScore>, hole: int, field: Field, value: Option<int>): (r: seq<HoleScore>)
    ensures |r| == |scores|
    ensures forall i :: 0 <= i < |scores| ==>
      r[i] == if scores[i].hole == hole then SetField(scores[i], field, value) else scores[i]
    decreases |scores|
  {
    if |scores| == 0 then []
    else
      var e := scores[0];
      [if e.hole == hole then SetField(e, field, value) else e] + UpdatedScores(scores[1..], hole, field, value)
  }

  lemma DrivesCons(e: HoleScore, s: seq<HoleScore>, id: int)
    ensures DrivesOf([e] + s, id) == Ind(e.drive == Some(id)) + DrivesOf(s, id)
    ensures MulligansOf([e] + s, id) == Ind(e.mulligan == Some(id)) + MulligansOf(s, id)
  {
    assert ([e] + s)[1..] == s;
  }

  /**
   * The drive counters after the update, threaded entry by entry in card
   * order: each counter still differs from its player's drives on the card
   * by what it differed before.
   */
  function DriveFold(scores: seq<HoleScore>, hole: int, field: Field, value: Option<int>, d: map<int, int>): (r: map<int, int>)
    ensures d.Keys <= r.Keys
    ensures forall id :: Count(r, id) - DrivesOf(UpdatedScores(scores, hole, field, value), id) == Count(d, id) - DrivesOf(scores, id)
    decreases |scores|
  {
    if |scores| == 0 then d
    else
      var e := scores[0];
      var d1 := if e.hole == hole then DriveCountersAfter(e, field, value, d) else d;
      var r := DriveFold(scores[1..], hole, field, value, d1);
      DriveStep(scores, hole, field, value, d, d1, r);
      r
  }

  lemma DriveStep(scores: seq<HoleScore>, hole: int, field: Field, value: Option<int>, d: map<int, int>, d1: map<int, int>, r: map<int, int>)
    requires |scores| > 0
    requires d1 == if scores[0].hole == hole then DriveCountersAfter(scores[0], field, value, d) else d
    requires forall id :: Count(r, id) - DrivesOf(UpdatedScores(scores[1..], hole, field, value), id) == Count(d1, id) - DrivesOf(scores[1..], id)
    ensures forall id :: Count(r, id) - DrivesOf(UpdatedScores(scores, hole, field, value), id) == Count(d, id) - DrivesOf(scores, id)
  {
    var e := scores[0];
    var e1 := if e.hole == hole then SetField(e, field, value) else e;
    assert UpdatedScores(scores, hole, field, value) == [e1] + UpdatedScores(scores[1..], hole, field, value);
    forall id
      ensures Count(r, id) - DrivesOf(UpdatedScores(scores, hole, field, value), id) == Count(d, id) - DrivesOf(scores, id)
    {
      EntryDelta(e, field, value, d, map[], id);
      DrivesCons(e1, UpdatedScores(scores[1..], hole, field, value), id);
    }
  }

  /**
   * The remaining-mulligan counters after the update, threaded entry by
   * entry: counter plus mulligans used on the card stays what it was.
   */
  function MulliganFold(scores: seq<HoleScore>, hole: int, field: Field, value: Option<int>, m: map<int, int>): (r: map<int, int>)
    ensures m.Keys <= r.Keys
    ensures forall id :: Count(r, id) + MulligansOf(UpdatedScores(scores, hole, field, value), id) == Count(m, id) + MulligansOf(scores, id)
    decreases |scores|
  {
    if |scores| == 0 then m
    else
      var e := scores[0];
      var m1 := if e.hole == hole then MulliganCountersAfter(e, field, value, m) else m;
      var r := MulliganFold(scores[1..], hole, field, value, m1);
      MulliganStep(scores, hole, field, value, m, m1, r);
      r
  }

  lemma MulliganStep(scores: seq<HoleScore>, hole: int, field: Field, value: Option<int>, m: map<int, int>, m1: map<int, int>, r: map<int, int>)
    requires |scores| > 0
    requires m1 == if scores[0].hole == hole then MulliganCountersAfter(scores[0], field, value, m) else m
    requires forall id :: Count(r, id) + MulligansOf(UpdatedScores(scores[1..], hole, field, value), id) == Count(m1, id) + MulligansOf(scores[1..], id)
    ensures forall id :: Count(r, id) + MulligansOf(UpdatedScores(scores, hole, field, value), id) == Count(m, id) + MulligansOf(scores, id)
  {
    var e := scores[0];
    var e1 := if e.hole == hole then SetField(e, field, value) else e;
    assert UpdatedScores(scores, hole, field, value) == [e1] + UpdatedScores(scores[1..], hole, field, value);
    forall id
      ensures Count(r, id) + MulligansOf(UpdatedScores(scores, hole, field, value), id) == Count(m, id) + MulligansOf(scores, id)
    {
      EntryDelta(e, field, value, map[], m, id);
      DrivesCons(e1, UpdatedScores(scores[1..], hole, field, value), id);
    }
  }

  /** `updateHoleScore`: set one field of the entries for `hole`, keeping the counters in step. */
  function UpdateHoleScore(f: Form, hole: int, field: Field, value: Option<int>): (r: Form)
    ensures |r.scores| == |f.scores|
    ensures forall i :: 0 <= i < |f.scores| && f.scores[i].hole != hole ==> r.scores[i] == f.scores[i]
    ensures forall i :: 0 <= i < |f.scores| && f.scores[i].hole == hole ==> r.scores[i] == SetField(f.scores[i], field, value)
    ensures field == Strokes ==> r.driveCounts == f.driveCounts && r.mulliganCounts == f.mulliganCounts
    ensures forall id :: Count(r.driveCounts, id) - DrivesOf(r.scores, id) == Count(f.driveCounts, id) - DrivesOf(f.scores, id)
    ensures forall id :: Count(r.mulliganCounts, id) + MulligansOf(r.scores, id) == Count(f.mulliganCounts, id) + MulligansOf(f.scores, id)
    ensures f.driveCounts.Keys <= r.driveCounts.Keys && f.mulliganCounts.Keys <= r.mulliganCounts.Keys
  {
    StrokesKeepsCounters(f.scores, hole, value, f.driveCounts, f.mulliganCounts);
    Form(
      UpdatedScores(f.scores, hole, field, value),
      DriveFold(f.scores, hole, field, value, f.driveCounts),
      MulliganFold(f.scores, hole, field, value, f.mulliganCounts))
  }

  lemma {:induction false} StrokesKeepsCounters(scores: seq<HoleScore>, hole: int, value: Option<int>, d: map<int, int>, m: map<int, int>)
    ensures DriveFold(scores, hole, Strokes, value, d) == d
    ensures MulliganFold(scores, hole, Strokes, value, m) == m
    decreases |scores|
  {
    if |scores| > 0 {
      StrokesKeepsCounters(scores[1..], hole, value, d, m);
    }
  }

  /** Both counter invariants survive every update. */
  lemma UpdatePreservesInvariants(f: Form, ids: set<int>, allowance: map<int, int>, hole: int, field: Field, value: Option<int>)
    requires DriveInvariant(f, ids)
    requires MulliganInvariant(f, allowance)
    ensures DriveInvariant(UpdateHoleScore(f, hole, field, value), ids)
    ensures MulliganInvariant(UpdateHoleScore(f, hole, field, value), allowance)
  {
    var r := UpdateHoleScore(f, hole, field, value);
    forall id | id in ids
      ensures id in r.driveCounts && r.driveCounts[id] == DrivesOf(r.scores, id)
    {
      assert Count(r.driveCounts, id) - DrivesOf(r.scores, id) == Count(f.driveCounts, id) - DrivesOf(f.scores, id);
    }
    forall id | id in allowance
      ensures id in r.mulliganCounts && r.mulliganCounts[id] + MulligansOf(r.scores, id) == allowance[id]
    {
      assert Count(r.mulliganCounts, id) + MulligansOf(r.scores, id) == Count(f.mulliganCounts, id) + MulligansOf(f.scores, id);
    }
  }

  /** Re-selecting the mulligan a hole already has changes nothing at all. */
  lemma {:induction false} ReselectingMulliganIsNoOp(scores: seq<HoleScore>, hole: int, value: Option<int>, d: map<int, int>, m: map<int, int>)
    requires forall i :: 0 <= i < |scores| && scores[i].hole == hole ==> scores[i].mulligan == value
    ensures UpdatedScores(scores, hole, Mulligan, value) == scores
    ensures DriveFold(scores, hole, Mulligan, value, d) == d
    ensures MulliganFold(scores, hole, Mulligan, value, m) == m
    decreases |scores|
  {
    if |scores| > 0 {
      ReselectingMulliganIsNoOp(scores[1..], hole, value, d, m);
      assert [scores[0]] + scores[1..] == scores;
    }
  }

  /** The number of holes missing strokes or a driver. */
  function IncompleteHoles(scores: seq<HoleScore>): (n: nat)
    ensures n == 0 <==> forall i :: 0 <= i < |scores| ==> scores[i].strokes.Some? && scores[i].drive.Some?
    decreases |scores|
  {
    if |scores| == 0 then 0
    else Ind(scores[0].strokes.None? || scores[0].drive.None?) + IncompleteHoles(scores[1..])
  }

  /** The auto-submit effect: the card is handed over only when it is complete and every counter meets the minimum. */
  function AutoSubmit(f: Form, teamId: int, minDrivesPerPlayer: int): (r: Option<SubmittedScoreData>)
    ensures r.Some? <==>
      && (forall i :: 0 <= i < |f.scores| ==> f.scores[i].strokes.Some? && f.scores[i].drive.Some?)
      && (forall id :: id in f.driveCounts ==> f.driveCounts[id] >= minDrivesPerPlayer)
    ensures r.Some? ==> r.value == SubmittedScoreData(teamId, f.scores, f.driveCounts, f.mulliganCounts)
  {
    if IncompleteHoles(f.scores) > 0 then None
    else if exists id :: id in f.driveCounts && f.driveCounts[id] < minDrivesPerPlayer then None
    else Some(SubmittedScoreData(teamId, f.scores, f.driveCounts, f.mulliganCounts))
  }

  /** A submitted card has every team player driving at least the minimum number of holes. */
  lemma SubmittedMeetsMinimumDrives(f: Form, ids: set<int>, teamId: int, minDrivesPerPlayer: int)
    requires DriveInvariant(f, ids)
    requires AutoSubmit(f, teamId, minDrivesPerPlayer).Some?
    ensures forall id :: id in ids ==> DrivesOf(f.scores, id) >= minDrivesPerPlayer
  {
  }

  /** `scores.find(...)`: the first entry for `hole`. */
  function FindHole(scores: seq<HoleScore>, hole: int): (r: Option<HoleScore>)
    ensures r.Some? ==> r.value in scores && r.value.hole == hole
    ensures r.Some? ==> exists i :: 0 <= i < |scores| && r.value == scores[i] && forall j :: 0 <= j < i ==> scores[j].hole != hole
    ensures r.None? <==> forall i :: 0 <= i < |scores| ==> scores[i].hole != hole
    decreases |scores|
  {
    if |scores| == 0 then None
    else if scores[0].hole == hole then Some(scores[0])
    else FindHole(scores[1..], hole)
  }

  /**
   * Whether a player's option in a hole's mulligan menu is disabled. A player
   * without a counter compares NaN with 0 and stays enabled.
   */
  function MulliganOptionDisabled(current: Option<HoleScore>, playerId: int, counts: map<int, int>): (r: bool)
    ensures r <==> playerId in counts && counts[playerId] <= 0 && (current.None? || current.value.mulligan != Some(playerId))
  {
    var selected := current.Some? && current.value.mulligan == Some(playerId);
    if playerId !in counts then false
    else
      var remaining := if selected then counts[playerId] + 1 else counts[playerId];
      remaining <= 0 && !selected
  }

  ghost predicate UniqueHoles(scores: seq<HoleScore>)
  {
    forall i, j :: 0 <= i < j < |scores| ==> scores[i].hole != scores[j].hole
  }

  ghost predicate NonNegative(m: map<int, int>)
  {
    forall id :: id in m ==> m[id] >= 0
  }

  lemma {:induction false} UpdateMissingHole(scores: seq<HoleScore>, hole: int, field: Field, value: Option<int>, m: map<int, int>)
    requires forall i :: 0 <= i < |scores| ==> scores[i].hole != hole
    ensures MulliganFold(scores, hole, field, value, m) == m
    decreases |scores|
  {
    if |scores| > 0 {
      UpdateMissingHole(scores[1..], hole, field, value, m);
    }
  }

  /** On a card with one entry per hole, the counters move exactly as that one entry dictates. */
  lemma {:induction false} UpdateUniqueHole(scores: seq<HoleScore>, hole: int, field: Field, value: Option<int>, m: map<int, int>)
    requires UniqueHoles(scores)
    requires FindHole(scores, hole).Some?
    ensures MulliganFold(scores, hole, field, value, m)
      == MulliganCountersAfter(FindHole(scores, hole).value, field, value, m)
    decreases |scores|
  {
    if scores[0].hole == hole {
      UpdateMissingHole(scores[1..], hole, field, value, MulliganCountersAfter(scores[0], field, value, m));
    } else {
      UpdateUniqueHole(scores[1..], hole, field, value, m);
    }
  }

  /** Choosing only enabled mulligan options never drives a remaining count below zero. */
  lemma EnabledMulliganKeepsCountsNonNegative(f: Form, hole: int, value: Option<int>)
    requires UniqueHoles(f.scores)
    requires NonNegative(f.mulliganCounts)
    requires value.Some? ==>
      && value.value in f.mulliganCounts
      && !MulliganOptionDisabled(FindHole(f.scores, hole), value.value, f.mulliganCounts)
    ensures NonNegative(UpdateHoleScore(f, hole, Mulligan, value).mulliganCounts)
  {
    var r := UpdateHoleScore(f, hole, Mulligan, value);
    var found := FindHole(f.scores, hole);
    if found.None? {
      UpdateMissingHole(f.scores, hole, Mulligan, value, f.mulliganCounts);
    } else {
      UpdateUniqueHole(f.scores, hole, Mulligan, value, f.mulliganCounts);
      forall id | id in r.mulliganCounts
        ensures r.mulliganCounts[id] >= 0
      {
        EntryDelta(found.value, Mulligan, value, f.driveCounts, f.mulliganCounts, id);
      }
    }
  }
  /** The colour of a player's entry in the drive summary. */
  datatype DriveStatus = Impossible | Low | Met

  /**
   * A player's drive summary: short of the minimum is `Low`, and once every
   * hole has a driver a shortfall can no longer be made up, so it is `Impossible`.
   */
  function DriveStatusOf(f: Form, playerId: int, minDrivesPerPlayer: int): (r: DriveStatus)
    ensures r == Met <==> Count(f.driveCounts, playerId) >= minDrivesPerPlayer
    ensures r == Impossible <==>
      && Count(f.driveCounts, playerId) < minDrivesPerPlayer
      && forall i :: 0 <= i < |f.scores| ==> f.scores[i].drive.Some?
  {
    var count := Count(f.driveCounts, playerId);
    var isLow := count < minDrivesPerPlayer;
    var isFinished := forall i :: 0 <= i < |f.scores| ==> f.scores[i].drive.Some?;
    if isFinished && isLow then Impossible
    else if isLow then Low
    else Met
  }

  /** A player the summary marks `Impossible` holds the card back from submission. */
  lemma ImpossibleBlocksSubmission(f: Form, playerId: int, teamId: int, minDrivesPerPlayer: int)
    requires playerId in f.driveCounts
    requires DriveStatusOf(f, playerId, minDrivesPerPlayer) == Impossible
    ensures AutoSubmit(f, teamId, minDrivesPerPlayer).None?
  {
  }
}
