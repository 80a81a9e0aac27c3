/**
 * The leaderboard's expandable team row: the score formatters it uses and the
 * hole-by-hole table, which pads a team's hole scores to 18 entries with
 * hole-0 placeholders and sorts them by hole.
 */
module TeamRow {

  import opened Wrappers
  import Decimal
  import ScoreFormatters
  import HoleBands

  /** The gross/net label; the same text as the shared relative-to-par formatter. */
  function FormatScore(score: int): (r: string)
    ensures r == ScoreFormatters.FormatRelativeToPar(score)
  {
    if score == 0 then "E"
    else if score > 0 then "+" + Decimal.IntToString(score)
    else Decimal.IntToString(score)
  }

  function GetScoreColor(score: int): (r: string)
    ensures r == "text-emerald-600" <==> score < 0
    ensures r == "text-red-600" <==> score > 0
    ensures r == "text-gray-900" <==> score == 0
  {
    if score < 0 then "text-emerald-600"
    else if score > 0 then "text-red-600"
    else "text-gray-900"
  }

  /** The row's colours partition scores exactly as the shared colour helper does. */
  lemma GetScoreColorMatchesShared(a: int, b: int)
    ensures GetScoreColor(a) == GetScoreColor(b)
        <==> ScoreFormatters.ScoreColorClass(a) == ScoreFormatters.ScoreColorClass(b)
  {
  }

  function FormatHoleScore(strokes: int, par: int): (r: string)
    ensures r == HoleBands.HighlightClass(HoleBands.BandOf(strokes - par))
    ensures r != ""
  {
    HoleBands.Highlight(strokes - par)
  }

  /** One hole of a team's leaderboard entry. */
  datatype HoleScore = HoleScore(hole: int, par: int, strokes: int, drive: string, mulligan: Option<string>)

  /** The filler entry for a hole not yet played. */
  const Placeholder: HoleScore := HoleScore(0, 0, 0, "", None)

  /** How many placeholders `Array.from({length: 18 - n})` creates: none once n reaches 18. */
  function PadCount(n: nat): nat
  {
    if n < 18 then 18 - n else 0
  }

  function Padded(holeScores: seq<HoleScore>): (r: seq<HoleScore>)
    ensures |r| == (if |holeScores| < 18 then 18 else |holeScores|)
    ensures r[..|holeScores|] == holeScores
    ensures forall i :: |holeScores| <= i < |r| ==> r[i] == Placeholder
  {
    holeScores + seq(PadCount(|holeScores|), _ => Placeholder)
  }

  ghost predicate Sorted(s: seq<HoleScore>)
  {
    forall i, j :: 0 <= i < j < |s| ==> s[i].hole <= s[j].hole
  }

  lemma ConsSorted(a: HoleScore, s: seq<HoleScore>)
    requires Sorted(s)
    requires |s| > 0 ==> a.hole <= s[0].hole
    ensures Sorted([a] + s)
  {
    var r := [a] + s;
    forall i, j | 0 <= i < j < |r|
      ensures r[i].hole <= r[j].hole
    {
      if i == 0 && j > 1 {
        assert r[1].hole <= r[j].hole;
      }
    }
  }

  /** Places `x` before the first entry whose hole is not smaller. */
  function Insert(x: HoleScore, s: seq<HoleScore>): (r: seq<HoleScore>)
    requires Sorted(s)
    ensures Sorted(r)
    ensures |r| == |s| + 1
    ensures multiset(r) == multiset(s) + multiset{x}
    ensures r[0] == x || (|s| > 0 && r[0] == s[0])
    decreases |s|
  {
    if |s| == 0 then [x]
    else if x.hole <= s[0].hole then
      ConsSorted(x, s);
      [x] + s
    else
      assert Sorted(s[1..]);
      var rest := Insert(x, s[1..]);
      ConsSorted(s[0], rest);
      assert s == [s[0]] + s[1..];
      [s[0]] + rest
  }

  /** The stable sort `.sort((a, b) => a.hole - b.hole)`. */
  function SortByHole(s: seq<HoleScore>): (r: seq<HoleScore>)
    ensures Sorted(r)
    ensures |r| == |s|
    ensures multiset(r) == multiset(s)
    decreases |s|
  {
    if |s| == 0 then []
    else
      assert s == [s[0]] + s[1..];
      Insert(s[0], SortByHole(s[1..]))
  }

  /** The entries for hole `k`, in their original order. */
  function WithHole(s: seq<HoleScore>, k: int): (r: seq<HoleScore>)
    ensures |r| <= |s|
    ensures forall i :: 0 <= i < |r| ==> r[i].hole == k
    decreases |s|
  {
    if |s| == 0 then []
    else (if s[0].hole == k then [s[0]] else []) + WithHole(s[1..], k)
  }

  lemma {:induction false} WithHoleAppend(a: seq<HoleScore>, b: seq<HoleScore>, k: int)
    ensures WithHole(a + b, k) == WithHole(a, k) + WithHole(b, k)
    decreases |a|
  {
    if |a| == 0 {
      assert a + b == b;
    } else {
      assert (a + b)[1..] == a[1..] + b;
      WithHoleAppend(a[1..], b, k);
    }
  }

  lemma {:induction false} InsertWithHole(x: HoleScore, s: seq<HoleScore>, k: int)
    requires Sorted(s)
    ensures WithHole(Insert(x, s), k) == (if x.hole == k then [x] else []) + WithHole(s, k)
    decreases |s|
  {
    if |s| == 0 {
    } else if x.hole <= s[0].hole {
      WithHoleCons(x, s, k);
    } else {
      var rest := Insert(x, s[1..]);
      assert Insert(x, s) == [s[0]] + rest;
      InsertWithHole(x, s[1..], k);
      PassOver(s[0], x, s[1..], rest, k);
      assert s == [s[0]] + s[1..];
    }
  }

  /** Moving `x` past an entry `a` that sorts strictly before it does not reorder the entries of any one hole. */
  lemma PassOver(a: HoleScore, x: HoleScore, t: seq<HoleScore>, rest: seq<HoleScore>, k: int)
    requires a.hole < x.hole
    requires WithHole(rest, k) == (if x.hole == k then [x] else []) + WithHole(t, k)
    ensures WithHole([a] + rest, k) == (if x.hole == k then [x] else []) + WithHole([a] + t, k)
  {
    WithHoleCons(a, rest, k);
    WithHoleCons(a, t, k);
  }

  lemma WithHoleCons(a: HoleScore, t: seq<HoleScore>, k: int)
    ensures WithHole([a] + t, k) == (if a.hole == k then [a] else []) + WithHole(t, k)
  {
    assert ([a] + t)[1..] == t;
  }

  /** Entries that share a hole keep their relative order. */
  lemma {:induction false} SortByHoleStable(s: seq<HoleScore>, k: int)
    ensures WithHole(SortByHole(s), k) == WithHole(s, k)
    decreases |s|
  {
    if |s| > 0 {
      SortByHoleStable(s[1..], k);
      InsertWithHole(s[0], SortByHole(s[1..]), k);
    }
  }

  /** Sorting a list that is already in hole order leaves it as it is. */
  lemma {:induction false} SortByHoleOfSorted(s: seq<HoleScore>)
    requires Sorted(s)
    ensures SortByHole(s) == s
    decreases |s|
  {
    if |s| > 0 {
      SortByHoleOfSorted(s[1..]);
      assert [s[0]] + s[1..] == s;
    }
  }

  /** The order in which the table's par, score, drive and mulligan rows list entries. */
  function Layout(holeScores: seq<HoleScore>): (r: seq<HoleScore>)
    ensures |r| == (if |holeScores| < 18 then 18 else |holeScores|)
    ensures Sorted(r)
    ensures multiset(r) == multiset(holeScores) + multiset(seq(PadCount(|holeScores|), _ => Placeholder))
  {
    SortByHole(Padded(holeScores))
  }

  ghost predicate RealHoles(holeScores: seq<HoleScore>)
  {
    forall i :: 0 <= i < |holeScores| ==> holeScores[i].hole >= 1
  }

  lemma {:induction false} WithHoleNone(s: seq<HoleScore>, k: int)
    requires forall i :: 0 <= i < |s| ==> s[i].hole != k
    ensures WithHole(s, k) == []
    decreases |s|
  {
    if |s| > 0 {
      WithHoleNone(s[1..], k);
    }
  }

  lemma {:induction false} WithHoleAllPlaceholders(n: nat)
    ensures WithHole(seq(n, _ => Placeholder), 0) == seq(n, _ => Placeholder)
    decreases n
  {
    if n > 0 {
      var s := seq(n, _ => Placeholder);
      assert s[1..] == seq(n - 1, _ => Placeholder);
      WithHoleAllPlaceholders(n - 1);
    }
  }

  /** In a sorted list without negative holes, the hole-0 entries form its prefix. */
  lemma {:induction false} ZerosFormPrefix(s: seq<HoleScore>)
    requires Sorted(s)
    requires forall i :: 0 <= i < |s| ==> s[i].hole >= 0
    ensures s[..|WithHole(s, 0)|] == WithHole(s, 0)
    decreases |s|
  {
    if |s| > 0 {
      var tail := WithHole(s[1..], 0);
      ZerosFormPrefix(s[1..]);
      if s[0].hole == 0 {
        assert s[..|tail| + 1] == [s[0]] + s[1..][..|tail|];
      } else {
        assert |tail| == 0;
      }
    }
  }

  ghost predicate NonNegativeHoles(s: seq<HoleScore>)
  {
    forall i :: 0 <= i < |s| ==> s[i].hole >= 0
  }

  lemma NonNegativePermutation(a: seq<HoleScore>, b: seq<HoleScore>)
    requires multiset(a) == multiset(b)
    requires NonNegativeHoles(a)
    ensures NonNegativeHoles(b)
  {
    forall i | 0 <= i < |b|
      ensures b[i].hole >= 0
    {
      assert b[i] in multiset(a);
      var j :| 0 <= j < |a| && a[j] == b[i];
    }
  }

  /** The padded list's hole-0 entries are exactly the placeholders. */
  lemma PaddedZeros(holeScores: seq<HoleScore>)
    requires RealHoles(holeScores)
    ensures WithHole(Padded(holeScores), 0) == seq(PadCount(|holeScores|), _ => Placeholder)
    ensures NonNegativeHoles(Padded(holeScores))
  {
    var pads := seq(PadCount(|holeScores|), _ => Placeholder);
    assert Padded(holeScores) == holeScores + pads;
    WithHoleAppend(holeScores, pads, 0);
    WithHoleNone(holeScores, 0);
    WithHoleAllPlaceholders(|pads|);
  }

  /** With real holes numbered from 1, every placeholder column precedes every played hole. */
  lemma PlaceholdersFirst(holeScores: seq<HoleScore>)
    requires RealHoles(holeScores)
    ensures Layout(holeScores)[..PadCount(|holeScores|)] == seq(PadCount(|holeScores|), _ => Placeholder)
    ensures forall i :: PadCount(|holeScores|) <= i < |Layout(holeScores)| ==> Layout(holeScores)[i].hole >= 1
  {
    var p := Padded(holeScores);
    var l := Layout(holeScores);
    PaddedZeros(holeScores);
    SortByHoleStable(p, 0);
    NonNegativePermutation(p, l);
    ZerosFormPrefix(l);
    forall i | PadCount(|holeScores|) <= i < |l|
      ensures l[i].hole >= 1
    {
      if l[i].hole == 0 {
        ZerosBeyondPrefix(l, i);
      }
    }
  }

  /** A sorted list with no negative holes has no hole-0 entry after its zero prefix. */
  lemma {:induction false} ZerosBeyondPrefix(s: seq<HoleScore>, i: int)
    requires Sorted(s)
    requires forall k :: 0 <= k < |s| ==> s[k].hole >= 0
    requires 0 <= i < |s| && s[i].hole == 0
    ensures i < |WithHole(s, 0)|
    decreases |s|
  {
    if i > 0 {
      assert s[0].hole == 0;
      ZerosBeyondPrefix(s[1..], i - 1);
    }
  }

  /** The header row's hole number above column `k`. */
  function HeaderHole(k: nat): int
  {
    k + 1
  }

  /** Every column either is blank or holds the hole its header names. */
  ghost predicate AlignedWithHeader(layout: seq<HoleScore>)
  {
    forall k :: 0 <= k < |layout| ==> layout[k].hole == 0 || layout[k].hole == HeaderHole(k)
  }

  /**
   * As written, a team that has played only hole 1 shows it under the header
   * for hole 18, and shows a blank under the header for hole 1.
   */
  lemma LayoutMisalignsUnfinishedRound(h: HoleScore)
    requires h.hole == 1
    ensures Layout([h])[0] == Placeholder
    ensures Layout([h])[17] == h
    ensures !AlignedWithHeader(Layout([h]))
  {
    var hs := [h];
    var l := Layout(hs);
    var pads := seq(17, _ => Placeholder);
    PlaceholdersFirst(hs);
    assert l[..17] == pads;
    assert l[0] == l[..17][0];
    assert Padded(hs) == hs + pads;
    assert h in multiset(Padded(hs));
    var i :| 0 <= i < |l| && l[i] == h;
    assert HeaderHole(17) == 18;
  }

  /** The first entry for hole `h`, or a placeholder when the team has none. */
  function EntryForHole(holeScores: seq<HoleScore>, h: int): (r: HoleScore)
    ensures r == Placeholder || (r in holeScores && r.hole == h)
    ensures (exists i :: 0 <= i < |holeScores| && holeScores[i].hole == h) ==> r in holeScores && r.hole == h
    ensures (forall i :: 0 <= i < |holeScores| ==> holeScores[i].hole != h) ==> r == Placeholder
    decreases |holeScores|
  {
    if |holeScores| == 0 then Placeholder
    else if holeScores[0].hole == h then holeScores[0]
    else EntryForHole(holeScores[1..], h)
  }

  /** The corrected layout: column k holds hole k + 1, or a placeholder when it is unplayed. */
  function AlignedLayout(holeScores: seq<HoleScore>): (r: seq<HoleScore>)
    ensures |r| == 18
    ensures AlignedWithHeader(r)
    ensures forall k :: 0 <= k < 18 ==> r[k] == Placeholder || r[k] in holeScores
    ensures forall k, i :: 0 <= k < 18 && 0 <= i < |holeScores| && holeScores[i].hole == k + 1 ==> r[k].hole == k + 1
  {
    seq(18, k requires 0 <= k < 18 => EntryForHole(holeScores, k + 1))
  }

  /** For a finished round listed in hole order, the corrected and the original layout agree. */
  lemma AlignedLayoutAgreesOnFinishedRound(holeScores: seq<HoleScore>)
    requires |holeScores| == 18
    requires forall i :: 0 <= i < 18 ==> holeScores[i].hole == i + 1
    ensures AlignedLayout(holeScores) == holeScores
    ensures Layout(holeScores) == holeScores
  {
    assert Padded(holeScores) == holeScores;
    SortByHoleOfSorted(holeScores);
    forall k | 0 <= k < 18
      ensures AlignedLayout(holeScores)[k] == holeScores[k]
    {
      FirstEntryForHole(holeScores, k);
    }
  }

  lemma {:induction false} FirstEntryForHole(holeScores: seq<HoleScore>, k: int)
    requires 0 <= k < |holeScores|
    requires forall i :: 0 <= i < |holeScores| ==> holeScores[i].hole == i + 1
    ensures EntryForHole(holeScores, k + 1) == holeScores[k]
  {
    var i := 0;
    while i < k
      invariant 0 <= i <= k
      invariant EntryForHole(holeScores, k + 1) == EntryForHole(holeScores[i..], k + 1)
    {
      assert holeScores[i..][1..] == holeScores[i + 1..];
      i := i + 1;
    }
  }

  /** The four cells shown for one column of the detail table. */
  datatype Column = Column(par: string, score: string, drive: string, mulligan: string)

  function ParCell(h: HoleScore): (r: string)
    ensures r == "-" <==> h.par == 0
    ensures h.par != 0 ==> Decimal.ParseInt(r) == Some(h.par)
  {
    Decimal.ParseIntToString(h.par);
    if h.par != 0 then Decimal.IntToString(h.par) else "-"
  }

  function ScoreCell(h: HoleScore): (r: string)
    ensures r == "-" <==> h.hole == 0
    ensures h.hole != 0 ==> Decimal.ParseInt(r) == Some(h.strokes)
  {
    Decimal.ParseIntToString(h.strokes);
    if h.hole != 0 then Decimal.IntToString(h.strokes) else "-"
  }

  function DriveCell(h: HoleScore): (r: string)
    ensures r == "-" <==> h.drive == "" || h.drive == "-"
    ensures r != "-" ==> r == h.drive
  {
    if h.drive != "" then h.drive else "-"
  }

  function MulliganCell(h: HoleScore): (r: string)
    ensures r == "-" <==> h.mulligan.None? || h.mulligan.value == "" || h.mulligan.value == "-"
    ensures r != "-" ==> h.mulligan == Some(r)
  {
    match h.mulligan
    case Some(m) => if m != "" then m else "-"
    case None => "-"
  }

  /** Renders every row of the detail table from one layout, column by column. */
  function Columns(layout: seq<HoleScore>): (r: seq<Column>)
    ensures |r| == |layout|
    ensures forall k :: 0 <= k < |r| ==>
      r[k] == Column(ParCell(layout[k]), ScoreCell(layout[k]), DriveCell(layout[k]), MulliganCell(layout[k]))
    ensures forall k :: 0 <= k < |r| ==> (r[k].score == "-" <==> layout[k].hole == 0)
  {
    seq(|layout|, k requires 0 <= k < |layout| =>
      Column(ParCell(layout[k]), ScoreCell(layout[k]), DriveCell(layout[k]), MulliganCell(layout[k])))
  }

  /** A blank score cell means a placeholder, and then the other three rows are blank too. */
  lemma PlaceholderColumnsBlank(holeScores: seq<HoleScore>, k: int)
    requires RealHoles(holeScores)
    requires 0 <= k < |Layout(holeScores)|
    ensures Columns(Layout(holeScores))[k].score == "-"
        <==> k < PadCount(|holeScores|)
    ensures Columns(Layout(holeScores))[k].score == "-"
        ==> Columns(Layout(holeScores))[k] == Column("-", "-", "-", "-")
  {
    PlaceholdersFirst(holeScores);
    if k < PadCount(|holeScores|) {
      assert Layout(holeScores)[k] == Layout(holeScores)[..PadCount(|holeScores|)][k];
    }
  }

  /** The detail table with the corrected layout. */
  function DetailTable(holeScores: seq<HoleScore>): (r: seq<Column>)
    ensures |r| == 18
    ensures forall k :: 0 <= k < 18 ==>
      var e := EntryForHole(holeScores, HeaderHole(k));
      r[k] == Column(ParCell(e), ScoreCell(e), DriveCell(e), MulliganCell(e))
    ensures forall k :: 0 <= k < 18 ==>
      (r[k].score == "-" <==> forall i :: 0 <= i < |holeScores| ==> holeScores[i].hole != HeaderHole(k))
  {
    var l := AlignedLayout(holeScores);
    assert forall k :: 0 <= k < 18 ==> l[k] == EntryForHole(holeScores, k + 1);
    Columns(l)
  }
}
