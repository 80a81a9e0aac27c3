/**
 * The five score bands a hole result falls into, by strokes minus par, and
 * the class names the score forms and the leaderboard give each band.
 */
module HoleBands {

  datatype Band = EagleOrBetter | Birdie | Par | Bogey | DoubleBogeyOrWorse

  /** Reference definition: the band of a strokes-minus-par difference. */
  function BandOf(diff: int): Band
  {
    if diff <= -2 then EagleOrBetter
    else if diff == -1 then Birdie
    else if diff == 0 then Par
    else if diff == 1 then Bogey
    else DoubleBogeyOrWorse
  }

  /** Position of a band from best to worst. */
  function Rank(b: Band): nat
  {
    match b
    case EagleOrBetter => 0
    case Birdie => 1
    case Par => 2
    case Bogey => 3
    case DoubleBogeyOrWorse => 4
  }

  /** A worse result never lands in a better band. */
  lemma BandOfMonotone(a: int, b: int)
    requires a <= b
    ensures Rank(BandOf(a)) <= Rank(BandOf(b))
  {
  }

  /** The highlight classes of the score-entry grid and the leaderboard detail row. */
  function HighlightClass(b: Band): string
  {
    match b
    case EagleOrBetter => "bg-green-300 text-green-900 font-bold"
    case Birdie => "bg-emerald-50 text-emerald-700 font-bold"
    case Par => "bg-gray-100 text-gray-800"
    case Bogey => "bg-red-100 text-red-800"
    case DoubleBogeyOrWorse => "bg-red-300 text-red-900"
  }

  /**
   * The if-chain shared by both `formatHoleScore` helpers: strict bands at -1
   * and 1, with a trailing empty class that no integer difference reaches.
   */
  function Highlight(diff: int): (r: string)
    ensures r == HighlightClass(BandOf(diff))
    ensures r != ""
  {
    if diff < -1 then HighlightClass(EagleOrBetter)
    else if diff == -1 then HighlightClass(Birdie)
    else if diff == 0 then HighlightClass(Par)
    else if diff == 1 then HighlightClass(Bogey)
    else if diff > 1 then HighlightClass(DoubleBogeyOrWorse)
    else ""
  }

  /** Distinct bands get distinct highlight classes. */
  lemma HighlightClassInjective(a: Band, b: Band)
    ensures HighlightClass(a) == HighlightClass(b) ==> a == b
  {
  }

  /** The class names of the sheet-style score form. */
  function SheetClass(b: Band): string
  {
    match b
    case EagleOrBetter => "score-eagle"
    case Birdie => "score-birdie"
    case Par => "score-equal-par"
    case Bogey => "score-bogey"
    case DoubleBogeyOrWorse => "score-double-bogey-plus"
  }
}
