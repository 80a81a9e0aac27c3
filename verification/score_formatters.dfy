/** The shared leaderboard formatting helpers. */
module ScoreFormatters {

  import opened Wrappers
  import Decimal

  /** "E" for even, "+n" over par, "-n" under par. */
  function FormatRelativeToPar(relativeToPar: int): (r: string)
    ensures r == "E" <==> relativeToPar == 0
    ensures relativeToPar > 0 ==> r == "+" + Decimal.NatToString(relativeToPar)
    ensures relativeToPar < 0 ==> r == "-" + Decimal.NatToString(-relativeToPar)
  {
    if relativeToPar == 0 then "E"
    else if relativeToPar > 0 then "+" + Decimal.IntToString(relativeToPar)
    else Decimal.IntToString(relativeToPar)
  }

  /** Reads a relative-to-par label back: "E", "+digits" or an optionally signed integer. */
  function ParseRelativeToPar(s: string): Option<int>
  {
    if s == "E" then Some(0)
    else if |s| >= 2 && s[0] == '+' && Decimal.AllDigits(s[1..]) then Some(Decimal.ParseDigits(s[1..]))
    else Decimal.ParseInt(s)
  }

  lemma {:induction false} ParseFormatRelativeToPar(n: int)
    ensures ParseRelativeToPar(FormatRelativeToPar(n)) == Some(n)
  {
    var s := FormatRelativeToPar(n);
    if n > 0 {
      assert s[1..] == Decimal.NatToString(n);
      Decimal.ParseNatToString(n);
    } else if n < 0 {
      assert s == Decimal.IntToString(n);
      Decimal.ParseIntToString(n);
    }
  }

  /** Distinct scores never share a label. */
  lemma FormatRelativeToParInjective(a: int, b: int)
    ensures FormatRelativeToPar(a) == FormatRelativeToPar(b) ==> a == b
  {
    ParseFormatRelativeToPar(a);
    ParseFormatRelativeToPar(b);
  }

  const UnderParClass: string := "text-green-500"
  const OverParClass: string := "text-red-500"
  const EvenParClass: string := "text-gray-700"

  /** The sign of an integer: -1, 0 or 1. */
  function Sign(n: int): int
  {
    if n < 0 then -1 else if n > 0 then 1 else 0
  }

  function ScoreColorClass(relativeToPar: int): (r: string)
    ensures r == UnderParClass <==> relativeToPar < 0
    ensures r == OverParClass <==> relativeToPar > 0
    ensures r == EvenParClass <==> relativeToPar == 0
  {
    if relativeToPar < 0 then UnderParClass
    else if relativeToPar > 0 then OverParClass
    else EvenParClass
  }

  /** Two scores get the same colour exactly when they have the same sign. */
  lemma ScoreColorClassBySign(a: int, b: int)
    ensures ScoreColorClass(a) == ScoreColorClass(b) <==> Sign(a) == Sign(b)
  {
  }

  /** "F" once all 18 holes are done, otherwise the count itself. */
  function FormatThru(holesCompleted: int): (r: string)
    ensures r == "F" <==> holesCompleted == 18
    ensures holesCompleted != 18 ==> Decimal.ParseInt(r) == Some(holesCompleted)
  {
    Decimal.ParseIntToString(holesCompleted);
    if holesCompleted == 18 then "F" else Decimal.IntToString(holesCompleted)
  }

  function ParseThru(s: string): Option<int>
  {
    if s == "F" then Some(18) else Decimal.ParseInt(s)
  }

  lemma ParseFormatThru(holesCompleted: int)
    ensures ParseThru(FormatThru(holesCompleted)) == Some(holesCompleted)
  {
  }

  /** One entry of the per-player drive list. */
  datatype DriverCount = DriverCount(id: string, name: string, count: int)

  /** The minimum number of drives per player in a 2-man scramble. */
  const DefaultMinDrives: int := 5

  /** Every listed player has driven at least `minDrives` times. */
  function CheckMinimumDrives(driveCounts: seq<DriverCount>, minDrives: int := DefaultMinDrives): (r: bool)
    ensures r <==> forall i :: 0 <= i < |driveCounts| ==> driveCounts[i].count >= minDrives
    decreases |driveCounts|
  {
    |driveCounts| == 0
    || (driveCounts[0].count >= minDrives && CheckMinimumDrives(driveCounts[1..], minDrives))
  }

  lemma CheckMinimumDrivesVacuous(minDrives: int)
    ensures CheckMinimumDrives([], minDrives)
  {
  }

  /** Lowering the bar never turns a pass into a failure. */
  lemma CheckMinimumDrivesAntitone(driveCounts: seq<DriverCount>, m: int, m': int)
    requires m' <= m
    ensures CheckMinimumDrives(driveCounts, m) ==> CheckMinimumDrives(driveCounts, m')
  {
  }

  lemma CheckMinimumDrivesDefault(driveCounts: seq<DriverCount>)
    ensures CheckMinimumDrives(driveCounts) <==> forall i :: 0 <= i < |driveCounts| ==> driveCounts[i].count >= 5
  {
  }
}
