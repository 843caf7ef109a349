/**
 * Study helpers: the difficulty badge of an ease factor and the "MM:SS"
 * clock (src/utils/study/studyUtils.ts). The shuffle is in module Shuffle.
 */
module StudyUtils {

  // ---------------------------------------------------------------------
  // getDifficultyLabel
  // ---------------------------------------------------------------------

  datatype Difficulty = VeryHard | Hard | Medium | Easy | Mastered {
    function Label(): string {
      match this
      case VeryHard => "Very Hard"
      case Hard => "Hard"
      case Medium => "Medium"
      case Easy => "Easy"
      case Mastered => "Mastered"
    }

    function Color(): string {
      match this
      case VeryHard => "text-red-500"
      case Hard => "text-orange-400"
      case Medium => "text-yellow-400"
      case Easy => "text-green-400"
      case Mastered => "text-emerald-400"
    }

    /** 0 for the hardest band up to 4 for the easiest. */
    function Rank(): nat {
      match this
      case VeryHard => 0
      case Hard => 1
      case Medium => 2
      case Easy => 3
      case Mastered => 4
    }
  }

  /** Upper bounds (inclusive) of the first four bands. */
  function BandCeiling(rank: nat): real
    requires rank < 4
  {
    [1.5, 1.8, 2.2, 2.5][rank]
  }

  /** getDifficultyLabel: the first band whose inclusive upper bound the ease does not exceed. */
  function DifficultyLabel(ef: real): (d: Difficulty)
    ensures forall k :: 0 <= k < 4 ==> (d.Rank() <= k <==> ef <= BandCeiling(k))
  {
    if ef <= 1.5 then VeryHard
    else if ef <= 1.8 then Hard
    else if ef <= 2.2 then Medium
    else if ef <= 2.5 then Easy
    else Mastered
  }

  /** A higher ease never yields a harder label. */
  lemma DifficultyMonotone(e1: real, e2: real)
    requires e1 <= e2
    ensures DifficultyLabel(e1).Rank() <= DifficultyLabel(e2).Rank()
  {
  }

  // ---------------------------------------------------------------------
  // formatTime
  // ---------------------------------------------------------------------

  /** `Math.floor(seconds / 60)`: Dafny's division by a positive divisor already floors. */
  function Minutes(seconds: int): int {
    seconds / 60
  }

  /** JavaScript `seconds % 60`: the remainder takes the sign of the dividend. */
  function Seconds(seconds: int): (secs: int)
    ensures seconds >= 0 ==> 0 <= secs < 60 && 60 * Minutes(seconds) + secs == seconds
    ensures seconds < 0 ==> -60 < secs <= 0
  {
    if seconds >= 0 then seconds % 60 else -((-seconds) % 60)
  }

  function DigitChar(d: nat): (c: char)
    requires d < 10
    ensures '0' <= c <= '9' && c as int - '0' as int == d
  {
    ['0', '1', '2', '3', '4', '5', '6', '7', '8', '9'][d]
  }

  function DigitValue(c: char): (d: nat)
    requires '0' <= c <= '9'
    ensures d < 10 && DigitChar(d) == c
  {
    c as int - '0' as int
  }

  /** Decimal digits of a natural number, without leading zeros. */
  function NatToString(n: nat): (s: string)
    ensures |s| > 0
    ensures forall i :: 0 <= i < |s| ==> '0' <= s[i] <= '9'
  {
    if n < 10 then [DigitChar(n)] else NatToString(n / 10) + [DigitChar(n % 10)]
  }

  /** `Number.prototype.toString()` on an integer. */
  function IntToString(n: int): string {
    if n < 0 then "-" + NatToString(-n) else NatToString(n)
  }

  /** `padStart(width, "0")`. */
  function PadStart(s: string, width: nat): (r: string)
    decreases width - |s|
  {
    if |s| >= width then s else PadStart("0" + s, width)
  }

  /** formatTime: zero-padded minutes, a colon, zero-padded seconds. */
  function FormatTime(seconds: int): string {
    PadStart(IntToString(Minutes(seconds)), 2) + ":" + PadStart(IntToString(Seconds(seconds)), 2)
  }

  lemma TwoDigits(n: nat)
    requires n < 100
    ensures PadStart(IntToString(n), 2) == [DigitChar(n / 10), DigitChar(n % 10)]
  {
    if n >= 10 {
      assert NatToString(n / 10) == [DigitChar(n / 10)];
    }
  }

  /** Reads "MM:SS" back into seconds. */
  function ParseClock(t: string): int
    requires |t| == 5
    requires forall i :: 0 <= i < 5 && i != 2 ==> '0' <= t[i] <= '9'
  {
    (DigitValue(t[0]) * 10 + DigitValue(t[1])) * 60 + DigitValue(t[3]) * 10 + DigitValue(t[4])
  }

  /**
   * Below 100 minutes the clock is exactly "MM:SS" with both fields
   * zero-padded: MM is the whole minutes, SS the seconds below 60, and
   * reading it back gives the seconds it was made from.
   */
  lemma FormatTimeClock(seconds: int)
    requires 0 <= seconds < 6000
    ensures var t := FormatTime(seconds);
            && |t| == 5 && t[2] == ':'
            && (forall i :: 0 <= i < 5 && i != 2 ==> '0' <= t[i] <= '9')
            && DigitValue(t[0]) * 10 + DigitValue(t[1]) == seconds / 60
            && DigitValue(t[3]) * 10 + DigitValue(t[4]) == seconds % 60
            && ParseClock(t) == seconds
  {
    var mins, secs := Minutes(seconds), Seconds(seconds);
    assert 60 * mins + secs == seconds && 0 <= secs < 60;
    assert 0 <= mins < 100;
    TwoDigits(mins);
    TwoDigits(secs);
    var m := [DigitChar(mins / 10), DigitChar(mins % 10)];
    var sec := [DigitChar(secs / 10), DigitChar(secs % 10)];
    var t := FormatTime(seconds);
    assert t == m + ":" + sec;
    assert t[0] == m[0] && t[1] == m[1] && t[2] == ':' && t[3] == sec[0] && t[4] == sec[1];
    assert ParseClock(t) == (mins / 10 * 10 + mins % 10) * 60 + secs / 10 * 10 + secs % 10;
  }
}
