/** The two fixed-point renderers of lowcar/lib/SevenSeg/SevenSeg.cpp: the loop that multiplexes the display
    itself, and the digit extractor that a timer interrupt calls. */
module SevenSeg {

  datatype Glyph = Digit(d: nat) | Minus | Blank

  function Pow10(n: nat): (r: nat)
    ensures r > 0
  {
    if n == 0 then 1 else 10 * Pow10(n - 1)
  }

  /** The number nearest to `num` that fits on `digits` positions; a minus sign takes one of them. */
  function Limit(digits: nat, num: int): (r: int)
    requires digits > 0
  {
    var most, least := Pow10(digits) - 1, 1 - Pow10(digits - 1);
    if num > most then most else if num < least then least else num
  }

  /** iaLimitInt, and the same lines of write. */
  method LimitInt(digits: nat, num: int) returns (r: int)
    requires digits > 0
    ensures r == Limit(digits, num)
  {
    var maxNegNum := 1;
    for i := 1 to digits
      invariant maxNegNum == Pow10(i - 1)
    {
      maxNegNum := maxNegNum * 10;
    }
    var maxPosNum := 10 * maxNegNum - 1;
    maxNegNum := -maxNegNum + 1;
    r := num;
    if r > maxPosNum {
      r := maxPosNum;
    }
    if r < maxNegNum {
      r := maxNegNum;
    }
  }

  /** The position of the decimal point for `point` decimals; off the display for none. */
  function MapPoint(digits: nat, point: int): (p: int) { if point == 0 then digits else digits - point - 1 }

  function Abs(n: int): (r: nat) { if n < 0 then -n else n }

  /** `k` times `number /= 10`. */
  function Shift(n: nat, k: nat): (r: nat)
    decreases k
  {
    if k == 0 then n else Shift(n / 10, k - 1)
  }

  /** iaExtractDigit */
  function ExtractDigit(digits: nat, number: int, digit: nat, point: int): (g: Glyph)
    requires digit < digits
    decreases digits - digit
  {
    var n := Shift(Abs(number), digits - digit - 1);
    if digit > point - 1 || digit == digits - 1 || n != 0 then Digit(n % 10)
    else
      var next := ExtractDigit(digits, number, digit + 1, point);
      if next != Minus && next != Blank && number < 0 then Minus else Blank
  }

  lemma {:induction false} ShiftOnce(n: nat, k: nat)
    ensures Shift(n, k + 1) == Shift(n, k) / 10
    decreases k
  {
    if k > 0 { ShiftOnce(n / 10, k - 1); }
  }

  lemma NoShift(n: nat)
    ensures Shift(n, 0) == n
  {
  }

  lemma {:induction false} ShiftAll(n: nat, k: nat)
    requires n < Pow10(k)
    ensures Shift(n, k) == 0
    decreases k
  {
    if k > 0 { ShiftAll(n / 10, k - 1); }
  }

  predicate Shown(digits: nat, n: nat, i: nat, point: int)
    requires i < digits
  {
    i > point - 1 || i == digits - 1 || Shift(n, digits - i - 1) != 0
  }

  /** Suppressed positions are a prefix of the display. */
  lemma ShownToTheRight(digits: nat, n: nat, i: nat, point: int)
    requires i + 1 < digits && Shown(digits, n, i, point)
    ensures Shown(digits, n, i + 1, point)
  {
    ShiftOnce(n, digits - i - 2);
  }

  /** The character at a position: its digit if shown, a minus sign next to the first shown position. */
  lemma GlyphOf(digits: nat, number: int, i: nat, point: int)
    requires i < digits
    ensures ExtractDigit(digits, number, i, point) ==
            if Shown(digits, Abs(number), i, point) then Digit(Shift(Abs(number), digits - i - 1) % 10)
            else if number < 0 && Shown(digits, Abs(number), i + 1, point) then Minus
            else Blank
  {
    hide Shift;
  }

  // ------------------------------------------------------------------ direct mode

  /** write without a timer: one sweep over the display, from the right. */
  method WriteDirect(digits: nat, num: int, point: int) returns (shown: array<Glyph>, dp: array<bool>)
    requires digits > 0
    ensures shown.Length == dp.Length == digits
    ensures forall i :: 0 <= i < digits ==> shown[i] == ExtractDigit(digits, Limit(digits, num), i, MapPoint(digits, point))
    ensures forall i :: 0 <= i < digits ==> (dp[i] <==> point != 0 && digits - 1 - i == point)
  {
    hide ExtractDigit, Shift, Limit;
    shown, dp := new Glyph[digits](i => Blank), new bool[digits](i => false);
    var limited := LimitInt(digits, num);
    var at := if point == 0 then digits as int else digits - point - 1;
    var n, minus := limited, false;
    if n < 0 {
      n := -n;
      minus := true;
    }
    ghost var size := Abs(limited);
    NoShift(size);
    var i: int := digits - 1;
    while i >= 0
      invariant -1 <= i < digits && n == Shift(size, digits - 1 - i)
      invariant minus <==> limited < 0 && (i < digits - 1 ==> Shown(digits, size, i + 1, at))
      invariant forall j :: i < j < digits ==> shown[j] == ExtractDigit(digits, limited, j, at)
      invariant forall j :: i < j < digits ==> (dp[j] <==> j == at)
    {
      var nextDigit := n % 10;
      if n != 0 || i > at - 1 || i == digits - 1 {
        shown[i] := Digit(nextDigit);
      } else if minus {
        shown[i] := Minus;
        minus := false;
      } else {
        shown[i] := Blank;
      }
      dp[i] := at == i;
      if i < digits - 1 && Shown(digits, size, i, at) { ShownToTheRight(digits, size, i, at); }
      GlyphOf(digits, limited, i, at);
      ShiftOnce(size, digits - 1 - i);
      n := n / 10;
      i := i - 1;
    }
  }

  // ------------------------------------------------------------------ timer mode

  class TimedDisplay {
    const digits: nat
    var writeInt: int
    var writePoint: int
    var timerDigit: int

    constructor (digits: nat)
      requires digits > 0
      ensures this.digits == digits && timerDigit == -1
    {
      this.digits, writeInt, writePoint, timerDigit := digits, 0, digits, -1;
    }

    /** write with a timer: only remembers what to show. */
    method Write(num: int, point: int)
      requires digits > 0
      modifies this`writeInt, this`writePoint
      ensures writeInt == Limit(digits, num) && writePoint == MapPoint(digits, point)
    {
      writePoint := if point == 0 then digits as int else digits - point - 1;
      writeInt := LimitInt(digits, num);
    }

    /** The on-phase of interruptAction without a symbol pin: the next position. */
    method ShowNext() returns (glyph: Glyph, dp: bool)
      requires digits > 0 && -1 <= timerDigit < digits
      modifies this`timerDigit
      ensures timerDigit == if old(timerDigit) + 1 < digits then old(timerDigit) + 1 else 0
      ensures glyph == ExtractDigit(digits, writeInt, timerDigit, writePoint) && (dp <==> writePoint == timerDigit)
    {
      timerDigit := timerDigit + 1;
      if timerDigit >= digits {
        timerDigit := 0;
      }
      glyph := ExtractDigit(digits, writeInt, timerDigit, writePoint);
      dp := writePoint == timerDigit;
    }
  }

  /** Both modes show the same character and the same point at every position. */
  method SameInBothModes(digits: nat, num: int, point: int)
    returns (direct: array<Glyph>, directDp: array<bool>, timed: array<Glyph>, timedDp: array<bool>)
    requires digits > 0
    ensures direct[..] == timed[..] == Display(digits, Limit(digits, num), MapPoint(digits, point))
    ensures directDp[..] == timedDp[..]
    ensures directDp.Length == digits && forall i :: 0 <= i < digits ==> (directDp[i] <==> point != 0 && digits - 1 - i == point)
  {
    hide ExtractDigit, Limit;
    ghost var n, at := Limit(digits, num), MapPoint(digits, point);
    direct, directDp := WriteDirect(digits, num, point);
    ghost var chars, points := direct[..], directDp[..];
    assert chars == Display(digits, n, at);
    var display := new TimedDisplay(digits);
    display.Write(num, point);
    timed, timedDp := new Glyph[digits](i => Blank), new bool[digits](i => false);
    for i := 0 to digits
      invariant display.timerDigit == i - 1 && display.writeInt == n && display.writePoint == at
      invariant direct[..] == chars && directDp[..] == points
      invariant timed[..i] == chars[..i] && timedDp[..i] == points[..i]
    {
      var glyph, dp := display.ShowNext();
      timed[i], timedDp[i] := glyph, dp;
    }
  }

  // ------------------------------------------------------------------ reading the display

  function DigitAt(shown: seq<Glyph>, i: nat): (d: nat)
    requires i < |shown|
  {
    if shown[i].Digit? then shown[i].d else 0
  }

  /** The first `i` positions as a number. */
  function ReadMagnitude(shown: seq<Glyph>, i: nat): (r: nat)
    requires i <= |shown|
  {
    if i == 0 then 0 else 10 * ReadMagnitude(shown, i - 1) + DigitAt(shown, i - 1)
  }

  function ReadBack(shown: seq<Glyph>): (r: int)
  {
    if Minus in shown then 0 - ReadMagnitude(shown, |shown|) else ReadMagnitude(shown, |shown|)
  }

  function Display(digits: nat, number: int, point: int): (r: seq<Glyph>)
    ensures |r| == digits
  {
    seq(digits, i requires 0 <= i < digits => ExtractDigit(digits, number, i, point))
  }

  lemma {:induction false} MagnitudeRead(digits: nat, number: int, point: int, i: nat)
    requires i <= digits && Abs(number) < Pow10(digits)
    ensures ReadMagnitude(Display(digits, number, point), i) == Shift(Abs(number), digits - i)
  {
    var n := Abs(number);
    if i == 0 {
      ShiftAll(n, digits);
    } else {
      MagnitudeRead(digits, number, point, i - 1);
      ShiftOnce(n, digits - i);
      GlyphOf(digits, number, i - 1, point);
    }
  }

  lemma {:induction false} MinusIffSuppressed(digits: nat, number: int, point: int)
    requires digits > 0
    ensures Minus in Display(digits, number, point) <==> number < 0 && !Shown(digits, Abs(number), 0, point)
  {
    if number < 0 && !Shown(digits, Abs(number), 0, point) {
      var i := LastSuppressed(digits, Abs(number), point, 0);
      GlyphOf(digits, number, i + 1, point);
      assert Display(digits, number, point)[i] == Minus;
    }
    if k :| 0 <= k < digits && Display(digits, number, point)[k] == Minus {
      GlyphOf(digits, number, k, point);
      SuppressedFromTheLeft(digits, Abs(number), point, k);
    }
  }

  lemma {:induction false} LastSuppressed(digits: nat, n: nat, point: int, i: nat) returns (k: nat)
    requires i < digits && !Shown(digits, n, i, point)
    ensures i <= k && k + 1 < digits && !Shown(digits, n, k, point) && Shown(digits, n, k + 1, point)
    decreases digits - i
  {
    if Shown(digits, n, i + 1, point) { k := i; } else { k := LastSuppressed(digits, n, point, i + 1); }
  }

  lemma {:induction false} SuppressedFromTheLeft(digits: nat, n: nat, point: int, k: nat)
    requires k < digits && !Shown(digits, n, k, point)
    ensures !Shown(digits, n, 0, point)
  {
    if k > 0 {
      if Shown(digits, n, k - 1, point) { ShownToTheRight(digits, n, k - 1, point); }
      SuppressedFromTheLeft(digits, n, point, k - 1);
    }
  }

  lemma TimesTen(q: nat, p: nat)
    ensures q * (10 * p) == 10 * (q * p)
  {
  }

  lemma {:induction false} ShiftBounds(n: nat, k: nat)
    ensures Shift(n, k) * Pow10(k) <= n < (Shift(n, k) + 1) * Pow10(k)
    decreases k
  {
    if k > 0 {
      ShiftBounds(n / 10, k - 1);
      var q, p := Shift(n / 10, k - 1), Pow10(k - 1);
      TimesTen(q, p);
      TimesTen(q + 1, p);
      var low, high := q * p, (q + 1) * p;
      assert 10 * low <= n < 10 * high;
    }
  }

  lemma ShiftPositive(n: nat, k: nat)
    ensures Shift(n, k) != 0 <==> n >= Pow10(k)
  {
    ShiftBounds(n, k);
    if Shift(n, k) != 0 {
      assert Shift(n, k) * Pow10(k) >= Pow10(k) by { AtLeastOnce(Shift(n, k), Pow10(k)); }
    }
  }

  lemma AtLeastOnce(q: nat, p: nat)
    requires q >= 1
    ensures q * p >= p
  {
    assert (q - 1) * p >= 0;
  }

  /** Position `i` is needed for a number of this size: it is the last, the point is at or left of it, or the number
      reaches that far. */
  predicate Needed(digits: nat, number: int, i: nat, point: int)
    requires i < digits
  {
    i >= point || i == digits - 1 || Abs(number) >= Pow10(digits - 1 - i)
  }

  /** A digit stands exactly at the needed positions, a minus sign exactly left of the first of them, and the
      rest is blank. */
  lemma GlyphExact(digits: nat, number: int, i: nat, point: int)
    requires i < digits
    ensures var g := ExtractDigit(digits, number, i, point);
            && (g.Digit? <==> Needed(digits, number, i, point)) && (g.Digit? ==> g.d < 10)
            && (g == Minus <==> number < 0 && !Needed(digits, number, i, point) && Needed(digits, number, i + 1, point))
  {
    hide Shift, ExtractDigit, Pow10;
    GlyphOf(digits, number, i, point);
    ShiftPositive(Abs(number), digits - 1 - i);
    if i + 1 < digits { ShiftPositive(Abs(number), digits - 2 - i); }
  }

  /** Nothing is left of the number once the positions it has are used up; a minus sign takes one. */
  predicate Displayable(digits: nat, num: int)
    requires digits > 0
  {
    Shift(Abs(num), if num < 0 then digits - 1 else digits) == 0
  }

  /** The number shown is displayable, and no displayable number is nearer to the one asked for. */
  lemma NearestDisplayable(digits: nat, num: int, other: int)
    requires digits > 0
    ensures Displayable(digits, Limit(digits, num))
    ensures Displayable(digits, other) ==> Abs(num - Limit(digits, num)) <= Abs(num - other)
  {
    hide Shift, Pow10;
    PowersOfTen(digits);
    var r := Limit(digits, num);
    ShiftPositive(Abs(r), if r < 0 then digits - 1 else digits);
    ShiftPositive(Abs(other), if other < 0 then digits - 1 else digits);
  }

  lemma PowersOfTen(digits: nat)
    requires digits > 0
    ensures Pow10(digits) == 10 * Pow10(digits - 1)
  {
  }

  lemma LimitFits(digits: nat, num: int)
    requires digits > 0
    ensures var r := Limit(digits, num); Abs(r) < Pow10(digits) && (r < 0 ==> Abs(r) < Pow10(digits - 1))
    ensures 1 - Pow10(digits - 1) <= num < Pow10(digits) ==> Limit(digits, num) == num
  {
  }

  /** The display reads back as the clamped number exactly when the mapped point leaves the first position
      free for a sign or no sign is needed. */
  lemma ReadsBack(digits: nat, num: int, point: int)
    requires digits > 0
    ensures var r := Limit(digits, num);
            ReadBack(Display(digits, r, MapPoint(digits, point))) == r <==> MapPoint(digits, point) >= 1 || r >= 0
  {
    var r, at := Limit(digits, num), MapPoint(digits, point);
    LimitFits(digits, num);
    MagnitudeRead(digits, r, at, digits);
    MinusIffSuppressed(digits, r, at);
    if r < 0 { ShiftAll(Abs(r), digits - 1); }
  }
}
