/** The `YYYY-MM-DD` date key: what `toISOString().split('T')[0]` yields for
    a calendar day (`formatDateKey`), and the strict date-only reading of such
    a string that stands in for `new Date(str)` on the record dates. */
module DateKeys {
  import opened Options
  import opened Calendar

  predicate IsDigit(c: char) {
    '0' <= c <= '9'
  }

  predicate AllDigits(s: string) {
    forall i :: 0 <= i < |s| ==> IsDigit(s[i])
  }

  function DigitChar(n: nat): (c: char)
    requires n < 10
    ensures IsDigit(c)
  {
    ('0' as int + n) as char
  }

  function DigitValue(c: char): (n: nat)
    requires IsDigit(c)
    ensures n < 10 && DigitChar(n) == c
  {
    c as int - '0' as int
  }

  function Pow10(w: nat): (p: nat)
    ensures p >= 1
  {
    if w == 0 then 1 else 10 * Pow10(w - 1)
  }

  /** Decimal digits of `n`, left-padded with '0' to at least `width`
      characters (`String(n).padStart(width, '0')`). */
  function PadDigits(n: nat, width: nat): (s: string)
    ensures |s| >= 1 && AllDigits(s)
    decreases n + width
  {
    if n < 10 && width <= 1 then [DigitChar(n)]
    else PadDigits(n / 10, if width == 0 then 0 else width - 1) + [DigitChar(n % 10)]
  }

  /** The number a string of decimal digits denotes. */
  function DigitsValue(s: string): nat
    requires AllDigits(s)
  {
    if |s| == 0 then 0 else 10 * DigitsValue(s[..|s| - 1]) + DigitValue(s[|s| - 1])
  }

  lemma {:induction false} PadDigitsValue(n: nat, width: nat)
    ensures DigitsValue(PadDigits(n, width)) == n
    decreases n + width
  {
    var s := PadDigits(n, width);
    if n < 10 && width <= 1 {
      assert s[..0] == [];
    } else {
      var w := if width == 0 then 0 else width - 1;
      PadDigitsValue(n / 10, w);
      assert s[..|s| - 1] == PadDigits(n / 10, w);
    }
  }

  /** A number below `10^width` pads to exactly `width` digits. */
  lemma {:induction false} PadDigitsWidth(n: nat, width: nat)
    requires width >= 1 && n < Pow10(width)
    ensures |PadDigits(n, width)| == width
    decreases width
  {
    if !(n < 10 && width <= 1) {
      assert width >= 2;
      PadDigitsWidth(n / 10, width - 1);
    }
  }

  /** Padding the value of a digit string to its own length gives it back:
      leading zeros survive the round trip. */
  lemma {:induction false} DigitsValuePad(s: string)
    requires |s| >= 1 && AllDigits(s)
    ensures PadDigits(DigitsValue(s), |s|) == s
    decreases |s|
  {
    var p := s[..|s| - 1];
    var n := DigitsValue(s);
    if |s| == 1 {
      assert p == [];
      assert DigitsValue(p) == 0;
      assert n == DigitValue(s[0]);
    } else {
      DigitsValuePad(p);
      assert n / 10 == DigitsValue(p) && n % 10 == DigitValue(s[|s| - 1]);
      assert s == p + [s[|s| - 1]];
    }
  }

  /** `toISOString().split('T')[0]`: four-digit years for 0..9999, and the
      expanded six-digit signed year otherwise. */
  function FormatDateKey(d: Day): (s: string)
    ensures 0 <= d.year <= 9999 ==> |s| == 10 && s[4] == '-' && s[7] == '-'
    ensures !(0 <= d.year <= 9999) ==> |s| >= 1 && !IsDigit(s[0])
  {
    PadDigitsWidth(d.month, 2);
    PadDigitsWidth(d.day, 2);
    var md := "-" + PadDigits(d.month, 2) + "-" + PadDigits(d.day, 2);
    if 0 <= d.year <= 9999 then
      PadDigitsWidth(d.year, 4);
      PadDigits(d.year, 4) + md
    else if d.year < 0 then "-" + PadDigits(-d.year, 6) + md
    else "+" + PadDigits(d.year, 6) + md
  }

  /** Reads a `YYYY-MM-DD` string as a calendar day; anything else, including
      an out-of-range month or day, is an invalid date. */
  function ParseDateKey(s: string): (r: Option<Day>)
    ensures r.Some? ==> |s| == 10 && 0 <= r.value.year <= 9999
  {
    if |s| == 10 && s[4] == '-' && s[7] == '-'
       && AllDigits(s[..4]) && AllDigits(s[5..7]) && AllDigits(s[8..])
    then
      var y, m, d := DigitsValue(s[..4]), DigitsValue(s[5..7]), DigitsValue(s[8..]);
      PadDigitsValue(0, 0);
      assert y < 10000 by { DigitsBelow(s[..4]); }
      if 1 <= m <= 12 && 1 <= d <= DaysInMonth(y, m) then Some(Ymd(y, m, d)) else None
    else None
  }

  lemma {:induction false} DigitsBelow(s: string)
    requires AllDigits(s)
    ensures DigitsValue(s) < Pow10(|s|)
    decreases |s|
  {
    if |s| > 0 {
      DigitsBelow(s[..|s| - 1]);
    }
  }

  /** Reading back a formatted key gives the day (four-digit years). */
  lemma ParseFormat(d: Day)
    requires 0 <= d.year <= 9999
    ensures ParseDateKey(FormatDateKey(d)) == Some(d)
  {
    PadDigitsWidth(d.year, 4);
    PadDigitsWidth(d.month, 2);
    PadDigitsWidth(d.day, 2);
    PadDigitsValue(d.year, 4);
    PadDigitsValue(d.month, 2);
    PadDigitsValue(d.day, 2);
    var s := FormatDateKey(d);
    assert s[..4] == PadDigits(d.year, 4);
    assert s[5..7] == PadDigits(d.month, 2);
    assert s[8..] == PadDigits(d.day, 2);
  }

  /** A string that reads as a day is exactly that day's formatted key:
      the reading accepts only the canonical form. */
  lemma FormatParse(s: string)
    requires ParseDateKey(s).Some?
    ensures FormatDateKey(ParseDateKey(s).value) == s
  {
    var d := ParseDateKey(s).value;
    DigitsValuePad(s[..4]);
    DigitsValuePad(s[5..7]);
    DigitsValuePad(s[8..]);
    assert s == s[..4] + "-" + s[5..7] + "-" + s[8..];
  }

  /** For a day with a four-digit year, a string equals its key exactly when
      the string reads as that day. */
  lemma KeyEqualsIffParses(s: string, d: Day)
    requires 0 <= d.year <= 9999
    ensures s == FormatDateKey(d) <==> ParseDateKey(s) == Some(d)
  {
    if s == FormatDateKey(d) {
      ParseFormat(d);
    }
    if ParseDateKey(s) == Some(d) {
      FormatParse(s);
    }
  }
}
