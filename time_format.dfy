/**
 * `formatTime(seconds)`: "MM:SS" with `Math.floor(seconds / 60)` minutes,
 * `seconds % 60` (JavaScript's remainder, which takes the dividend's sign)
 * and each part left-padded with '0' to two characters.
 */
module TimeFormat {
  import opened Wrappers

  function DigitChar(d: int): char
    requires 0 <= d < 10
  {
    ('0' as int + d) as char
  }

  predicate IsDigit(c: char) {
    '0' <= c <= '9'
  }

  predicate AllDigits(s: string) {
    forall i :: 0 <= i < |s| ==> IsDigit(s[i])
  }

  /** `n.toString()` for a natural number. */
  function NatToString(n: nat): (r: string)
    ensures |r| >= 1 && AllDigits(r)
    ensures n < 10 ==> |r| == 1
    ensures 10 <= n < 100 ==> |r| == 2
  {
    if n < 10 then [DigitChar(n)] else NatToString(n / 10) + [DigitChar(n % 10)]
  }

  /** `n.toString()` for an integer. */
  function IntToString(n: int): string {
    if n < 0 then "-" + NatToString(-n) else NatToString(n)
  }

  /** `s.padStart(2, '0')`. */
  function PadStart2(s: string): (r: string)
    ensures |r| == if |s| < 2 then 2 else |s|
  {
    if |s| == 0 then "00" else if |s| == 1 then "0" + s else s
  }

  /** JavaScript's `a % b` for `b > 0`: truncates toward zero, so the result has the sign of `a`. */
  function JsRem(a: int, b: int): (r: int)
    requires b > 0
    ensures a >= 0 ==> 0 <= r < b
    ensures a < 0 ==> -b < r <= 0
  {
    if a >= 0 then a % b else -((-a) % b)
  }

  /** `a` and its remainder differ by whole minutes, and negating `a` negates the remainder. */
  lemma JsRemMinute(a: int)
    ensures (a - JsRem(a, 60)) % 60 == 0
    ensures JsRem(-a, 60) == -JsRem(a, 60)
  {
  }

  function FormatTime(seconds: int): string {
    PadStart2(IntToString(seconds / 60)) + ":" + PadStart2(IntToString(JsRem(seconds, 60)))
  }

  /** The decimal value of a string of digits. */
  function DigitsValue(s: string): nat
    requires AllDigits(s)
  {
    if |s| == 0 then 0 else DigitsValue(s[..|s| - 1]) * 10 + (s[|s| - 1] as int - '0' as int)
  }

  /** Reads "M…M:SS" back into seconds; `None` when the string has another shape. */
  function ParseTime(s: string): (r: Option<int>)
    ensures r.Some? ==> r.value >= 0
  {
    if |s| >= 4 && s[|s| - 3] == ':' && AllDigits(s[..|s| - 3]) && AllDigits(s[|s| - 2..]) then
      Some(DigitsValue(s[..|s| - 3]) * 60 + DigitsValue(s[|s| - 2..]))
    else None
  }

  lemma {:induction false} DigitsOfNat(n: nat)
    ensures DigitsValue(NatToString(n)) == n
  {
    if n >= 10 {
      DigitsOfNat(n / 10);
      var s := NatToString(n);
      assert s[..|s| - 1] == NatToString(n / 10);
    }
  }

  /** A leading '0' does not change the value. */
  lemma {:induction false} LeadingZero(s: string)
    requires AllDigits(s)
    ensures DigitsValue("0" + s) == DigitsValue(s)
  {
    if |s| > 0 {
      var z := "0" + s;
      assert z[..|z| - 1] == "0" + s[..|s| - 1];
      LeadingZero(s[..|s| - 1]);
    }
  }

  lemma PaddedDigits(n: nat)
    ensures AllDigits(PadStart2(NatToString(n)))
    ensures DigitsValue(PadStart2(NatToString(n))) == n
  {
    DigitsOfNat(n);
    var s := NatToString(n);
    if |s| == 1 {
      LeadingZero(s);
    }
  }

  /** For non-negative seconds the seconds part is always two digits, and the text reads back as the same number. */
  lemma ParseFormatTime(seconds: int)
    requires seconds >= 0
    ensures |PadStart2(IntToString(JsRem(seconds, 60)))| == 2
    ensures ParseTime(FormatTime(seconds)) == Some(seconds)
  {
    var m, sec := seconds / 60, JsRem(seconds, 60);
    var a, b := PadStart2(NatToString(m)), PadStart2(NatToString(sec));
    PaddedDigits(m);
    PaddedDigits(sec);
    var f := a + ":" + b;
    assert f == FormatTime(seconds);
    assert f[..|f| - 3] == a;
    assert f[|f| - 2..] == b;
  }

  /** Under 100 minutes the display is exactly five characters, "MM:SS". */
  lemma FormatTimeIsFiveCharacters(seconds: int)
    requires 0 <= seconds < 6000
    ensures |FormatTime(seconds)| == 5 && FormatTime(seconds)[2] == ':'
  {
  }

  /**
   * A negative count shows a sign in the minutes, and in the seconds too
   * unless it is a whole number of minutes: JavaScript's `-60 % 60` is `-0`,
   * which prints as "0".
   */
  lemma NegativeSecondsShowSigns(seconds: int)
    requires seconds < 0
    ensures JsRem(seconds, 60) != 0 ==>
      FormatTime(seconds) == "-" + NatToString(-(seconds / 60)) + ":-" + NatToString(-JsRem(seconds, 60))
    ensures JsRem(seconds, 60) == 0 ==>
      FormatTime(seconds) == "-" + NatToString(-(seconds / 60)) + ":00"
  {
  }

  /** -5 seconds shows as "-1:-5", -60 seconds as "-1:00". */
  lemma NegativeSecondsExamples()
    ensures FormatTime(-5) == "-1:-5"
    ensures FormatTime(-60) == "-1:00"
  {
    assert NatToString(1) == "1";
    assert NatToString(5) == "5";
    assert NatToString(0) == "0";
  }
}
