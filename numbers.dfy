/** Decimal integers as Rust's `str::parse` reads them, and their decimal rendering. */
module Numbers {
  import opened Text

  const I32_MIN: int := -0x8000_0000
  const I32_MAX: int := 0x7FFF_FFFF

  predicate AllDigits(s: string) {
    forall i :: 0 <= i < |s| ==> IsDigit(s[i])
  }

  function Pow10(n: nat): (p: nat)
    ensures p >= 1
  {
    if n == 0 then 1 else 10 * Pow10(n - 1)
  }

  function DigitValue(c: char): (d: nat)
    requires IsDigit(c)
    ensures d < 10
  {
    (c as int) - ('0' as int)
  }

  function DigitChar(d: nat): (c: char)
    requires d < 10
    ensures IsDigit(c) && DigitValue(c) == d
  {
    ('0' as int + d) as char
  }

  /** The value of a run of decimal digits, most significant first; a run of `n`
      digits is below `10^n`. */
  function DigitsValue(s: string): (v: nat)
    requires AllDigits(s)
    ensures v < Pow10(|s|)
  {
    if s == [] then 0 else DigitsValue(s[..|s| - 1]) * 10 + DigitValue(s[|s| - 1])
  }

  /** `s.parse::<i32>()`: an optional sign, then at least one digit and nothing else, and
      a value within the 32-bit range; `None` is the `Err` that `unwrap` turns into a panic. */
  function ParseI32(s: string): (r: Option<int>)
    ensures r.Some? ==> I32_MIN <= r.value <= I32_MAX
    ensures r.Some? ==> |s| >= 1 && (AllDigits(s) || ((s[0] == '-' || s[0] == '+') && |s| >= 2 && AllDigits(s[1..])))
  {
    if |s| == 0 then None
    else
      var negative := s[0] == '-';
      var digits := if s[0] == '-' || s[0] == '+' then s[1..] else s;
      if |digits| == 0 || !AllDigits(digits) then None
      else
        var v: int := if negative then -(DigitsValue(digits) as int) else DigitsValue(digits);
        if I32_MIN <= v <= I32_MAX then Some(v) else None
  }

  /** The shortest decimal rendering of `n`, which reads back as `n`. */
  function NatToDecimal(n: nat): (s: string)
    ensures |s| >= 1 && AllDigits(s) && DigitsValue(s) == n
    ensures |s| > 1 ==> s[0] != '0'
  {
    if n < 10 then [DigitChar(n)]
    else
      var s := NatToDecimal(n / 10) + [DigitChar(n % 10)];
      assert s[..|s| - 1] == NatToDecimal(n / 10);
      s
  }

  /** The decimal rendering of a 32-bit count, with a minus sign for negative values. */
  function IntToDecimal(v: int): string {
    if v < 0 then "-" + NatToDecimal(-v) else NatToDecimal(v)
  }

  /** Every 32-bit count written in decimal parses back to itself. */
  lemma ParseI32RoundTrip(v: int)
    requires I32_MIN <= v <= I32_MAX
    ensures ParseI32(IntToDecimal(v)) == Some(v)
  {
    var s := IntToDecimal(v);
    if v < 0 {
      assert s[1..] == NatToDecimal(-v);
    }
  }

  /** A lone minus sign and a minus sign inside the digits are rejected. */
  lemma ParseI32RejectsDashes()
    ensures ParseI32("-") == None
    ensures ParseI32("1-2") == None
    ensures ParseI32("-1-2") == None
  {
    assert !AllDigits("1-2") by { assert !IsDigit("1-2"[1]); }
    assert "-1-2"[1..] == "1-2";
  }

  /** A count written in decimal that lies outside the 32-bit range is rejected. */
  lemma ParseI32RejectsOutOfRange(v: int)
    requires v < I32_MIN || v > I32_MAX
    ensures ParseI32(IntToDecimal(v)) == None
  {
    var s := IntToDecimal(v);
    if v < 0 {
      assert s[1..] == NatToDecimal(-v);
    }
  }
}
