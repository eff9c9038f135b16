/**
 * Python's `int(text)` and `str(n)` on the decimal forms the parser meets:
 * an optional sign followed by ASCII digits. `int` accepts leading zeros
 * and a `+` sign, so `str(int(text))` is the canonical spelling of the
 * number (`01` becomes `1`, `-0` becomes `0`).
 */
module Numbers {
  import opened Results

  predicate IsDigit(ch: char)
  {
    '0' <= ch <= '9'
  }

  predicate AllDigits(s: string)
  {
    forall i :: 0 <= i < |s| ==> IsDigit(s[i])
  }

  function DigitValue(ch: char): nat
    requires IsDigit(ch)
  {
    ch as int - '0' as int
  }

  function DigitChar(d: nat): (ch: char)
    requires d < 10
    ensures IsDigit(ch) && DigitValue(ch) == d
  {
    ('0' as int + d) as char
  }

  /** The number a string of decimal digits denotes, most significant digit first. */
  function DigitsValue(s: string): nat
    requires AllDigits(s)
  {
    if s == [] then 0 else DigitsValue(s[..|s| - 1]) * 10 + DigitValue(s[|s| - 1])
  }

  /** `int(text)`: an optional `+` or `-` and at least one ASCII digit; anything else is a `ValueError`. */
  function ParseInt(text: string): Option<int>
  {
    if text != [] && (text[0] == '+' || text[0] == '-') then
      var digits := text[1..];
      if digits != [] && AllDigits(digits) then
        var magnitude: int := DigitsValue(digits);
        Some(if text[0] == '-' then -magnitude else magnitude)
      else None
    else if text != [] && AllDigits(text) then Some(DigitsValue(text))
    else None
  }

  /** Canonical decimal digits of `n`: no leading zero except for `0` itself. */
  function NatToString(n: nat): (s: string)
    ensures s != [] && AllDigits(s) && DigitsValue(s) == n
    ensures s[0] == '0' <==> n == 0
    ensures n == 0 ==> s == "0"
  {
    if n < 10 then [DigitChar(n)]
    else
      var s := NatToString(n / 10) + [DigitChar(n % 10)];
      assert s[..|s| - 1] == NatToString(n / 10);
      s
  }

  /** `str(n)`. */
  function IntToString(n: int): string
  {
    if n < 0 then "-" + NatToString(-n) else NatToString(n)
  }

  /** `int(str(n)) == n` for every integer. */
  lemma ParseIntToString(n: int)
    ensures ParseInt(IntToString(n)) == Some(n)
  {
    var s := IntToString(n);
    if n < 0 {
      assert s[1..] == NatToString(-n);
    } else {
      var d := NatToString(n);
      assert s == d && d[0] != '+' && d[0] != '-';
    }
  }

  /** Digits starting with a non-zero digit denote a positive number. */
  lemma {:induction false} LeadingDigitPositive(s: string)
    requires s != [] && AllDigits(s) && s[0] != '0'
    ensures DigitsValue(s) > 0
  {
    if |s| > 1 {
      var init := s[..|s| - 1];
      assert init[0] == s[0];
      LeadingDigitPositive(init);
    }
  }

  /** Every canonical digit string is the spelling `NatToString` produces for its value. */
  lemma {:induction false} CanonicalDigitsRoundTrip(s: string)
    requires s != [] && AllDigits(s)
    requires s[0] == '0' ==> s == "0"
    ensures NatToString(DigitsValue(s)) == s
  {
    var n := DigitsValue(s);
    if |s| == 1 {
      assert s[..|s| - 1] == [];
      assert DigitsValue(s[..|s| - 1]) == 0;
      assert n == DigitValue(s[0]);
      assert s == [DigitChar(n)];
    } else {
      var init := s[..|s| - 1];
      assert init[0] == s[0];
      LeadingDigitPositive(init);
      CanonicalDigitsRoundTrip(init);
      assert n / 10 == DigitsValue(init) && n % 10 == DigitValue(s[|s| - 1]);
      assert s == init + [s[|s| - 1]];
    }
  }

  /** A canonical digit string survives `str(int(text))` unchanged. */
  lemma CanonicalParseInt(text: string)
    requires text != [] && AllDigits(text)
    requires text[0] == '0' ==> text == "0"
    ensures ParseInt(text) == Some(DigitsValue(text))
    ensures IntToString(ParseInt(text).value) == text
  {
    CanonicalDigitsRoundTrip(text);
  }

  /** A digit string with a leading zero is respelled by `str(int(text))`: `01` becomes `1`. */
  lemma LeadingZeroRespelled(text: string)
    requires |text| > 1 && AllDigits(text) && text[0] == '0'
    ensures ParseInt(text) == Some(DigitsValue(text))
    ensures IntToString(ParseInt(text).value) != text
  {
    var r := NatToString(DigitsValue(text));
    assert IntToString(ParseInt(text).value) == r;
  }
}
