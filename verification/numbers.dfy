/**
 The JavaScript numbers the settings code stores as a font size: integers
 (`font_size` only ever grows or shrinks by whole steps) and NaN, which is what
 `parseInt` returns for text that is not a number. Conversion to text follows
 `"" + n`; conversion from text follows `parseInt` on decimal strings.
 */
module Numbers {

  datatype Number = Int(value: int) | NaN

  predicate IsDigit(c: char) { '0' <= c <= '9' }

  predicate AllDigits(s: string) { forall k :: 0 <= k < |s| ==> IsDigit(s[k]) }

  function DigitChar(d: nat): (c: char)
    requires d < 10
    ensures IsDigit(c)
  {
    (48 + d) as char
  }

  function DigitValue(c: char): (d: nat)
    requires IsDigit(c)
    ensures d < 10
  {
    c as int - 48
  }

  /** Decimal digits of `n`, most significant first, without leading zeros. */
  function NatToString(n: nat): (r: string)
    ensures |r| >= 1 && AllDigits(r)
    ensures n > 0 ==> r[0] != '0'
    decreases n
  {
    if n < 10 then [DigitChar(n)] else NatToString(n / 10) + [DigitChar(n % 10)]
  }

  /** The value of a string of decimal digits. */
  function DigitsValue(s: string): nat
    requires AllDigits(s)
    decreases |s|
  {
    if |s| == 0 then 0 else 10 * DigitsValue(s[..|s| - 1]) + DigitValue(s[|s| - 1])
  }

  lemma {:induction false} DigitsValueOfNatToString(n: nat)
    ensures DigitsValue(NatToString(n)) == n
    decreases n
  {
    if n >= 10 {
      var s := NatToString(n);
      assert s[..|s| - 1] == NatToString(n / 10);
      DigitsValueOfNatToString(n / 10);
    }
  }

  /** `"" + x`: NaN prints as "NaN", an integer as optional '-' and its digits. */
  function Format(x: Number): (r: string)
    ensures |r| >= 1
    ensures x.Int? ==> (r[0] == '-' <==> x.value < 0)
    ensures x.Int? ==> AllDigits(if x.value < 0 then r[1..] else r)
    ensures x.Int? ==> var digits := if x.value < 0 then r[1..] else r; |digits| >= 1 && (digits[0] == '0' ==> digits == "0")
    ensures x.NaN? ==> r == "NaN"
  {
    match x
    case NaN => "NaN"
    case Int(i) =>
      if i < 0 then
        var digits := NatToString(-i);
        assert ("-" + digits)[1..] == digits;
        "-" + digits
      else NatToString(i)
  }

  /** A non-empty run of decimal digits, optionally after one '+' or '-'. */
  predicate SignedDigits(s: string)
  {
    (|s| >= 1 && AllDigits(s)) || (|s| >= 2 && (s[0] == '-' || s[0] == '+') && AllDigits(s[1..]))
  }

  /**
   `parseInt(s)` for an optionally signed string of decimal digits; every other
   string, including the empty one, is NaN.
   */
  function ParseInt(s: string): (r: Number)
    ensures r.Int? <==> SignedDigits(s)
    ensures |s| >= 1 && AllDigits(s) ==> r == Int(DigitsValue(s))
    ensures |s| >= 2 && s[0] == '+' && AllDigits(s[1..]) ==> r == Int(DigitsValue(s[1..]))
    ensures |s| >= 2 && s[0] == '-' && AllDigits(s[1..]) ==> r == Int(-(DigitsValue(s[1..]) as int))
  {
    if |s| >= 2 && (s[0] == '-' || s[0] == '+') && AllDigits(s[1..]) then
      var m: int := DigitsValue(s[1..]);
      assert IsDigit(s[1..][0]);
      Int(if s[0] == '-' then -m else m)
    else if |s| >= 1 && AllDigits(s) then
      assert IsDigit(s[0]);
      Int(DigitsValue(s))
    else
      NaN
  }

  /** Printing a number and parsing the text back gives the same number, NaN included. */
  lemma ParseIntOfFormat(x: Number)
    ensures ParseInt(Format(x)) == x
  {
    match x
    case NaN =>
      assert !IsDigit(Format(x)[0]);
    case Int(i) =>
      if i < 0 {
        DigitsValueOfNatToString(-i);
        assert Format(x)[1..] == NatToString(-i);
      } else {
        DigitsValueOfNatToString(i);
      }
  }

  /** The printed form of a number never contains the settings separator. */
  lemma FormatHasNoBar(x: Number)
    ensures '|' !in Format(x)
  {
    var r := Format(x);
    if x.Int? && x.value < 0 {
      assert r == [r[0]] + r[1..];
    }
  }
}
