/** Decimal text of integers: how Python 2 writes an int (`str(n)`, `"%d" % n`)
    and which strings its `int(s)` accepts in base 10. */
module Decimal {

  predicate IsDigit(c: char) {
    '0' <= c <= '9'
  }

  predicate AllDigits(s: string) {
    forall i :: 0 <= i < |s| ==> IsDigit(s[i])
  }

  function DigitValue(c: char): nat
    requires IsDigit(c)
  {
    c as int - '0' as int
  }

  function DigitChar(d: nat): (c: char)
    requires d < 10
    ensures IsDigit(c) && DigitValue(c) == d
  {
    (d + '0' as int) as char
  }

  /** The digits of a natural number, most significant first, without leading zeros. */
  function NatDigits(n: nat): (s: string)
    ensures 1 <= |s| && AllDigits(s)
    ensures s[0] == '0' ==> n == 0
    decreases n
  {
    if n < 10 then [DigitChar(n)] else NatDigits(n / 10) + [DigitChar(n % 10)]
  }

  /** The number a string of digits denotes; leading zeros are allowed. */
  function DigitsValue(s: string): nat
    requires AllDigits(s)
  {
    if |s| == 0 then 0 else DigitsValue(s[..|s| - 1]) * 10 + DigitValue(s[|s| - 1])
  }

  lemma {:induction false} NatDigitsValue(n: nat)
    ensures DigitsValue(NatDigits(n)) == n
    decreases n
  {
    if n >= 10 {
      var s := NatDigits(n);
      assert s[..|s| - 1] == NatDigits(n / 10);
      NatDigitsValue(n / 10);
    }
  }

  /** `str(n)` and `"%d" % n` for a Python int: digits only, preceded by a minus
      sign exactly for negatives, never a plus sign, and no leading zero except
      in "0" itself. */
  function Format(n: int): (r: string)
    ensures n >= 0 ==> |r| >= 1 && AllDigits(r) && (r[0] == '0' ==> r == "0")
    ensures n < 0 ==> |r| >= 2 && r[0] == '-' && AllDigits(r[1..]) && r[1] != '0'
  {
    if n < 0 then "-" + NatDigits(-n) else NatDigits(n)
  }

  /** C `isspace` in the "C" locale: blank, tab, newline, vertical tab, form feed, return. */
  predicate IsSpace(c: char) {
    c == ' ' || c == '\t' || c == '\n' || c == '\r' || c as int == 11 || c as int == 12
  }

  function TrimLeft(s: string): (t: string)
    ensures |t| <= |s| && t == s[|s| - |t|..]
    ensures |t| > 0 ==> !IsSpace(t[0])
  {
    if |s| > 0 && IsSpace(s[0]) then TrimLeft(s[1..]) else s
  }

  function TrimRight(s: string): (t: string)
    ensures |t| <= |s| && t == s[..|t|]
    ensures |t| > 0 ==> !IsSpace(t[|t| - 1])
  {
    if |s| > 0 && IsSpace(s[|s| - 1]) then TrimRight(s[..|s| - 1]) else s
  }

  function Strip(s: string): string {
    TrimRight(TrimLeft(s))
  }

  /** What follows an optional leading sign; Python 2 skips blanks after the sign too. */
  function Unsigned(t: string): (u: string)
    ensures |u| <= |t|
  {
    if |t| > 0 && (t[0] == '+' || t[0] == '-') then TrimLeft(t[1..]) else t
  }

  /** True when Python 2's `int(s)` accepts the string s in base 10. */
  predicate IsIntLiteral(s: string) {
    var body := Unsigned(Strip(s));
    |body| > 0 && AllDigits(body)
  }

  /** The value `int(s)` returns for an accepted string. */
  function LiteralValue(s: string): int
    requires IsIntLiteral(s)
  {
    var t := Strip(s);
    var v: int := DigitsValue(Unsigned(t));
    if t[0] == '-' then -v else v
  }

  /** `int(str(n)) == n`: the text an int is written as reads back as that int. */
  lemma FormatReadsBack(n: int)
    ensures IsIntLiteral(Format(n)) && LiteralValue(Format(n)) == n
  {
    var s := Format(n);
    var m: nat := if n < 0 then -n else n;
    var digits := NatDigits(m);
    assert !IsSpace(s[0]);
    assert TrimLeft(s) == s;
    assert IsDigit(s[|s| - 1]);
    assert TrimRight(s) == s;
    assert Strip(s) == s;
    if n < 0 {
      assert s[1..] == digits;
      assert TrimLeft(digits) == digits by { assert !IsSpace(digits[0]); }
      assert Unsigned(s) == digits;
    } else {
      assert Unsigned(s) == digits;
    }
    NatDigitsValue(m);
  }

  /** A string without any digit is never an int literal. */
  lemma NoDigitNoLiteral(s: string)
    requires forall i :: 0 <= i < |s| ==> !IsDigit(s[i])
    ensures !IsIntLiteral(s)
  {
  }
}
