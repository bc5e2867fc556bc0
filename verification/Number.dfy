/** Numbers of the JSON engine: "%d" output and the part of strtod that parse_number relies on.

  Values are exact reals: rounding to a double is not modelled, and it does not occur for the
  integers in int range that the printer is modelled on.
 */
module Number {
  import opened Text

  const INT_MAX := 0x7fff_ffff
  const INT_MIN := -0x8000_0000

  predicate InIntRange(n: int) {
    INT_MIN <= n <= INT_MAX
  }

  predicate IsDigit(c: char) {
    '0' <= c <= '9'
  }

  predicate IsSign(c: char) {
    c == '+' || c == '-'
  }

  predicate IsExponentMark(c: char) {
    c == 'e' || c == 'E'
  }

  /** The characters parse_number copies into its temporary buffer. */
  predicate IsNumberChar(c: char) {
    IsDigit(c) || IsSign(c) || IsExponentMark(c) || c == '.'
  }

  function Digit(d: nat): (c: char)
    requires d < 10
    ensures IsDigit(c) && DigitValue(c) == d
  {
    (d + 48) as char
  }

  function DigitValue(c: char): (d: nat)
    requires IsDigit(c)
    ensures d < 10
  {
    c as int - 48
  }

  predicate AllDigits(s: string) {
    forall i :: 0 <= i < |s| ==> IsDigit(s[i])
  }

  function NatValue(s: string): nat
    requires AllDigits(s)
  {
    if s == "" then 0 else 10 * NatValue(s[..|s| - 1]) + DigitValue(s[|s| - 1])
  }

  /** "%u" */
  function Digits(n: nat): (s: string)
    ensures s != "" && AllDigits(s) && NatValue(s) == n
  {
    if n < 10 then
      assert [Digit(n)][..0] == "";
      [Digit(n)]
    else
      var s := Digits(n / 10) + [Digit(n % 10)];
      assert s[..|s| - 1] == Digits(n / 10);
      s
  }

  /** "%d" */
  function Decimal(n: int): (s: string)
    ensures s != "" && (s[0] == '-' || IsDigit(s[0]))
    ensures forall i :: 0 <= i < |s| ==> IsNumberChar(s[i])
  {
    if n < 0 then "-" + Digits(-n) else Digits(n)
  }

  lemma {:induction false} DigitsShort(n: nat, k: nat, bound: nat)
    requires n < bound && bound == Pow10(k) && 1 <= k
    ensures |Digits(n)| <= k
    decreases n
  {
    if n >= 10 {
      assert Pow10(1) == 10 * Pow10(0);
      DigitsShort(n / 10, k - 1, Pow10(k - 1));
    }
  }

  function Pow10(k: nat): (r: nat)
    ensures r >= 1
  {
    if k == 0 then 1 else 10 * Pow10(k - 1)
  }

  /** "%d" of an int fits the 26-byte number_buffer with its NUL. */
  lemma DecimalFitsNumberBuffer(n: int)
    requires InIntRange(n)
    ensures |Decimal(n)| <= 11
  {
    assert Pow10(10) == 100_0000_0000 by {
      assert Pow10(5) == 10_0000;
      assert Pow10(10) == 10 * (10 * (10 * (10 * (10 * Pow10(5)))));
    }
    DigitsShort(if n < 0 then -n else n, 10, Pow10(10));
  }

  lemma DecimalInjective(m: int, n: int)
    requires Decimal(m) == Decimal(n)
    ensures m == n
  {
    assert m < 0 <==> Decimal(m)[0] == '-';
    assert n < 0 <==> Decimal(n)[0] == '-';
    if m < 0 {
      assert Decimal(m)[1..] == Digits(-m);
      assert Decimal(n)[1..] == Digits(-n);
    }
  }

  /** What strtod reports: how many characters it used (0 when there is no number) and the value. */
  datatype Conversion = Conversion(consumed: nat, value: real)

  function Scale(x: real, e: int): real
    decreases if e < 0 then -e else e
  {
    if e == 0 then x
    else if e > 0 then Scale(x, e - 1) * 10.0
    else Scale(x, e + 1) / 10.0
  }

  /** The optional exponent of a strtod subject sequence: used only when it has a digit. */
  function Exponent(s: string): (r: (nat, int))
    ensures r.0 <= |s|
  {
    if s == "" || !IsExponentMark(s[0]) then (0, 0)
    else
      var signed := 1 < |s| && IsSign(s[1]);
      var start := if signed then 2 else 1;
      var digits := SpanLength(s[start..], IsDigit);
      if digits == 0 then (0, 0)
      else
        var e: int := NatValue(s[start..][..digits]);
        (start + digits, if signed && s[1] == '-' then -e else e)
  }

  /** strtod on a token of number characters: the longest prefix that is a decimal number. */
  function Strtod(token: string): (r: Conversion)
    ensures r.consumed <= |token|
  {
    var signed := if token != "" && IsSign(token[0]) then 1 else 0;
    var body := token[signed..];
    var whole := SpanLength(body, IsDigit);
    var point := whole < |body| && body[whole] == '.';
    var fraction := if point then SpanLength(body[whole + 1..], IsDigit) else 0;
    if whole + fraction == 0 then Conversion(0, 0.0)
    else
      var mantissaLength := if point then whole + 1 + fraction else whole;
      var digits := body[..whole] + (if point then body[whole + 1..][..fraction] else "");
      var exponent := Exponent(body[mantissaLength..]);
      var magnitude := Scale(NatValue(digits) as real, exponent.1 - fraction);
      Conversion(signed + mantissaLength + exponent.0,
                 if signed == 1 && token[0] == '-' then -magnitude else magnitude)
  }

  /** strtod reads back exactly what "%d" wrote. */
  lemma StrtodDecimal(n: int)
    ensures Strtod(Decimal(n)) == Conversion(|Decimal(n)|, n as real)
  {
    var s := Decimal(n);
    var digits := Digits(if n < 0 then -n else n);
    var signed := if IsSign(s[0]) then 1 else 0;
    assert s[signed..] == digits;
    SpanLengthIs(digits, IsDigit, |digits|);
    assert digits[..|digits|] + "" == digits;
    assert digits[|digits|..] == "";
  }

  /** parse_number's valueint: truncation toward zero, saturating at the int bounds. */
  function Saturate(d: real): (n: int)
    ensures InIntRange(n)
    ensures forall k: int :: InIntRange(k) && d == k as real ==> n == k
  {
    if d >= INT_MAX as real then INT_MAX
    else if d <= INT_MIN as real then INT_MIN
    else if d >= 0.0 then d.Floor
    else -((-d).Floor)
  }

  /** valueint is the double cut toward zero, and the bound it passes when it does not fit. */
  lemma SaturateTruncates(d: real)
    ensures 0.0 <= d < 2147483647.0 ==> Saturate(d) as real <= d < Saturate(d) as real + 1.0
    ensures -2147483648.0 < d <= 0.0 ==> Saturate(d) as real - 1.0 < d <= Saturate(d) as real
    ensures d >= 2147483647.0 ==> Saturate(d) == 2147483647
    ensures d <= -2147483648.0 ==> Saturate(d) == -2147483648
  {
  }

  lemma DigitTable(d: nat)
    requires d < 10
    ensures Digit(d) == "0123456789"[d] && DigitValue("0123456789"[d]) == d
  {
  }

  /** The text of a number is its decimal expansion, and no number but 0 begins with a 0. */
  lemma {:induction false} DigitsAreDecimal(n: nat)
    ensures Digits(n) == (if n < 10 then [] else Digits(n / 10)) + ["0123456789"[n % 10]]
    ensures n > 0 ==> Digits(n)[0] != '0'
    decreases n
  {
    hide Digit, NatValue;
    DigitTable(n % 10);
    if n >= 10 { DigitsAreDecimal(n / 10); } else if n > 0 { FirstDigit(n); }
  }

  lemma FirstDigit(n: nat)
    requires 0 < n < 10
    ensures "0123456789"[n] != '0'
  {
  }
}
