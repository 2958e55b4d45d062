/** Decimal integers as text, and the value of a scanned JSON number. */
module DecimalText {
  import opened Bytes
  import opened SeqFacts
  import opened JsonSpec

  function Digit(d: nat): char
    requires d < 10
  {
    ('0' as int + d) as char
  }

  function Decimal(n: nat): string {
    if n < 10 then [Digit(n)] else Decimal(n / 10) + [Digit(n % 10)]
  }

  function DecimalInt(i: int): string {
    if i < 0 then "-" + Decimal(-i) else Decimal(i)
  }

  predicate AllDigits(s: string) {
    forall i :: 0 <= i < |s| ==> IsDigit(s[i])
  }

  function DigitsValue(s: string): nat
    requires AllDigits(s)
  {
    if s == "" then 0 else 10 * DigitsValue(s[..|s| - 1]) + (s[|s| - 1] as int - '0' as int)
  }

  lemma {:induction false} DecimalDigits(n: nat)
    ensures Decimal(n) != "" && AllDigits(Decimal(n)) && DigitsValue(Decimal(n)) == n
  {
    if n < 10 {
      assert Decimal(n)[..0] == "";
    } else {
      DecimalDigits(n / 10);
      Snoc(Decimal(n / 10), Digit(n % 10));
    }
  }

  lemma DecimalIsInteger(i: int)
    ensures IsInteger(DecimalInt(i))
  {
    DecimalDigits(if i < 0 then -i else i);
  }

  function Pow10(n: nat): (p: nat)
    ensures p > 0
  {
    if n == 0 then 1 else 10 * Pow10(n - 1)
  }

  function Scale(x: real, negative: bool, exponent: nat): real {
    if negative then x / Pow10(exponent) as real else x * Pow10(exponent) as real
  }

  /** The digits behind a decimal point. */
  function FractionDigits(s: string): string {
    if StartsWith(s, '.') then Run(s[1..]) else ""
  }

  /** What follows the exponent mark. */
  function ExponentText(s: string): string {
    if s != "" && (s[0] == 'e' || s[0] == 'E') then s[1..] else ""
  }

  /** `atof` on a scanned number, without rounding. */
  function NumberValue(text: string): real {
    var afterSign := BehindSign(text);
    var afterDigits := BehindDigits(afterSign);
    var fraction := FractionDigits(afterDigits);
    var exponent := ExponentText(BehindFraction(afterDigits));
    var mantissa := DigitsValue(Run(afterSign)) as real + Scale(DigitsValue(fraction) as real, true, |fraction|);
    var scaled := Scale(mantissa, StartsWith(exponent, '-'), DigitsValue(Run(BehindSign(exponent))));
    if StartsWith(text, '-') then -scaled else scaled
  }

  /** The leading run of digits. */
  function Run(s: string): (r: string)
    ensures AllDigits(r)
  {
    if s != "" && IsDigit(s[0]) then [s[0]] + Run(s[1..]) else ""
  }

  function Truncate(x: real): int {
    if x >= 0.0 then x.Floor else -((-x).Floor)
  }

  /** `(uint32_t)` of a double in range; outside it the conversion is undefined and taken modulo 2^32. */
  function ToUInt32(x: real): u32 {
    Truncate(x) % 0x1_0000_0000
  }

  /** `(int)` of a double in range; outside it likewise reduced to 32 bits. */
  function ToInt32(x: real): int {
    var v := Truncate(x) % 0x1_0000_0000;
    if v >= 0x8000_0000 then v - 0x1_0000_0000 else v
  }

  predicate IsInt32(i: int) {
    -0x8000_0000 <= i < 0x8000_0000
  }

  lemma ScaleByOne(x: real)
    ensures Scale(x, true, 0) == x && Scale(x, false, 0) == x
  {
    assert Pow10(0) == 1;
  }

  /** A number spelled as a decimal integer has that value. */
  lemma IntegerValue(i: int)
    ensures NumberValue(DecimalInt(i)) == i as real
  {
    hide NumberValue, DigitsValue, Run, Decimal;
    var n := if i < 0 then -i else i;
    DecimalDigits(n);
    DropPrefix("-", Decimal(n));
    assert BehindSign(DecimalInt(i)) == Decimal(n);
    AllDigitsRun(Decimal(n));
    PlainNumber(DecimalInt(i), n);
  }

  /** Without fraction and exponent the value is that of the digits. */
  lemma PlainNumber(text: string, n: nat)
    requires
      var digits := BehindSign(text);
      BehindDigits(digits) == "" && Run(digits) == digits && DigitsValue(digits) == n
    ensures NumberValue(text) == if StartsWith(text, '-') then -(n as real) else n as real
  {
    ScaleByOne(0.0);
    ScaleByOne(n as real + 0.0);
    assert Run("") == "" && DigitsValue("") == 0;
  }

  lemma {:induction false} AllDigitsRun(s: string)
    requires AllDigits(s)
    ensures Digits(s) == |s| && Run(s) == s
  {
    if s != "" {
      AllDigitsRun(s[1..]);
    }
  }

  lemma IntegerConversions(i: int)
    ensures 0 <= i < 0x1_0000_0000 ==> ToUInt32(NumberValue(DecimalInt(i))) == i
    ensures IsInt32(i) ==> ToInt32(NumberValue(DecimalInt(i))) == i
  {
    IntegerValue(i);
    TruncateInteger(i, NumberValue(DecimalInt(i)));
  }

  lemma TruncateInteger(i: int, x: real)
    requires x == i as real
    ensures Truncate(x) == i
    ensures 0 <= i < 0x1_0000_0000 ==> ToUInt32(x) == i
    ensures IsInt32(i) ==> ToInt32(x) == i
  {
    assert -x == (-i) as real;
    assert Truncate(x) == i;
    Reduce32(i);
  }

  lemma Reduce32(i: int)
    ensures 0 <= i < 0x1_0000_0000 ==> i % 0x1_0000_0000 == i
    ensures -0x8000_0000 <= i < 0 ==> i % 0x1_0000_0000 == i + 0x1_0000_0000
  {
  }

  predicate IsCSpace(c: char) {
    c == ' ' || 9 <= c as int <= 13
  }

  function SkipCSpace(s: string): string {
    if s != "" && IsCSpace(s[0]) then SkipCSpace(s[1..]) else s
  }

  /** `atoi`: leading white space, a sign, and as many digits as follow. */
  function Atoi(s: string): int {
    var t := SkipCSpace(s);
    var digits := Run(t[SignLength(t)..]);
    if StartsWith(t, '-') then -(DigitsValue(digits) as int) else DigitsValue(digits)
  }
}
