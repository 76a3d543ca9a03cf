/**
  Number texts: std::from_chars reads the longest prefix that is a number and ignores the rest;
  std::to_string writes.
 */
module Numbers {
  import opened Wrappers

  predicate IsDigit(c: char) {
    '0' <= c <= '9'
  }

  function DigitValue(c: char): nat
    requires IsDigit(c)
  {
    (c - '0') as nat
  }

  predicate AllDigits(s: string) {
    forall k | 0 <= k < |s| :: IsDigit(s[k])
  }

  /** Length of the longest prefix of digits. */
  function DigitPrefix(s: string): (n: nat)
    ensures n <= |s| && AllDigits(s[..n]) && (n < |s| ==> !IsDigit(s[n]))
  {
    if s == "" || !IsDigit(s[0]) then 0
    else
      var n := DigitPrefix(s[1..]);
      assert forall k | 0 < k < n + 1 :: s[k] == s[1..][..n][k - 1];
      n + 1
  }

  function Value(digits: string): nat
    requires AllDigits(digits)
  {
    if digits == "" then 0
    else 10 * Value(digits[..|digits| - 1]) + DigitValue(digits[|digits| - 1])
  }

  /** from_chars into an unsigned type with largest value max: no digits or too large is an error. */
  function ParseUint(s: string, max: nat): Option<nat> {
    var n := DigitPrefix(s);
    if n == 0 || Value(s[..n]) > max then None else Some(Value(s[..n]))
  }

  function DigitOf(d: nat): char
    requires d < 10
  {
    '0' + d as char
  }

  /** to_string of an unsigned number. */
  function Decimal(n: nat): (s: string)
    ensures s != "" && AllDigits(s)
  {
    if n < 10 then [DigitOf(n)] else Decimal(n / 10) + [DigitOf(n % 10)]
  }

  /** to_string of a signed number. */
  function SignedDecimal(n: int): string {
    if n < 0 then "-" + Decimal(-n) else Decimal(n)
  }

  lemma {:induction false} ValueOfDecimal(n: nat)
    ensures Value(Decimal(n)) == n
  {
    if n >= 10 {
      ValueOfDecimal(n / 10);
      var s := Decimal(n);
      assert s[..|s| - 1] == Decimal(n / 10);
    }
  }

  /** Text that does not continue a number. */
  predicate EndsNumber(rest: string) {
    rest == "" || !IsDigit(rest[0])
  }

  lemma {:induction false} DigitPrefixOf(digits: string, rest: string)
    requires AllDigits(digits) && EndsNumber(rest)
    ensures DigitPrefix(digits + rest) == |digits|
  {
    if digits == "" {
      assert digits + rest == rest;
    } else {
      assert (digits + rest)[1..] == digits[1..] + rest;
      DigitPrefixOf(digits[1..], rest);
    }
  }

  /** Digits are read as their value, whatever text follows them, unless it is too large. */
  lemma DigitsAreRead(digits: string, rest: string, max: nat)
    requires AllDigits(digits) && digits != "" && EndsNumber(rest)
    ensures ParseUint(digits + rest, max) == if Value(digits) <= max then Some(Value(digits)) else None
  {
    DigitPrefixOf(digits, rest);
    assert (digits + rest)[..|digits|] == digits;
  }

  /** Text without a digit in front is no number. */
  lemma NoDigitNoNumber(s: string, max: nat)
    requires EndsNumber(s)
    ensures ParseUint(s, max) == None
  {
  }

  /** Reading back what to_string wrote, whatever text follows. */
  lemma ParseOfDecimal(n: nat, rest: string, max: nat)
    requires EndsNumber(rest)
    ensures ParseUint(Decimal(n) + rest, max) == if n <= max then Some(n) else None
  {
    DigitsAreRead(Decimal(n), rest, max);
    ValueOfDecimal(n);
  }

  // ---------- Floating point ----------

  /** A double, kept as the exact number its text denotes. */
  datatype Float = Finite(value: real) | Infinity(negative: bool) | NotANumber

  function TwoTo(k: nat): nat {
    if k == 0 then 1 else 2 * TwoTo(k - 1)
  }

  lemma TenMoreBits(k: nat)
    ensures TwoTo(k + 10) == 1024 * TwoTo(k)
  {
    assert TwoTo(k + 2) == 4 * TwoTo(k);
    assert TwoTo(k + 4) == 16 * TwoTo(k);
    assert TwoTo(k + 6) == 64 * TwoTo(k);
    assert TwoTo(k + 8) == 256 * TwoTo(k);
  }

  lemma PowersOfTwo()
    ensures TwoTo(32) == 0x1_0000_0000 && TwoTo(33) == 0x2_0000_0000 && TwoTo(53) == 0x20_0000_0000_0000
  {
    TenMoreBits(2);
    TenMoreBits(12);
    TenMoreBits(22);
    TenMoreBits(33);
    TenMoreBits(43);
  }

  function Pow(base: real, n: nat): real {
    if n == 0 then 1.0 else base * Pow(base, n - 1)
  }

  /** x times ten to the power k. */
  function TimesTen(x: real, k: int): real
    decreases if k < 0 then -k else k
  {
    if k == 0 then x else if k > 0 then 10.0 * TimesTen(x, k - 1) else TimesTen(x, k + 1) / 10.0
  }

  /** x times two to the power k. */
  function TimesTwo(x: real, k: int): real
    decreases if k < 0 then -k else k
  {
    if k == 0 then x else if k > 0 then 2.0 * TimesTwo(x, k - 1) else TimesTwo(x, k + 1) / 2.0
  }

  lemma {:induction false} PowPositive(base: real, n: nat)
    requires base > 0.0
    ensures Pow(base, n) > 0.0
  {
    if n > 0 {
      PowPositive(base, n - 1);
    }
  }

  /** The number is written so large, or so close to zero, that no double but infinity or zero is nearest. */
  predicate OutOfRange(magnitude: real) {
    || magnitude >= TimesTwo(1.0, 1024) - TimesTwo(1.0, 970)
    || 0.0 < magnitude <= TimesTwo(1.0, -1075)
  }

  /** The exponent part at the start of s, or 0 if there is none. */
  function Exponent(s: string): int {
    if |s| < 2 || (s[0] != 'e' && s[0] != 'E') then 0
    else
      var signed := s[1] == '-' || s[1] == '+';
      var digits := if signed then s[2..] else s[1..];
      var n := DigitPrefix(digits);
      if n == 0 then 0
      else
        var e: int := Value(digits[..n]);
        if s[1] == '-' then -e else e
  }

  function Lower(c: char): char {
    if 'A' <= c <= 'Z' then c - 'A' + 'a' else c
  }

  predicate StartsWithWord(s: string, word: string) {
    |word| <= |s| && forall k | 0 <= k < |word| :: Lower(s[k]) == word[k]
  }

  /** The digits before and after the point, times ten to the exponent. */
  function Scaled(whole: string, fraction: string, exponent: int): Option<real>
    requires AllDigits(whole) && AllDigits(fraction)
  {
    AllDigitsConcat(whole, fraction);
    var magnitude := TimesTen(Value(whole + fraction) as real, exponent - |fraction|);
    if OutOfRange(magnitude) then None else Some(magnitude)
  }

  /** An unsigned number: digits with an optional fraction, at least one digit, optional exponent. */
  function ParseMagnitude(s: string): Option<real> {
    var n := DigitPrefix(s);
    var point := n < |s| && s[n] == '.';
    var fraction := if point then s[n + 1..] else "";
    var m := DigitPrefix(fraction);
    if n + m == 0 then None
    else Scaled(s[..n], fraction[..m], Exponent(if point then fraction[m..] else s[n..]))
  }

  lemma AllDigitsConcat(a: string, b: string)
    requires AllDigits(a) && AllDigits(b)
    ensures AllDigits(a + b)
  {
  }

  /** from_chars into a double, in its general format. */
  function ParseFloat(s: string): Option<Float> {
    var negative := s != "" && s[0] == '-';
    var body := if negative then s[1..] else s;
    if StartsWithWord(body, "inf") then Some(Infinity(negative))
    else if StartsWithWord(body, "nan") then Some(NotANumber)
    else
      match ParseMagnitude(body)
      case None => None
      case Some(magnitude) => Some(Finite(if negative then -magnitude else magnitude))
  }
}
