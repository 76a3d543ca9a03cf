/**
  Which texts std::from_chars reads as which floating-point numbers: the number a text denotes is
  told from its digits, with no reference to how it is computed.
 */
module NumberTexts {
  import opened Wrappers
  import opened Numbers

  // ---------- Texts and what they denote ----------

  datatype ExponentText = NoExponent | ExponentText(mark: char, sign: string, digits: string)

  /** [-] digits [. digits] [(e|E) [+|-] digits], with a digit before or after the point. */
  datatype NumberText = NumberText(negative: bool, whole: string, point: bool, fraction: string,
                                   exponent: ExponentText)

  predicate ProperExponent(x: ExponentText) {
    x.ExponentText? ==>
      && (x.mark == 'e' || x.mark == 'E') && (x.sign == "" || x.sign == "+" || x.sign == "-")
      && x.digits != "" && AllDigits(x.digits)
  }

  predicate Proper(n: NumberText) {
    && AllDigits(n.whole) && AllDigits(n.fraction) && (n.whole != "" || n.fraction != "")
    && (!n.point ==> n.fraction == "") && ProperExponent(n.exponent)
  }

  function WrittenExponent(x: ExponentText): string {
    match x
    case NoExponent => ""
    case ExponentText(mark, sign, digits) => [mark] + sign + digits
  }

  function WrittenPoint(n: NumberText): string {
    if n.point then "." + n.fraction else ""
  }

  function Written(n: NumberText): string {
    (if n.negative then "-" else "") + (n.whole + (WrittenPoint(n) + WrittenExponent(n.exponent)))
  }

  function ExponentValue(x: ExponentText): int
    requires ProperExponent(x)
  {
    match x
    case NoExponent => 0
    case ExponentText(_, sign, digits) => if sign == "-" then 0 - Value(digits) else Value(digits)
  }

  /** The number without its sign: whole digits and decimals, times ten to the exponent. */
  function Magnitude(n: NumberText): real
    requires Proper(n)
  {
    TimesTen(Value(n.whole) as real + Decimals(n.fraction), ExponentValue(n.exponent))
  }

  /** The digits behind a point, over ten to their number. */
  function Decimals(fraction: string): real
    requires AllDigits(fraction)
  {
    TimesTen(Value(fraction) as real, -|fraction|)
  }

  function Signed(negative: bool, x: real): real {
    if negative then -x else x
  }

  /** The number with its sign, or an error when no double is near it. */
  function AsDouble(negative: bool, magnitude: real): Option<Float> {
    if OutOfRange(magnitude) then None else Some(Finite(Signed(negative, magnitude)))
  }

  /** Nothing that starts with rest makes the number any longer. */
  predicate EndsHere(n: NumberText, rest: string) {
    && EndsNumber(rest)
    && (n.exponent.NoExponent? ==> !StartsExponent(rest) && (!n.point ==> rest == "" || rest[0] != '.'))
  }

  /** A mark, perhaps a sign, and a digit. */
  predicate StartsExponent(s: string) {
    && |s| >= 2 && (s[0] == 'e' || s[0] == 'E')
    && (IsDigit(s[1]) || (|s| >= 3 && (s[1] == '+' || s[1] == '-') && IsDigit(s[2])))
  }

  // ---------- The digits as one number ----------

  lemma {:induction false} TimesTenOfSum(x: real, y: real, k: int)
    ensures TimesTen(x + y, k) == TimesTen(x, k) + TimesTen(y, k)
    decreases if k < 0 then -k else k
  {
    if k != 0 {
      TimesTenOfSum(x, y, if k > 0 then k - 1 else k + 1);
    }
  }

  /** One more power of ten, whatever the sign of the exponent. */
  lemma TimesTenNext(x: real, k: int)
    ensures TimesTen(x, k + 1) == 10.0 * TimesTen(x, k)
  {
  }

  lemma {:induction false} TimesTenTwice(x: real, a: int, b: int)
    ensures TimesTen(TimesTen(x, a), b) == TimesTen(x, a + b)
    decreases if b < 0 then -b else b
  {
    if b > 0 {
      TimesTenTwice(x, a, b - 1);
      TimesTenNext(x, a + b - 1);
    } else if b < 0 {
      TimesTenTwice(x, a, b + 1);
      TimesTenNext(x, a + b);
    }
  }

  lemma {:induction false} ValueOfConcat(a: string, b: string)
    requires AllDigits(a) && AllDigits(b) && AllDigits(a + b)
    ensures Value(a + b) as real == TimesTen(Value(a) as real, |b|) + Value(b) as real
    decreases |b|
  {
    if b == "" {
      assert a + b == a;
    } else {
      var n := |b| - 1;
      assert (a + b)[..|a + b| - 1] == a + b[..n] && (a + b)[|a + b| - 1] == b[n];
      ValueOfConcat(a, b[..n]);
    }
  }

  /** Scaling the joined digits down at once is scaling the two parts one after the other. */
  lemma ScaledDenotes(whole: string, fraction: string, e: int)
    requires AllDigits(whole) && AllDigits(fraction) && AllDigits(whole + fraction)
    ensures
      TimesTen(Value(whole + fraction) as real, e - |fraction|) ==
      TimesTen(Value(whole) as real + Decimals(fraction), e)
  {
    var w, f, m := Value(whole) as real, Value(fraction) as real, |fraction|;
    ValueOfConcat(whole, fraction);
    TimesTenTwice(TimesTen(w, m) + f, -m, e);
    TimesTenOfSum(TimesTen(w, m), f, -m);
    TimesTenTwice(w, m, -m);
  }

  /** The same in terms of powers. */
  lemma {:induction false} TimesTenIsPower(x: real, k: nat)
    ensures Pow(10.0, k) > 0.0
    ensures TimesTen(x, k) == x * Pow(10.0, k) && TimesTen(x, 0 - k) == x / Pow(10.0, k)
  {
    PowPositive(10.0, k);
    if k > 0 {
      TimesTenIsPower(x, k - 1);
      OneMorePower(x, Pow(10.0, k - 1), Pow(10.0, k));
    }
  }

  lemma OneMorePower(x: real, p: real, q: real)
    requires p > 0.0 && q == 10.0 * p
    ensures 10.0 * (x * p) == x * q && (x / p) / 10.0 == x / q
  {
  }

  // ---------- The parts are found again ----------

  lemma ExponentRead(x: ExponentText, rest: string)
    requires ProperExponent(x) && EndsNumber(rest) && (x.NoExponent? ==> !StartsExponent(rest))
    ensures Exponent(WrittenExponent(x) + rest) == ExponentValue(x)
  {
    match x
    case NoExponent =>
      assert WrittenExponent(x) + rest == rest;
      NoExponentRead(rest);
    case ExponentText(mark, sign, digits) =>
      var s := WrittenExponent(x) + rest;
      DigitPrefixOf(digits, rest);
      assert (digits + rest)[..|digits|] == digits && (digits + rest)[0] == digits[0];
      if sign == "" {
        assert s[1..] == digits + rest && s[1] == digits[0];
      } else {
        assert s[2..] == digits + rest && s[1] == sign[0];
      }
  }

  lemma NoExponentRead(s: string)
    requires !StartsExponent(s)
    ensures Exponent(s) == 0
  {
  }

  lemma MagnitudeDenoted(n: NumberText)
    requires Proper(n)
    ensures Scaled(n.whole, n.fraction, ExponentValue(n.exponent)) ==
            if OutOfRange(Magnitude(n)) then None else Some(Magnitude(n))
  {
    AllDigitsConcat(n.whole, n.fraction);
    ScaledDenotes(n.whole, n.fraction, ExponentValue(n.exponent));
  }

  /** With a point: whole part, point, fraction, and what comes after. */
  lemma PointedParts(whole: string, fraction: string, tail: string)
    requires AllDigits(whole) && AllDigits(fraction) && (whole != "" || fraction != "") && EndsNumber(tail)
    ensures ParseMagnitude(whole + ("." + fraction + tail)) == Scaled(whole, fraction, Exponent(tail))
  {
    var s := whole + ("." + fraction + tail);
    DigitPrefixOf(whole, "." + fraction + tail);
    DigitPrefixOf(fraction, tail);
    assert s[|whole|] == '.' && s[..|whole|] == whole;
    assert s[|whole| + 1..] == fraction + tail;
    assert (fraction + tail)[..|fraction|] == fraction && (fraction + tail)[|fraction|..] == tail;
  }

  lemma PlainParts(whole: string, tail: string)
    requires AllDigits(whole) && whole != "" && EndsNumber(tail) && (tail == "" || tail[0] != '.')
    ensures ParseMagnitude(whole + tail) == Scaled(whole, "", Exponent(tail))
  {
    var s := whole + tail;
    DigitPrefixOf(whole, tail);
    assert s[..|whole|] == whole && s[|whole|..] == tail;
    assert DigitPrefix("") == 0 && ""[..0] == "";
  }

  /** The text without its sign. */
  function Body(n: NumberText, rest: string): string {
    n.whole + (WrittenPoint(n) + (WrittenExponent(n.exponent) + rest))
  }

  lemma MagnitudeRead(n: NumberText, rest: string)
    requires Proper(n) && EndsHere(n, rest)
    ensures ParseMagnitude(Body(n, rest)) == if OutOfRange(Magnitude(n)) then None else Some(Magnitude(n))
  {
    var tail := WrittenExponent(n.exponent) + rest;
    ExponentRead(n.exponent, rest);
    MagnitudeDenoted(n);
    if n.point {
      PointedParts(n.whole, n.fraction, tail);
    } else {
      assert "" + tail == tail;
      PlainParts(n.whole, tail);
    }
  }

  lemma BodyIsNoWord(n: NumberText, rest: string)
    requires Proper(n)
    ensures
      var s := Body(n, rest);
      s != "" && (IsDigit(s[0]) || s[0] == '.') && !StartsWithWord(s, "inf") && !StartsWithWord(s, "nan")
  {
    var s := Body(n, rest);
    assert s[0] == if n.whole != "" then n.whole[0] else '.';
    assert Lower(s[0]) == s[0] && "inf"[0] == 'i' && "nan"[0] == 'n';
  }

  lemma WrittenIsSignAndBody(n: NumberText, rest: string)
    ensures Written(n) + rest == (if n.negative then "-" else "") + Body(n, rest)
  {
  }

  /**
    A number text, with anything after it that does not make the number longer, is read as the
    number it denotes: its whole digits, plus its decimals over a power of ten, times the power of
    ten of its exponent, negated after a minus. It is an error only when no double is near it.
   */
  lemma NumberIsRead(n: NumberText, rest: string)
    requires Proper(n) && EndsHere(n, rest)
    ensures ParseFloat(Written(n) + rest) == AsDouble(n.negative, Magnitude(n))
  {
    WrittenIsSignAndBody(n, rest);
    MagnitudeRead(n, rest);
    BodyIsNoWord(n, rest);
    ReadBody(n.negative, Body(n, rest));
  }

  lemma ReadBody(negative: bool, body: string)
    requires body != "" && body[0] != '-' && !StartsWithWord(body, "inf") && !StartsWithWord(body, "nan")
    ensures ParseFloat((if negative then "-" else "") + body) ==
            match ParseMagnitude(body)
            case None => None
            case Some(x) => Some(Finite(Signed(negative, x)))
  {
    if negative {
      var s := "-" + body;
      assert s[0] == '-' && s[1..] == body;
    } else {
      assert "" + body == body;
    }
  }

  function FixedPoint(whole: string, fraction: string): NumberText {
    NumberText(false, whole, true, fraction, NoExponent)
  }

  lemma FixedPointWritten(whole: string, fraction: string)
    ensures Written(FixedPoint(whole, fraction)) + "" == whole + "." + fraction
  {
  }

  lemma FixedPointMagnitude(whole: string, fraction: string)
    requires AllDigits(whole) && AllDigits(fraction) && whole != ""
    ensures Magnitude(FixedPoint(whole, fraction)) == Value(whole) as real + Decimals(fraction)
  {
    TimesTenByNothing(Value(whole) as real + Decimals(fraction));
  }

  lemma TimesTenByNothing(x: real)
    ensures TimesTen(x, 0) == x
  {
  }

  /** The common case: digits, a point and more digits. */
  lemma FixedPointIsRead(whole: string, fraction: string)
    requires AllDigits(whole) && AllDigits(fraction) && whole != ""
    ensures ParseFloat(whole + "." + fraction) == AsDouble(false, Magnitude(FixedPoint(whole, fraction)))
    ensures Magnitude(FixedPoint(whole, fraction)) == Value(whole) as real + Decimals(fraction)
  {
    FixedPointProper(whole, fraction);
    NumberIsRead(FixedPoint(whole, fraction), "");
    FixedPointWritten(whole, fraction);
    SameText(Written(FixedPoint(whole, fraction)) + "", whole + "." + fraction);
    FixedPointMagnitude(whole, fraction);
  }

  lemma FixedPointProper(whole: string, fraction: string)
    requires AllDigits(whole) && AllDigits(fraction) && whole != ""
    ensures Proper(FixedPoint(whole, fraction)) && EndsHere(FixedPoint(whole, fraction), "")
  {
  }

  lemma SameText(s: string, t: string)
    requires s == t
    ensures ParseFloat(s) == ParseFloat(t)
  {
  }

  /** A fraction of zeros changes nothing. */
  lemma ZeroFractionIsRead(whole: string, fraction: string, x: real)
    requires AllDigits(whole) && AllDigits(fraction) && whole != ""
    requires Value(fraction) == 0 && x == Value(whole) as real && !OutOfRange(x)
    ensures ParseFloat(whole + "." + fraction) == Some(Finite(x))
  {
    FixedPointIsRead(whole, fraction);
    ZeroFractionMagnitude(whole, fraction);
  }

  lemma ZeroFractionMagnitude(whole: string, fraction: string)
    requires AllDigits(whole) && AllDigits(fraction) && whole != "" && Value(fraction) == 0
    ensures Magnitude(FixedPoint(whole, fraction)) == Value(whole) as real
  {
    FixedPointMagnitude(whole, fraction);
    ZeroTimesTen(|fraction|);
  }

  lemma {:induction false} ZeroTimesTen(k: nat)
    ensures TimesTen(0.0, 0 - k) == 0.0
  {
    if k > 0 {
      ZeroTimesTen(k - 1);
    }
  }

  // ---------- Nothing else is a number ----------

  /** A digit, or a point and a digit, perhaps after a minus. */
  predicate StartsNumber(s: string) {
    var body := if s != "" && s[0] == '-' then s[1..] else s;
    body != "" && (IsDigit(body[0]) || (body[0] == '.' && |body| > 1 && IsDigit(body[1])))
  }

  /** inf or nan in any case, perhaps after a minus. */
  predicate StartsWord(s: string) {
    var body := if s != "" && s[0] == '-' then s[1..] else s;
    StartsWithWord(body, "inf") || StartsWithWord(body, "nan")
  }

  lemma OtherTextIsRejected(s: string)
    requires !StartsNumber(s) && !StartsWord(s)
    ensures ParseFloat(s) == None
  {
  }

  /** Text that starts with a number is one, as long as can be, and what follows it. */
  lemma NumberAtStart(s: string) returns (n: NumberText, rest: string)
    requires StartsNumber(s)
    ensures Proper(n) && EndsHere(n, rest) && s == Written(n) + rest
  {
    var negative := s[0] == '-';
    var body := if negative then s[1..] else s;
    n, rest := BodyAtStart(body);
    n := n.(negative := negative);
    WrittenIsSignAndBody(n, rest);
    assert s == (if negative then "-" else "") + body;
  }

  lemma BodyAtStart(body: string) returns (n: NumberText, rest: string)
    requires body != "" && (IsDigit(body[0]) || (body[0] == '.' && |body| > 1 && IsDigit(body[1])))
    ensures Proper(n) && EndsHere(n, rest) && body == Body(n, rest)
  {
    var w := DigitPrefix(body);
    var point, fraction, tail := PointAtStart(body[w..]);
    var exponent;
    exponent, rest := ExponentAtStart(tail);
    n := NumberText(false, body[..w], point, fraction, exponent);
    assert body == body[..w] + body[w..];
  }

  lemma PointAtStart(s: string) returns (point: bool, fraction: string, tail: string)
    requires EndsNumber(s)
    ensures AllDigits(fraction) && EndsNumber(tail) && (!point ==> fraction == "" && (tail == "" || tail[0] != '.'))
    ensures s == (if point then "." + fraction else "") + tail
    ensures |s| > 1 && s[0] == '.' && IsDigit(s[1]) ==> fraction != ""
  {
    point := s != "" && s[0] == '.';
    if point {
      var f := DigitPrefix(s[1..]);
      fraction, tail := s[1..][..f], s[1..][f..];
      assert s[1..] == fraction + tail;
    } else {
      fraction, tail := "", s;
    }
  }

  lemma SplitBehind(a: string, b: string, d: nat)
    requires d <= |b|
    ensures a + b == (a + b[..d]) + b[d..]
  {
  }

  lemma ExponentAtStart(s: string) returns (x: ExponentText, rest: string)
    requires EndsNumber(s)
    ensures ProperExponent(x) && s == WrittenExponent(x) + rest && EndsNumber(rest)
    ensures x.NoExponent? ==> rest == s && !StartsExponent(s)
  {
    if StartsExponent(s) {
      var signed := s[1] == '-' || s[1] == '+';
      var sign := if signed then [s[1]] else "";
      var after := if signed then s[2..] else s[1..];
      var d := DigitPrefix(after);
      x, rest := ExponentText(s[0], sign, after[..d]), after[d..];
      assert s == [s[0]] + sign + after;
      SplitBehind([s[0]] + sign, after, d);
    } else {
      x, rest := NoExponent, s;
    }
  }

  /** What can be read, exactly: a word, or a number text with a double near the number it denotes. */
  lemma ReadableExactlyWhen(s: string)
    ensures ParseFloat(s).Some? <==>
      || StartsWord(s)
      || exists n, rest :: Proper(n) && EndsHere(n, rest) && s == Written(n) + rest && !OutOfRange(Magnitude(n))
  {
    if StartsWord(s) {
      assert ParseFloat(s).Some?;
    } else if StartsNumber(s) {
      var n, rest := NumberAtStart(s);
      NumberIsRead(n, rest);
      if n', rest' :| Proper(n') && EndsHere(n', rest') && s == Written(n') + rest' && !OutOfRange(Magnitude(n')) {
        NumberIsRead(n', rest');
      }
    } else {
      OtherTextIsRejected(s);
      forall n, rest | Proper(n) && EndsHere(n, rest) && s == Written(n) + rest ensures OutOfRange(Magnitude(n)) {
        NumberIsRead(n, rest);
      }
    }
  }

  // ---------- Which numbers are in range ----------

  // ---------- Which numbers are in range ----------

  /** A positive finite double: at most 53 bits, times a power of two. */
  predicate FiniteDouble(m: nat, e: int) {
    0 < m < 0x20_0000_0000_0000 && -1074 <= e <= 971
  }

  function Distance(x: real, y: real): real {
    if x < y then y - x else x - y
  }

  /** No positive double is nearer than zero. */
  ghost predicate RoundsToZero(x: real) {
    forall m, e | FiniteDouble(m, e) :: x <= Distance(x, TimesTwo(m as real, e))
  }

  /** No finite double is nearer than two to the power 1024, the first number beyond them. */
  ghost predicate RoundsToInfinity(x: real, limit: real) {
    x >= limit || forall m, e | FiniteDouble(m, e) :: limit - x <= Distance(x, TimesTwo(m as real, e))
  }

  lemma {:induction false} TimesTwoGrows(x: real, y: real, k: int)
    requires x <= y
    ensures TimesTwo(x, k) <= TimesTwo(y, k)
    decreases if k < 0 then -k else k
  {
    if k != 0 {
      TimesTwoGrows(x, y, if k > 0 then k - 1 else k + 1);
    }
  }

  lemma {:induction false} TimesTwoOfSum(x: real, y: real, k: int)
    ensures TimesTwo(x + y, k) == TimesTwo(x, k) + TimesTwo(y, k)
    decreases if k < 0 then -k else k
  {
    if k != 0 {
      TimesTwoOfSum(x, y, if k > 0 then k - 1 else k + 1);
    }
  }

  lemma {:induction false} TimesTwoPositive(x: real, k: int)
    requires x > 0.0
    ensures TimesTwo(x, k) > 0.0
    decreases if k < 0 then -k else k
  {
    if k != 0 {
      TimesTwoPositive(x, if k > 0 then k - 1 else k + 1);
    }
  }

  lemma TimesTwoNext(x: real, k: int)
    ensures TimesTwo(x, k + 1) == 2.0 * TimesTwo(x, k)
  {
  }

  lemma {:induction false} TimesTwoClimbs(x: real, j: int, k: int)
    requires x > 0.0 && j <= k
    ensures TimesTwo(x, j) <= TimesTwo(x, k)
    decreases k - j
  {
    if j < k {
      TimesTwoClimbs(x, j, k - 1);
      TimesTwoNext(x, k - 1);
      TimesTwoPositive(x, k - 1);
    }
  }

  lemma {:induction false} TimesTwoTwice(x: real, a: int, b: nat)
    ensures TimesTwo(TimesTwo(x, a), b) == TimesTwo(x, a + b)
  {
    if b > 0 {
      TimesTwoTwice(x, a, b - 1);
      TimesTwoNext(x, a + b - 1);
    }
  }

  /** The largest double is two to the power high + 53 less two to the power high. */
  lemma LargestDouble(high: nat)
    ensures TimesTwo(0x1F_FFFF_FFFF_FFFF as real, high) == TimesTwo(1.0, high + 53) - TimesTwo(1.0, high)
  {
    TimesTwoOfSum(0x1F_FFFF_FFFF_FFFF as real, 1.0, high);
    TimesTwoIsTwoTo(53);
    PowersOfTwo();
    TimesTwoTwice(1.0, 53, high);
  }

  lemma {:induction false} TimesTwoIsTwoTo(k: nat)
    ensures TimesTwo(1.0, k) == TwoTo(k) as real
  {
    if k > 0 {
      TimesTwoIsTwoTo(k - 1);
    }
  }

  lemma DoubleBounds(m: nat, e: int, low: int, high: nat)
    requires 0 < m < 0x20_0000_0000_0000 && low <= e <= high
    ensures TimesTwo(1.0, low) <= TimesTwo(m as real, e) <= TimesTwo(1.0, high + 53) - TimesTwo(1.0, high)
  {
    var largest := 0x1F_FFFF_FFFF_FFFF as real;
    TimesTwoClimbs(1.0, low, e);
    TimesTwoGrows(1.0, m as real, e);
    TimesTwoGrows(m as real, largest, e);
    TimesTwoClimbs(largest, e, high);
    LargestDouble(high);
  }

  lemma NearEnds(x: real, tiny: real, top: real, half: real, d: real)
    requires 2.0 * tiny <= d <= top - 2.0 * half
    ensures 0.0 < x <= tiny ==> x <= Distance(x, d)
    ensures top - half <= x ==> top - x <= Distance(x, d)
  {
  }

  lemma EndsRoundOff(x: real, tiny: real, top: real, half: real)
    requires x > 0.0 && tiny == TimesTwo(1.0, -1075) && top == TimesTwo(1.0, 1024) && half == TimesTwo(1.0, 970)
    ensures x <= tiny ==> RoundsToZero(x)
    ensures top - half <= x ==> RoundsToInfinity(x, top)
  {
    TimesTwoNext(1.0, -1075);
    TimesTwoNext(1.0, 970);
    forall m, e | FiniteDouble(m, e)
      ensures x <= tiny ==> x <= Distance(x, TimesTwo(m as real, e))
      ensures top - half <= x ==> top - x <= Distance(x, TimesTwo(m as real, e))
    {
      DoubleBounds(m, e, -1074, 971);
      NearEnds(x, tiny, top, half, TimesTwo(m as real, e));
    }
  }

  /** A positive number is out of range exactly when it rounds to zero or to infinity. */
  lemma OutOfRangeExactlyWhen(x: real)
    requires x > 0.0
    ensures OutOfRange(x) <==> RoundsToZero(x) || RoundsToInfinity(x, TimesTwo(1.0, 1024))
  {
    var tiny, top, half := TimesTwo(1.0, -1075), TimesTwo(1.0, 1024), TimesTwo(1.0, 970);
    EndsRoundOff(x, tiny, top, half);
    if !OutOfRange(x) {
      SmallestAndLargestAreNearer(x, tiny, top, half);
    }
  }

  lemma SmallestAndLargestAreNearer(x: real, tiny: real, top: real, half: real)
    requires tiny == TimesTwo(1.0, -1075) && top == TimesTwo(1.0, 1024) && half == TimesTwo(1.0, 970)
    requires tiny < x < top - half
    ensures !RoundsToZero(x) && !RoundsToInfinity(x, top)
  {
    TimesTwoPositive(1.0, -1075);
    TimesTwoPositive(1.0, 970);
    TimesTwoNext(1.0, -1075);
    TimesTwoNext(1.0, 970);
    LargestDouble(971);
    assert FiniteDouble(1, -1074) && Distance(x, TimesTwo(1 as real, -1074)) < x;
    assert FiniteDouble(0x1F_FFFF_FFFF_FFFF, 971);
    assert Distance(x, TimesTwo(0x1F_FFFF_FFFF_FFFF as real, 971)) < top - x;
  }

  /** Every finite double is in range. */
  lemma FiniteDoubleIsInRange(m: nat, e: int)
    requires FiniteDouble(m, e)
    ensures !OutOfRange(TimesTwo(m as real, e))
  {
    TimesTwoPositive(1.0, -1075);
    TimesTwoPositive(1.0, 970);
    TimesTwoNext(1.0, -1075);
    TimesTwoNext(1.0, 970);
    DoubleBounds(m, e, -1074, 971);
  }

  /** The words inf and nan are read in any case, with or without a minus. */
  lemma WordsAreRead(negative: bool, body: string)
    requires |body| >= 3
    ensures Lower(body[0]) == 'i' && Lower(body[1]) == 'n' && Lower(body[2]) == 'f' ==>
              ParseFloat((if negative then "-" else "") + body) == Some(Infinity(negative))
    ensures Lower(body[0]) == 'n' && Lower(body[1]) == 'a' && Lower(body[2]) == 'n' ==>
              ParseFloat((if negative then "-" else "") + body) == Some(NotANumber)
  {
    var s := (if negative then "-" else "") + body;
    if negative {
      assert s[0] == '-' && s[1..] == body;
    } else {
      assert s == body;
    }
    assert "inf"[0] == 'i' && "inf"[1] == 'n' && "inf"[2] == 'f';
    assert "nan"[0] == 'n' && "nan"[1] == 'a' && "nan"[2] == 'n';
  }
}
