/** The decimal text of ECMAScript numbers, and the JSON grammar that reads it. */
module JsonNumber {
  import opened Results
  import opened Text

  type Digit = d: int | 0 <= d < 10

  /**
   * A finite number by the decimal that Number::toString chooses for it (section 6.1.6.1.20 of
   * ECMA-262): 0.d1d2...dk times ten to the power point, with d1 and dk not zero. Different
   * numbers have different decimals.
   */
  datatype RawDecimal = Zero | Decimal(digits: seq<Digit>, point: int)

  predicate IsNormal(m: RawDecimal) {
    m.Zero? || (m.digits != [] && m.digits[0] != 0 && m.digits[|m.digits| - 1] != 0)
  }

  type Magnitude = m: RawDecimal | IsNormal(m) witness Zero

  datatype JsNumber = NaN | Infinite(negative: bool) | Finite(negative: bool, magnitude: Magnitude)

  function DigitUnits(digits: seq<Digit>): (t: Text)
    ensures |t| == |digits|
    ensures forall i :: 0 <= i < |digits| ==> t[i] == '0' as int + digits[i]
  {
    seq(|digits|, i requires 0 <= i < |digits| => '0' as int + digits[i])
  }

  function Zeros(n: nat): (digits: seq<Digit>)
    ensures |digits| == n && forall i :: 0 <= i < n ==> digits[i] == 0
  {
    seq(n, i => 0)
  }

  function NatDigits(n: nat): (digits: seq<Digit>)
    ensures |digits| > 0
  {
    if n < 10 then [n] else NatDigits(n / 10) + [n % 10]
  }

  function DigitsValue(digits: seq<Digit>): nat {
    if digits == [] then 0 else 10 * DigitsValue(digits[..|digits| - 1]) + digits[|digits| - 1]
  }

  lemma {:induction false} NatDigitsValue(n: nat)
    ensures DigitsValue(NatDigits(n)) == n
  {
    if n >= 10 {
      NatDigitsValue(n / 10);
      var ds := NatDigits(n);
      assert ds[..|ds| - 1] == NatDigits(n / 10);
    } else {
      assert DigitsValue([n]) == 10 * DigitsValue([]) + n;
    }
  }

  function ExponentText(e: int): Text {
    [if e < 0 then '-' as int else '+' as int] + DigitUnits(NatDigits(if e < 0 then -e else e))
  }

  /** Number::toString of a positive number, by its four layouts. */
  function MagnitudeText(m: Magnitude): Text
  {
    if m.Zero? then ['0' as int]
    else
      var k, n := |m.digits|, m.point;
      if k <= n <= 21 then DigitUnits(m.digits + Zeros(n - k))
      else if 0 < n <= 21 then DigitUnits(m.digits[..n]) + ['.' as int] + DigitUnits(m.digits[n..])
      else if -6 < n <= 0 then ['0' as int, '.' as int] + DigitUnits(Zeros(-n) + m.digits)
      else if k == 1 then DigitUnits(m.digits) + ['e' as int] + ExponentText(n - 1)
      else DigitUnits(m.digits[..1]) + ['.' as int] + DigitUnits(m.digits[1..]) + ['e' as int] + ExponentText(n - 1)
  }

  /** JSON.stringify of a finite number; both zeros print as 0. */
  function NumberText(n: JsNumber): Text
    requires n.Finite?
  {
    (if n.negative && !n.magnitude.Zero? then ['-' as int] else []) + MagnitudeText(n.magnitude)
  }

  /* ---- Reading ---- */

  predicate IsDigitUnit(u: Unit) {
    '0' as int <= u <= '9' as int
  }

  /** The longest run of digits at the start of s. */
  function TakeDigits(s: Text): (r: (seq<Digit>, Text))
    ensures |r.0| + |r.1| == |s|
  {
    if s == [] || !IsDigitUnit(s[0]) then ([], s)
    else
      var (ds, rest) := TakeDigits(s[1..]);
      ([s[0] - '0' as int] + ds, rest)
  }

  function StripLeading(digits: seq<Digit>): seq<Digit> {
    if digits == [] || digits[0] != 0 then digits else StripLeading(digits[1..])
  }

  function StripTrailing(digits: seq<Digit>): seq<Digit> {
    if digits == [] || digits[|digits| - 1] != 0 then digits else StripTrailing(digits[..|digits| - 1])
  }

  lemma {:induction false} StripTrailingFirst(digits: seq<Digit>)
    requires digits != [] && digits[0] != 0
    ensures var r := StripTrailing(digits); r != [] && r[0] == digits[0] && r[|r| - 1] != 0
  {
    if digits[|digits| - 1] == 0 {
      StripTrailingFirst(digits[..|digits| - 1]);
    }
  }

  lemma {:induction false} StripLeadingFirst(digits: seq<Digit>)
    ensures var r := StripLeading(digits); r == [] || r[0] != 0
  {
    if digits != [] && digits[0] == 0 {
      StripLeadingFirst(digits[1..]);
    }
  }

  /** The decimal 0.digits times ten to the power point, in normal form. */
  function Normalised(digits: seq<Digit>, point: int): (m: Magnitude)
  {
    var stripped := StripLeading(digits);
    StripLeadingFirst(digits);
    if stripped == [] then Zero
    else
      StripTrailingFirst(stripped);
      Decimal(StripTrailing(stripped), point - (|digits| - |stripped|))
  }

  /** The fraction digits after an optional point; None where the grammar wants a digit. */
  function ReadFraction(s: Text): (r: Option<(seq<Digit>, Text)>)
    ensures r.Some? ==> |r.value.1| <= |s|
  {
    if s == [] || s[0] != '.' as int then Some(([], s))
    else
      var (ds, rest) := TakeDigits(s[1..]);
      if ds == [] then None else Some((ds, rest))
  }

  function ReadExponent(s: Text): (r: Option<(int, Text)>)
    ensures r.Some? ==> |r.value.1| <= |s|
  {
    if s == [] || (s[0] != 'e' as int && s[0] != 'E' as int) then Some((0, s))
    else
      var signed := |s| > 1 && (s[1] == '+' as int || s[1] == '-' as int);
      var (ds, rest) := TakeDigits(if signed then s[2..] else s[1..]);
      var e: int := DigitsValue(ds);
      if ds == [] then None else Some((if signed && s[1] == '-' as int then -e else e, rest))
  }

  /** A number without its sign. */
  function ReadMagnitude(s: Text): (r: Option<(Magnitude, Text)>)
    ensures r.Some? ==> |r.value.1| < |s|
  {
    var (whole, afterWhole) := TakeDigits(s);
    if whole == [] || (whole[0] == 0 && |whole| > 1) then None
    else match ReadFraction(afterWhole)
      case None => None
      case Some((fraction, afterFraction)) =>
        match ReadExponent(afterFraction)
        case None => None
        case Some((exponent, rest)) => Some((Normalised(whole + fraction, |whole| + exponent), rest))
  }

  /** A number of the JSON grammar (section 6 of RFC 8259) at the start of s, read exactly. */
  function ReadNumber(s: Text): (r: Option<(JsNumber, Text)>)
    ensures r.Some? ==> |r.value.1| < |s| && r.value.0.Finite?
  {
    var negative := s != [] && s[0] == '-' as int;
    match ReadMagnitude(if negative then s[1..] else s)
    case None => None
    case Some((m, rest)) => Some((Finite(negative, m), rest))
  }

  /* ---- Reading what was written ---- */

  lemma {:induction false} TakeDigitsBack(digits: seq<Digit>, rest: Text)
    requires rest == [] || !IsDigitUnit(rest[0])
    ensures TakeDigits(DigitUnits(digits) + rest) == (digits, rest)
  {
    var s := DigitUnits(digits) + rest;
    if digits == [] {
      assert s == rest;
    } else {
      assert s[1..] == DigitUnits(digits[1..]) + rest;
      TakeDigitsBack(digits[1..], rest);
      assert digits == [digits[0]] + digits[1..];
    }
  }

  lemma {:induction false} StripZeros(n: nat, digits: seq<Digit>)
    requires digits != [] && digits[0] != 0
    ensures StripLeading(Zeros(n) + digits) == digits
  {
    if n > 0 {
      assert (Zeros(n) + digits)[1..] == Zeros(n - 1) + digits;
      StripZeros(n - 1, digits);
    } else {
      assert Zeros(0) + digits == digits;
    }
  }

  lemma {:induction false} StripTrailingZeros(digits: seq<Digit>, n: nat)
    requires digits != [] && digits[|digits| - 1] != 0
    ensures StripTrailing(digits + Zeros(n)) == digits
  {
    if n > 0 {
      assert (digits + Zeros(n))[..|digits| + n - 1] == digits + Zeros(n - 1);
      StripTrailingZeros(digits, n - 1);
    } else {
      assert digits + Zeros(0) == digits;
    }
  }

  lemma NormalisedPadded(m: Magnitude, before: nat, after: nat)
    requires m.Decimal?
    ensures Normalised(Zeros(before) + (m.digits + Zeros(after)), m.point + before) == m
  {
    StripZeros(before, m.digits + Zeros(after));
    StripTrailingZeros(m.digits, after);
  }

  /** What may follow a number for its end to be recognised. */
  predicate EndsNumber(rest: Text) {
    rest == [] || !(IsDigitUnit(rest[0]) || rest[0] == '.' as int || rest[0] == 'e' as int || rest[0] == 'E' as int)
  }

  lemma ReadExponentBack(e: int, rest: Text)
    requires EndsNumber(rest)
    ensures ReadExponent(['e' as int] + ExponentText(e) + rest) == Some((e, rest))
  {
    var s := ['e' as int] + ExponentText(e) + rest;
    var n := if e < 0 then -e else e;
    assert s[2..] == DigitUnits(NatDigits(n)) + rest;
    TakeDigitsBack(NatDigits(n), rest);
    NatDigitsValue(n);
  }

  lemma ReadFractionBack(fraction: seq<Digit>, rest: Text)
    requires fraction != [] && (rest == [] || !IsDigitUnit(rest[0]))
    ensures ReadFraction(['.' as int] + DigitUnits(fraction) + rest) == Some((fraction, rest))
  {
    var s := ['.' as int] + DigitUnits(fraction) + rest;
    assert s[1..] == DigitUnits(fraction) + rest;
    TakeDigitsBack(fraction, rest);
  }

  /** The parts of an unsigned number, as its text and as what reading makes of it. */
  lemma ReadParts(whole: seq<Digit>, fraction: seq<Digit>, exponent: Option<int>, rest: Text)
    requires whole != [] && (whole[0] != 0 || |whole| == 1) && EndsNumber(rest)
    ensures var tail := (if exponent.Some? then ['e' as int] + ExponentText(exponent.value) else []) + rest;
            var point := (if fraction != [] then ['.' as int] + DigitUnits(fraction) else []) + tail;
            var e := if exponent.Some? then exponent.value else 0;
            && TakeDigits(DigitUnits(whole) + point) == (whole, point)
            && ReadFraction(point) == Some((fraction, tail))
            && ReadExponent(tail) == Some((e, rest))
  {
    hide ExponentText, ReadExponent, ReadFraction, TakeDigits;
    var tail := (if exponent.Some? then ['e' as int] + ExponentText(exponent.value) else []) + rest;
    var point := (if fraction != [] then ['.' as int] + DigitUnits(fraction) else []) + tail;
    TakeDigitsBack(whole, point);
    if fraction != [] {
      ReadFractionBack(fraction, tail);
    } else {
      NoFraction(point);
      assert point == tail;
    }
    if exponent.Some? {
      ReadExponentBack(exponent.value, rest);
    } else {
      NoExponent(rest);
      assert tail == rest;
    }
  }

  lemma NoFraction(s: Text)
    requires s == [] || s[0] != '.' as int
    ensures ReadFraction(s) == Some(([], s))
  {
  }

  lemma NoExponent(s: Text)
    requires EndsNumber(s)
    ensures ReadExponent(s) == Some((0, s))
  {
  }

  /** The digits and exponent that the four layouts of MagnitudeText print. */
  function Whole(m: Magnitude): seq<Digit>
  {
    if m.Zero? then [0]
    else
      var k, n := |m.digits|, m.point;
      if k <= n <= 21 then m.digits + Zeros(n - k)
      else if 0 < n <= 21 then m.digits[..n]
      else if -6 < n <= 0 then [0]
      else m.digits[..1]
  }

  function Fraction(m: Magnitude): seq<Digit>
  {
    if m.Zero? then []
    else
      var k, n := |m.digits|, m.point;
      if k <= n <= 21 then []
      else if 0 < n <= 21 then m.digits[n..]
      else if -6 < n <= 0 then Zeros(-n) + m.digits
      else m.digits[1..]
  }

  function Exponent(m: Magnitude): Option<int>
  {
    if m.Zero? || -6 < m.point <= 21 then None else Some(m.point - 1)
  }

  lemma TextOfParts(m: Magnitude, rest: Text)
    ensures var tail := (if Exponent(m).Some? then ['e' as int] + ExponentText(Exponent(m).value) else []) + rest;
            MagnitudeText(m) + rest
              == DigitUnits(Whole(m)) + ((if Fraction(m) != [] then ['.' as int] + DigitUnits(Fraction(m)) else []) + tail)
  {
    hide MagnitudeText, Whole, Fraction, Exponent, ExponentText;
    var x := if Exponent(m).Some? then ['e' as int] + ExponentText(Exponent(m).value) else [];
    if Fraction(m) == [] {
      TextWithoutFraction(m);
      Regroup(DigitUnits(Whole(m)), [], x, rest);
    } else {
      TextWithFraction(m);
      Regroup(DigitUnits(Whole(m)), ['.' as int] + DigitUnits(Fraction(m)), x, rest);
    }
  }

  lemma TextWithoutFraction(m: Magnitude)
    requires Fraction(m) == []
    ensures MagnitudeText(m) == DigitUnits(Whole(m)) + []
              + (if Exponent(m).Some? then ['e' as int] + ExponentText(Exponent(m).value) else [])
  {
    hide ExponentText, DigitUnits;
    ZeroText();
    if Exponent(m).Some? {
      assert m.digits[..1] == m.digits;
    }
  }

  lemma ZeroText()
    ensures DigitUnits([0]) == ['0' as int]
  {
  }

  lemma Regroup(a: Text, b: Text, c: Text, d: Text)
    ensures a + b + c + d == a + (b + (c + d))
  {
  }

  lemma TextWithFraction(m: Magnitude)
    requires Fraction(m) != []
    ensures MagnitudeText(m) == DigitUnits(Whole(m)) + (['.' as int] + DigitUnits(Fraction(m)))
              + (if Exponent(m).Some? then ['e' as int] + ExponentText(Exponent(m).value) else [])
  {
    hide ExponentText, DigitUnits, Zeros;
    ZeroText();
    var whole, point, fraction := DigitUnits(Whole(m)), ['.' as int], DigitUnits(Fraction(m));
    if Exponent(m).Some? {
      assert |m.digits| > 1;
      assert MagnitudeText(m) == whole + point + fraction + ['e' as int] + ExponentText(m.point - 1);
      RegroupExponent(whole, point, fraction, ['e' as int], ExponentText(m.point - 1));
    } else {
      assert MagnitudeText(m) == whole + point + fraction;
      assert whole + point + fraction == whole + (point + fraction) + [];
    }
  }

  lemma RegroupExponent(a: Text, b: Text, c: Text, d: Text, e: Text)
    ensures a + b + c + d + e == a + (b + c) + (d + e)
  {
  }

  lemma PartsNormalised(m: Magnitude)
    ensures Normalised(Whole(m) + Fraction(m), |Whole(m)| + (if Exponent(m).Some? then Exponent(m).value else 0)) == m
    ensures Whole(m) != [] && (Whole(m)[0] != 0 || |Whole(m)| == 1)
  {
    hide StripTrailing, StripLeading, Normalised;
    if m.Zero? {
      NormalisedZero();
      assert Whole(m) + Fraction(m) == [0];
    } else {
      var k, n := |m.digits|, m.point;
      if k <= n <= 21 {
        NormalisedPadded(m, 0, n - k);
        assert Zeros(0) + (m.digits + Zeros(n - k)) == Whole(m) + Fraction(m);
      } else if -6 < n <= 0 {
        NormalisedPadded(m, 1 - n, 0);
        assert Zeros(1 - n) + (m.digits + Zeros(0)) == Whole(m) + Fraction(m);
      } else {
        NormalisedPadded(m, 0, 0);
        assert Zeros(0) + (m.digits + Zeros(0)) == Whole(m) + Fraction(m);
      }
    }
  }

  lemma NormalisedZero()
    ensures Normalised([0], 1) == Zero
  {
    assert StripLeading([0]) == StripLeading([0][1..]);
  }

  lemma ReadMagnitudeBack(m: Magnitude, rest: Text)
    requires EndsNumber(rest)
    ensures ReadMagnitude(MagnitudeText(m) + rest) == Some((m, rest))
  {
    hide MagnitudeText, Whole, Fraction, Exponent, ReadExponent, ReadFraction, TakeDigits, Normalised, ExponentText;
    TextOfParts(m, rest);
    PartsNormalised(m);
    ReadParts(Whole(m), Fraction(m), Exponent(m), rest);
  }

  lemma StartsWithDigit(m: Magnitude)
    ensures MagnitudeText(m) != [] && IsDigitUnit(MagnitudeText(m)[0])
  {
    hide ExponentText;
  }

  /** JSON's grammar reads a printed number as that number, whatever non-numeric text follows. */
  lemma ReadNumberBack(n: JsNumber, rest: Text)
    requires n.Finite? && EndsNumber(rest)
    ensures ReadNumber(NumberText(n) + rest)
         == Some((Finite(n.negative && !n.magnitude.Zero?, n.magnitude), rest))
  {
    hide MagnitudeText, ReadMagnitude;
    var m := n.magnitude;
    ReadMagnitudeBack(m, rest);
    StartsWithDigit(m);
    var s := NumberText(n) + rest;
    if n.negative && !m.Zero? {
      assert s[1..] == MagnitudeText(m) + rest;
    } else {
      assert s == MagnitudeText(m) + rest;
    }
  }

  /* ---- Natural numbers ---- */

  function NatNumber(n: nat): JsNumber {
    Finite(false, Normalised(NatDigits(n), |NatDigits(n)|))
  }

  /** The value of a number that is a natural number; -0 is 0. */
  function NatValue(n: JsNumber): Option<nat> {
    if !n.Finite? then None
    else if n.magnitude.Zero? then Some(0)
    else if n.negative || n.magnitude.point < |n.magnitude.digits| then None
    else Some(DigitsValue(n.magnitude.digits + Zeros(n.magnitude.point - |n.magnitude.digits|)))
  }

  lemma {:induction false} NatDigitsFirst(n: nat)
    requires n > 0
    ensures NatDigits(n)[0] != 0
  {
    if n >= 10 {
      NatDigitsFirst(n / 10);
    }
  }

  lemma {:induction false} StripTrailingPads(digits: seq<Digit>)
    ensures |StripTrailing(digits)| <= |digits|
    ensures StripTrailing(digits) + Zeros(|digits| - |StripTrailing(digits)|) == digits
  {
    if digits != [] && digits[|digits| - 1] == 0 {
      var front := digits[..|digits| - 1];
      StripTrailingPads(front);
      assert digits == front + [0];
      var r := StripTrailing(digits);
      assert r + Zeros(|digits| - |r|) == (r + Zeros(|front| - |r|)) + [0];
    } else {
      assert digits + Zeros(0) == digits;
    }
  }

  lemma NatNumberValue(n: nat)
    ensures NatValue(NatNumber(n)) == Some(n)
  {
    var ds := NatDigits(n);
    if n == 0 {
      NormalisedZero();
    } else {
      NatDigitsFirst(n);
      StripTrailingPads(ds);
      StripTrailingFirst(ds);
      NatDigitsValue(n);
    }
  }
}
