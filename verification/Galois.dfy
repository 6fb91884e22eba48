/**
 * The field GF(2^8) modulo x^8 + x^4 + x^3 + x^2 + 1 (0x11d) behind the QR encoder's
 * EXP and LOG tables. An octet is its eight bits, most significant first.
 */
module Galois {

  datatype Octet = Octet(b7: bool, b6: bool, b5: bool, b4: bool, b3: bool, b2: bool, b1: bool, b0: bool)

  const ZERO := Octet(false, false, false, false, false, false, false, false)
  const ONE := Octet(false, false, false, false, false, false, false, true)

  /** The octet as a number. */
  function Value(o: Octet): (n: nat)
    ensures n < 256
  {
    (if o.b7 then 128 else 0) + (if o.b6 then 64 else 0) + (if o.b5 then 32 else 0) + (if o.b4 then 16 else 0)
    + (if o.b3 then 8 else 0) + (if o.b2 then 4 else 0) + (if o.b1 then 2 else 0) + (if o.b0 then 1 else 0)
  }

  lemma ValueInjective(a: Octet, b: Octet)
    requires Value(a) == Value(b)
    ensures a == b
  {
    assert a.b7 == b.b7;
    assert a.b6 == b.b6;
    assert a.b5 == b.b5;
    assert a.b4 == b.b4;
  }

  /** Bitwise exclusive or, the field's addition. */
  function Add(a: Octet, b: Octet): Octet {
    Octet(a.b7 != b.b7, a.b6 != b.b6, a.b5 != b.b5, a.b4 != b.b4, a.b3 != b.b3, a.b2 != b.b2, a.b1 != b.b1, a.b0 != b.b0)
  }

  lemma AddComm(a: Octet, b: Octet)
    ensures Add(a, b) == Add(b, a)
  {
  }

  lemma AddAssoc(a: Octet, b: Octet, c: Octet)
    ensures Add(Add(a, b), c) == Add(a, Add(b, c))
  {
  }

  lemma AddUnits(a: Octet)
    ensures Add(a, ZERO) == a == Add(ZERO, a)
    ensures Add(a, a) == ZERO
  {
  }

  lemma AddZero(a: Octet, b: Octet)
    ensures Add(a, b) == ZERO <==> a == b
  {
  }

  /** Multiplication by x: shift left, and subtract the modulus when a bit leaves the octet. */
  function XTime(o: Octet): Octet {
    Octet(o.b6, o.b5, o.b4, o.b3 != o.b7, o.b2 != o.b7, o.b1 != o.b7, o.b0, o.b7)
  }

  lemma XTimeAdd(a: Octet, b: Octet)
    ensures XTime(Add(a, b)) == Add(XTime(a), XTime(b))
  {
  }

  lemma XTimeInjective(a: Octet, b: Octet)
    requires XTime(a) == XTime(b)
    ensures a == b
  {
  }

  /** XTime applied k times. */
  function Pow(k: nat, b: Octet): Octet {
    if k == 0 then b else Pow(k - 1, XTime(b))
  }

  lemma {:induction false} PowStep(k: nat, b: Octet)
    ensures Pow(k, XTime(b)) == XTime(Pow(k, b))
  {
    hide XTime;
    if k > 0 {
      PowStep(k - 1, XTime(b));
    }
  }

  /** The k-th power of the generator element 2. */
  function Alpha(k: nat): Octet {
    Pow(k, ONE)
  }

  lemma AlphaSuccessor(i: nat)
    ensures Alpha(0) == ONE
    ensures Alpha(i + 1) == XTime(Alpha(i))
  {
    hide XTime;
    PowStep(i, ONE);
  }

  lemma {:induction false} PowSum(m: nat, n: nat, b: Octet)
    ensures Pow(m + n, b) == Pow(m, Pow(n, b))
  {
    hide XTime;
    if m > 0 {
      PowSum(m - 1, n, XTime(b));
      PowStep(n, b);
    }
  }

  lemma {:induction false} PowAdd(k: nat, a: Octet, b: Octet)
    ensures Pow(k, Add(a, b)) == Add(Pow(k, a), Pow(k, b))
  {
    hide XTime, Add;
    if k > 0 {
      XTimeAdd(a, b);
      PowAdd(k - 1, XTime(a), XTime(b));
    }
  }

  lemma {:induction false} PowInjective(k: nat, a: Octet, b: Octet)
    requires Pow(k, a) == Pow(k, b)
    ensures a == b
  {
    hide XTime;
    if k > 0 {
      PowInjective(k - 1, XTime(a), XTime(b));
      XTimeInjective(a, b);
    }
  }

  lemma {:induction false} PowZero(k: nat)
    ensures Pow(k, ZERO) == ZERO
  {
    if k > 0 {
      PowZero(k - 1);
    }
  }

  lemma AlphaNonZero(k: nat)
    ensures Alpha(k) != ZERO
  {
    PowZero(k);
    if Alpha(k) == ZERO {
      PowInjective(k, ONE, ZERO);
    }
  }

  /** Equal powers of the generator act equally on every power of the generator. */
  lemma PowByAlpha(m: nat, n: nat, k: nat)
    requires Alpha(m) == Alpha(n)
    ensures Pow(m, Alpha(k)) == Pow(n, Alpha(k))
  {
    PowSum(m, k, ONE);
    PowSum(k, m, ONE);
    PowSum(n, k, ONE);
    PowSum(k, n, ONE);
  }

  /* ---- The generator has order exactly 255 ---- */

  lemma AlphaUpTo17()
    ensures Alpha(15) == Octet(false, false, true, false, false, true, true, false)
    ensures Alpha(17) == Octet(true, false, false, true, true, false, false, false)
  {
    PowFour(ONE);
    PowSum(4, 4, ONE);
    PowFour(Alpha(4));
    PowSum(4, 8, ONE);
    PowFour(Alpha(8));
    PowSum(3, 12, ONE);
    XTime17IsPow(ONE);
  }

  /** XTime applied four times, as one linear map over the bits. */
  function XTime4(o: Octet): Octet {
    Octet(
      o.b7 != o.b3, (o.b7 != o.b6) != o.b2, ((o.b7 != o.b6) != o.b5) != o.b1, ((o.b6 != o.b5) != o.b4) != o.b0,
      (o.b7 != o.b5) != o.b4, o.b6 != o.b4, o.b5, o.b4)
  }

  /** XTime applied eight times, as one linear map over the bits. */
  function XTime8(o: Octet): Octet {
    Octet(
      (o.b5 != o.b4) != o.b3, (o.b4 != o.b3) != o.b2, ((o.b7 != o.b3) != o.b2) != o.b1, ((o.b6 != o.b2) != o.b1) != o.b0,
      ((o.b4 != o.b3) != o.b1) != o.b0, (((o.b7 != o.b5) != o.b4) != o.b2) != o.b0, ((o.b7 != o.b6) != o.b5) != o.b1, ((o.b6 != o.b5) != o.b4) != o.b0)
  }

  /** XTime applied seventeen times, as one linear map over the bits. */
  function XTime17(o: Octet): Octet {
    Octet(
      (((o.b7 != o.b6) != o.b5) != o.b3) != o.b0, ((o.b6 != o.b5) != o.b4) != o.b2, ((o.b5 != o.b4) != o.b3) != o.b1, ((o.b4 != o.b3) != o.b2) != o.b0,
      ((((o.b7 != o.b6) != o.b5) != o.b2) != o.b1) != o.b0, ((o.b7 != o.b4) != o.b3) != o.b1, (o.b7 != o.b5) != o.b2, ((o.b7 != o.b6) != o.b4) != o.b1)
  }

  lemma XTimeMaps(o: Octet)
    ensures XTime(XTime(XTime(XTime(o)))) == XTime4(o)
    ensures XTime4(XTime4(o)) == XTime8(o)
    ensures XTime(XTime8(XTime8(o))) == XTime17(o)
  {
  }

  lemma PowFour(o: Octet)
    ensures Pow(4, o) == XTime4(o)
  {
    hide XTime, XTime4, XTime8, XTime17;
    var p := XTime(o);
    var q := XTime(p);
    assert Pow(1, XTime(q)) == XTime(XTime(q));
    assert Pow(2, q) == Pow(1, XTime(q));
    assert Pow(3, p) == Pow(2, q);
    XTimeMaps(o);
  }

  lemma PowEight(o: Octet)
    ensures Pow(8, o) == XTime8(o)
  {
    PowSum(4, 4, o);
    PowFour(o);
    PowFour(Pow(4, o));
    XTimeMaps(o);
  }

  lemma XTime17IsPow(o: Octet)
    ensures Pow(17, o) == XTime17(o)
  {
    PowSum(8, 8, o);
    PowEight(o);
    PowEight(Pow(8, o));
    PowSum(1, 16, o);
    assert Pow(1, Pow(16, o)) == XTime(Pow(16, o));
    XTimeMaps(o);
  }

  lemma AlphaPlus17(k: nat)
    ensures Alpha(k + 17) == XTime17(Alpha(k))
  {
    PowSum(17, k, ONE);
    XTime17IsPow(Alpha(k));
  }

  /** XTime17 applied n times. */
  function Jump(n: nat, o: Octet): Octet {
    if n == 0 then o else Jump(n - 1, XTime17(o))
  }

  lemma {:induction false} AlphaJump(n: nat, k: nat)
    ensures Alpha(k + 17 * n) == Jump(n, Alpha(k))
  {
    if n > 0 {
      AlphaPlus17(k);
      AlphaJump(n - 1, k + 17);
    }
  }

  lemma TwoJumps(n: nat, c: Octet)
    requires n >= 2
    ensures Jump(n, c) == Jump(n - 2, XTime17(XTime17(c)))
  {
    hide XTime17;
    assert Jump(n, c) == Jump(n - 1, XTime17(c));
  }

  lemma JumpsFrom17(c: Octet)
    requires c == Octet(true, false, false, true, true, false, false, false)
    ensures Jump(2, c) == Octet(false, false, false, false, true, false, true, false)
    ensures Jump(4, c) == Octet(true, true, false, true, false, true, true, false)
    ensures Jump(14, c) == ONE
  {
    hide Jump;
    JumpZero();
    TwoJumps(2, c);
    TwoJumps(4, c);
    TwoJumps(14, c);
    var d := Octet(false, false, false, false, true, false, true, false);
    assert XTime17(XTime17(c)) == d;
    TwoJumps(2, d);
    assert XTime17(XTime17(d)) == Octet(true, true, false, true, false, true, true, false);
    TwoJumps(12, d);
    var e := Octet(true, true, false, true, false, true, true, false);
    assert XTime17(XTime17(d)) == e;
    TwoJumps(10, e);
    var f := Octet(true, false, false, true, false, false, true, true);
    assert XTime17(XTime17(e)) == f;
    TwoJumps(8, f);
    var g := Octet(true, false, false, true, false, false, true, false);
    assert XTime17(XTime17(f)) == g;
    TwoJumps(6, g);
    var h := Octet(true, true, false, true, true, true, false, false);
    assert XTime17(XTime17(g)) == h;
    TwoJumps(4, h);
    var i := Octet(false, true, false, false, false, true, false, true);
    assert XTime17(XTime17(h)) == i;
    TwoJumps(2, i);
    var j := Octet(false, false, false, false, false, false, false, true);
    assert XTime17(XTime17(i)) == j;
  }

  lemma JumpZero()
    ensures forall c :: Jump(0, c) == c
  {
  }

  lemma AlphaMilestone(k: nat)
    ensures k == 15 || k == 51 || k == 85 ==> Alpha(k) != ONE
    ensures k == 255 ==> Alpha(k) == ONE
  {
    AlphaUpTo17();
    AlphaJump(2, 17);
    AlphaJump(4, 17);
    AlphaJump(14, 17);
    JumpsFrom17(Alpha(17));
  }

  lemma {:induction false} AlphaMultiple(k: nat, m: nat)
    requires Alpha(k) == ONE
    ensures Alpha(m * k) == ONE
  {
    if m > 0 {
      AlphaMultiple(k, m - 1);
      assert m * k == k + (m - 1) * k;
      PowSum(k, (m - 1) * k, ONE);
    }
  }

  /** If the k-th power is one, so is the (n % k)-th whenever the n-th is. */
  lemma AlphaRemainder(k: nat, n: nat)
    requires k > 0 && Alpha(k) == ONE && Alpha(n) == ONE
    ensures Alpha(n % k) == ONE
  {
    AlphaMultiple(k, n / k);
    assert n == n % k + (n / k) * k;
    PowSum(n % k, (n / k) * k, ONE);
  }

  /** The proper divisors of 255 each divide 15, 51 or 85. */
  lemma DivisorsOf255(k: nat) returns (n: nat, m: nat)
    requires 0 < k < 255 && 255 % k == 0
    ensures (n == 15 || n == 51 || n == 85) && n == m * k
  {
    var q := 255 / k;
    assert q * k == 255;
    if k < 16 {
      assert k == 1 || k == 3 || k == 5 || k == 15;
      n, m := 15, 15 / k;
    } else {
      assert q < 16;
      assert q == 3 || q == 5 || q == 15;
      if q == 5 {
        n, m := 51, 1;
      } else {
        n, m := 85, q / 3;
      }
    }
  }

  lemma {:induction false} AlphaOrder(k: nat)
    requires 0 < k < 255
    ensures Alpha(k) != ONE
  {
    if Alpha(k) == ONE {
      AlphaMilestone(255);
      AlphaRemainder(k, 255);
      if 255 % k == 0 {
        var n, m := DivisorsOf255(k);
        AlphaMultiple(k, m);
        AlphaMilestone(n);
      } else {
        AlphaOrder(255 % k);
      }
    }
  }

  lemma AlphaInjective(i: nat, j: nat)
    requires i < 255 && j < 255 && Alpha(i) == Alpha(j)
    ensures i == j
  {
    if i < j {
      PowSum(i, j - i, ONE);
      PowInjective(i, Alpha(j - i), ONE);
      AlphaOrder(j - i);
    } else if j < i {
      AlphaInjective(j, i);
    }
  }

  /** Powers repeat with period 255. */
  lemma AlphaPeriod(k: nat)
    ensures Alpha(k + 255) == Alpha(k)
  {
    AlphaMilestone(255);
    PowSum(k, 255, ONE);
  }

  /* ---- Every non-zero octet is a power of the generator ---- */

  ghost function PowerValues(n: nat): set<int> {
    set k | 0 <= k < n :: Value(Alpha(k))
  }

  lemma {:induction false} PowerValuesSize(n: nat)
    requires n <= 255
    ensures |PowerValues(n)| == n
  {
    hide Value, Alpha;
    if n > 0 {
      PowerValuesSize(n - 1);
      forall k | 0 <= k < n - 1 ensures Value(Alpha(k)) != Value(Alpha(n - 1)) {
        if Value(Alpha(k)) == Value(Alpha(n - 1)) {
          ValueInjective(Alpha(k), Alpha(n - 1));
          AlphaInjective(k, n - 1);
        }
      }
      assert PowerValues(n) == PowerValues(n - 1) + {Value(Alpha(n - 1))};
    }
  }

  function UpTo(n: nat): (s: set<int>)
    ensures |s| == n && forall i :: i in s <==> 1 <= i <= n
  {
    if n == 0 then {} else UpTo(n - 1) + {n}
  }

  lemma SubsetOfSameSize(s: set<int>, t: set<int>)
    requires s <= t && |s| == |t|
    ensures s == t
  {
    assert t == s + (t - s);
    assert |t| == |s| + |t - s|;
    assert t - s == {};
  }

  lemma PowersCover(v: nat)
    requires 1 <= v <= 255
    ensures v in PowerValues(255)
  {
    hide Value, Alpha;
    PowerValuesSize(255);
    forall k | 0 <= k < 255 ensures 1 <= Value(Alpha(k)) {
      AlphaNonZero(k);
      ValuePositive(Alpha(k));
    }
    SubsetOfSameSize(PowerValues(255), UpTo(|PowerValues(255)|));
  }

  lemma LogExists(a: Octet)
    requires a != ZERO
    ensures exists k: nat :: k < 255 && Alpha(k) == a
  {
    hide Value, Alpha;
    ValuePositive(a);
    PowersCover(Value(a));
    var k: nat :| k < 255 && Value(Alpha(k)) == Value(a);
    ValueInjective(Alpha(k), a);
  }

  lemma ValuePositive(a: Octet)
    ensures Value(a) >= 1 <==> a != ZERO
  {
  }

  /** The discrete logarithm to base 2. */
  ghost function Log(a: Octet): (k: nat)
    requires a != ZERO
    ensures k < 255 && Alpha(k) == a
  {
    LogExists(a);
    var k: nat :| k < 255 && Alpha(k) == a;
    k
  }

  /** Multiplication, by logarithms. */
  ghost function Mul(a: Octet, b: Octet): Octet {
    if a == ZERO || b == ZERO then ZERO else Alpha(Log(a) + Log(b))
  }

  /** Multiplication by a non-zero element is a power of XTime, hence linear. */
  lemma MulIsPow(a: Octet, b: Octet)
    requires a != ZERO
    ensures Mul(a, b) == Pow(Log(a), b)
  {
    hide Pow, Add;
    if b == ZERO {
      PowZero(Log(a));
    } else {
      PowSum(Log(a), Log(b), ONE);
    }
  }

  lemma MulAlpha(m: nat, b: Octet)
    ensures Mul(Alpha(m), b) == Pow(m, b)
  {
    hide Pow, Alpha, Add;
    AlphaNonZero(m);
    MulIsPow(Alpha(m), b);
    if b == ZERO {
      PowZero(m);
      PowZero(Log(Alpha(m)));
    } else {
      PowByAlpha(Log(Alpha(m)), m, Log(b));
    }
  }

  lemma MulComm(a: Octet, b: Octet)
    ensures Mul(a, b) == Mul(b, a)
  {
  }

  lemma MulOne(a: Octet)
    ensures Mul(ONE, a) == a == Mul(a, ONE)
  {
    hide Add;
    MulAlpha(0, a);
    assert Pow(0, a) == a && Alpha(0) == ONE;
    MulComm(ONE, a);
  }

  lemma MulZero(a: Octet, b: Octet)
    ensures Mul(a, b) == ZERO <==> a == ZERO || b == ZERO
  {
    hide Pow, Alpha, Add;
    if a != ZERO && b != ZERO {
      AlphaNonZero(Log(a) + Log(b));
    }
  }

  lemma MulAdd(a: Octet, b: Octet, c: Octet)
    ensures Mul(a, Add(b, c)) == Add(Mul(a, b), Mul(a, c))
    ensures Mul(Add(b, c), a) == Add(Mul(b, a), Mul(c, a))
  {
    hide Pow, Alpha, Add;
    if a != ZERO {
      MulIsPow(a, Add(b, c));
      MulIsPow(a, b);
      MulIsPow(a, c);
      PowAdd(Log(a), b, c);
    } else {
      AddUnits(ZERO);
    }
    MulComm(a, Add(b, c));
    MulComm(a, b);
    MulComm(a, c);
  }

  lemma MulAssoc(a: Octet, b: Octet, c: Octet)
    ensures Mul(Mul(a, b), c) == Mul(a, Mul(b, c))
  {
    hide Pow, Alpha, Add;
    if a == ZERO || b == ZERO {
      assert Mul(a, b) == ZERO;
      MulZero(b, c);
    } else {
      var m, n := Log(a), Log(b);
      assert Mul(a, b) == Alpha(m + n);
      assert Mul(Alpha(m + n), c) == Pow(m + n, c) by { MulAlpha(m + n, c); }
      assert Pow(m + n, c) == Pow(m, Pow(n, c)) by { PowSum(m, n, c); }
      assert Mul(b, c) == Pow(n, c) by { MulIsPow(b, c); }
      MulIsPow(a, Mul(b, c));
    }
  }
}
