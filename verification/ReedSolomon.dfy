/**
 * Polynomials over GF(2^8), highest degree first, and the Reed-Solomon code the QR encoder
 * appends to each block (section 7.5.2 of ISO/IEC 18004:2015).
 */
module ReedSolomon {
  import opened Galois

  type Poly = seq<Octet>

  function Zeros(n: nat): (p: Poly)
    ensures |p| == n && forall j :: 0 <= j < n ==> p[j] == ZERO
  {
    seq(n, _ => ZERO)
  }

  /** The sum of two polynomials of equal length. */
  function Sum(p: Poly, q: Poly): (r: Poly)
    requires |p| == |q|
    ensures |r| == |p| && forall j :: 0 <= j < |r| ==> r[j] == Add(p[j], q[j])
  {
    seq(|p|, j requires 0 <= j < |p| => Add(p[j], q[j]))
  }

  ghost function Scale(p: Poly, c: Octet): (r: Poly)
    ensures |r| == |p| && forall j :: 0 <= j < |r| ==> r[j] == Mul(p[j], c)
  {
    seq(|p|, j requires 0 <= j < |p| => Mul(p[j], c))
  }

  /** The value at x, by Horner's rule. */
  ghost function Eval(p: Poly, x: Octet): Octet {
    if p == [] then ZERO else Add(Mul(Eval(p[..|p| - 1], x), x), p[|p| - 1])
  }

  /** The product of q and g; each coefficient of q adds one shifted multiple of g. */
  ghost function Product(q: Poly, g: Poly): (r: Poly)
    requires |g| >= 1
    ensures |r| == |q| + |g| - 1
  {
    if q == [] then Zeros(|g| - 1)
    else Sum(Product(q[..|q| - 1], g) + [ZERO], Zeros(|q| - 1) + Scale(g, q[|q| - 1]))
  }

  /** The product of g and (x - r). */
  ghost function TimesLinear(g: Poly, r: Octet): (p: Poly)
    ensures |p| == |g| + 1
    ensures g != [] ==> p[0] == g[0]
  {
    MulZero(ZERO, r);
    assert g != [] ==> Add(g[0], ZERO) == g[0];
    Sum(g + [ZERO], Scale([ZERO] + g, r))
  }

  /** The generator polynomial (x - 2^0)(x - 2^1)...(x - 2^(n-1)). */
  ghost function Generator(n: nat): (g: Poly)
    ensures |g| == n + 1 && g[0] == ONE
  {
    if n == 0 then [ONE] else TimesLinear(Generator(n - 1), Alpha(n - 1))
  }

  /** One step of the division register: shift in a coefficient, subtract its multiple of the generator. */
  ghost function Feed(gen: Poly, rem: Poly, b: Octet): (r: Poly)
    requires |rem| >= 1 && |gen| == |rem| + 1
    ensures |r| == |rem|
  {
    Sum(rem[1..] + [ZERO], Scale(gen[1..], Add(b, rem[0])))
  }

  ghost function Remainder(data: Poly, n: nat): (r: Poly)
    requires n >= 1
    ensures |r| == n
  {
    if data == [] then Zeros(n)
    else Feed(Generator(n), Remainder(data[..|data| - 1], n), data[|data| - 1])
  }

  /** The factors the division subtracts, in order. */
  ghost function Quotient(data: Poly, n: nat): (q: Poly)
    requires n >= 1
    ensures |q| == |data|
  {
    if data == [] then []
    else
      var front := data[..|data| - 1];
      Quotient(front, n) + [Add(data[|data| - 1], Remainder(front, n)[0])]
  }

  /* ---- Evaluation is a ring homomorphism ---- */

  lemma EvalAppend(p: Poly, c: Octet, x: Octet)
    ensures Eval(p + [c], x) == Add(Mul(Eval(p, x), x), c)
  {
    hide Add, Mul, Alpha;
    assert (p + [c])[..|p|] == p;
  }

  lemma AddSwap(a: Octet, b: Octet, c: Octet, d: Octet)
    ensures Add(Add(a, b), Add(c, d)) == Add(Add(a, c), Add(b, d))
  {
  }

  lemma {:induction false} EvalSum(p: Poly, q: Poly, x: Octet)
    requires |p| == |q|
    ensures Eval(Sum(p, q), x) == Add(Eval(p, x), Eval(q, x))
  {
    hide Add, Mul, Alpha;
    if p == [] {
      AddUnits(ZERO);
    } else {
      var k := |p| - 1;
      EvalSum(p[..k], q[..k], x);
      assert Sum(p, q)[..k] == Sum(p[..k], q[..k]);
      MulAdd(x, Eval(p[..k], x), Eval(q[..k], x));
      AddSwap(Mul(Eval(p[..k], x), x), Mul(Eval(q[..k], x), x), p[k], q[k]);
    }
  }

  lemma {:induction false} EvalScale(p: Poly, c: Octet, x: Octet)
    ensures Eval(Scale(p, c), x) == Mul(Eval(p, x), c)
  {
    hide Add, Mul, Alpha;
    if p == [] {
      MulZero(ZERO, c);
    } else {
      var k := |p| - 1;
      var e := Eval(p[..k], x);
      EvalScale(p[..k], c, x);
      assert Scale(p, c)[..k] == Scale(p[..k], c);
      assert Mul(Mul(e, c), x) == Mul(Mul(e, x), c) by {
        MulAssoc(e, c, x);
        MulAssoc(e, x, c);
        MulComm(c, x);
      }
      MulAdd(c, Mul(e, x), p[k]);
    }
  }

  lemma {:induction false} EvalLeadingZeros(n: nat, p: Poly, x: Octet)
    ensures Eval(Zeros(n) + p, x) == Eval(p, x)
  {
    hide Add, Mul, Alpha;
    if p == [] {
      assert Zeros(n) + p == Zeros(n);
      if n > 0 {
        EvalLeadingZeros(n - 1, [], x);
        assert Zeros(n - 1) + [] == Zeros(n - 1) == Zeros(n)[..n - 1];
        MulZero(ZERO, x);
        AddUnits(ZERO);
      }
    } else {
      var k := |p| - 1;
      EvalLeadingZeros(n, p[..k], x);
      assert (Zeros(n) + p)[..n + k] == Zeros(n) + p[..k];
    }
  }

  lemma {:induction false} EvalProduct(q: Poly, g: Poly, x: Octet)
    requires |g| >= 1
    ensures Eval(Product(q, g), x) == Mul(Eval(q, x), Eval(g, x))
  {
    hide Add, Mul, Alpha;
    if q == [] {
      EvalLeadingZeros(|g| - 1, [], x);
      assert Zeros(|g| - 1) + [] == Zeros(|g| - 1);
      MulZero(ZERO, Eval(g, x));
    } else {
      var front, c := q[..|q| - 1], q[|q| - 1];
      var e, h := Eval(front, x), Eval(g, x);
      EvalProduct(front, g, x);
      EvalSum(Product(front, g) + [ZERO], Zeros(|front|) + Scale(g, c), x);
      EvalAppend(Product(front, g), ZERO, x);
      AddUnits(Mul(Eval(Product(front, g), x), x));
      EvalLeadingZeros(|front|, Scale(g, c), x);
      EvalScale(g, c, x);
      assert Mul(Mul(e, h), x) == Mul(Mul(e, x), h) by {
        MulAssoc(e, h, x);
        MulAssoc(e, x, h);
        MulComm(h, x);
      }
      MulComm(h, c);
      MulAdd(h, Mul(e, x), c);
    }
  }

  /* ---- The generator's roots, and divisibility ---- */

  lemma EvalTimesLinear(g: Poly, r: Octet, x: Octet)
    ensures Eval(TimesLinear(g, r), x) == Add(Mul(Eval(g, x), x), Mul(Eval(g, x), r))
  {
    hide Add, Mul, Alpha;
    hide Eval;
    EvalSum(g + [ZERO], Scale([ZERO] + g, r), x);
    assert Eval(g + [ZERO], x) == Mul(Eval(g, x), x) by {
      EvalAppend(g, ZERO, x);
      AddUnits(Mul(Eval(g, x), x));
    }
    EvalScale([ZERO] + g, r, x);
    EvalLeadingZeros(1, g, x);
    assert Zeros(1) + g == [ZERO] + g;
  }

  lemma {:induction false} GeneratorRoots(n: nat, i: nat)
    requires i < n
    ensures Eval(Generator(n), Alpha(i)) == ZERO
  {
    hide Add, Mul, Alpha;
    hide Eval, TimesLinear;
    var g := Generator(n - 1);
    var e := Eval(g, Alpha(i));
    assert Eval(Generator(n), Alpha(i)) == Add(Mul(e, Alpha(i)), Mul(e, Alpha(n - 1))) by {
      EvalTimesLinear(g, Alpha(n - 1), Alpha(i));
    }
    if i < n - 1 {
      GeneratorRoots(n - 1, i);
      MulZero(e, Alpha(i));
      MulZero(e, Alpha(n - 1));
      AddUnits(ZERO);
    } else {
      AddUnits(Mul(e, Alpha(i)));
    }
  }

  lemma LeadingCancels(b: Octet, r: Octet)
    ensures Add(r, Mul(ONE, Add(b, r))) == b
  {
    hide Add, Mul, Alpha;
    MulOne(Add(b, r));
    AddComm(b, r);
    AddAssoc(r, r, b);
    AddUnits(r);
    AddUnits(b);
  }

  lemma SumConcat(a: Poly, b: Poly, c: Poly, d: Poly)
    requires |a| == |c| && |b| == |d|
    ensures Sum(a + b, c + d) == Sum(a, c) + Sum(b, d)
  {
    hide Add;
  }

  lemma SumZeros(p: Poly)
    ensures Sum(p, Zeros(|p|)) == p
  {
    hide Add;
    forall j | 0 <= j < |p| ensures Sum(p, Zeros(|p|))[j] == p[j] {
      AddUnits(p[j]);
    }
  }

  /** Feeding b into the register is adding the aligned multiple of the generator that clears its head. */
  lemma FeedIsSubtraction(front: Poly, rem: Poly, b: Octet, gen: Poly)
    requires |rem| >= 1 && |gen| == |rem| + 1 && gen[0] == ONE
    ensures Sum((front + rem) + [ZERO], Zeros(|front|) + Scale(gen, Add(b, rem[0]))) == front + [b] + Feed(gen, rem, b)
  {
    hide Add, Mul, Alpha;
    var f := Add(b, rem[0]);
    var head, tail := [rem[0]], rem[1..] + [ZERO];
    assert (front + rem) + [ZERO] == front + (head + tail);
    assert Scale(gen, f) == [Mul(gen[0], f)] + Scale(gen[1..], f);
    SumConcat(front, head + tail, Zeros(|front|), Scale(gen, f));
    SumZeros(front);
    SumConcat(head, tail, [Mul(gen[0], f)], Scale(gen[1..], f));
    LeadingCancels(b, rem[0]);
    assert Sum(head, [Mul(gen[0], f)]) == [b];
  }

  lemma {:induction false} CodewordIsMultiple(data: Poly, n: nat)
    requires n >= 1
    ensures data + Remainder(data, n) == Product(Quotient(data, n), Generator(n))
  {
    hide Add, Mul, Alpha;
    if data == [] {
      assert Product([], Generator(n)) == Zeros(n);
    } else {
      var k := |data| - 1;
      var front, b, q := data[..k], data[k], Quotient(data, n);
      CodewordIsMultiple(front, n);
      assert q[..k] == Quotient(front, n);
      FeedIsSubtraction(front, Remainder(front, n), b, Generator(n));
      assert front + [b] == data;
    }
  }

  /** Every power 2^0..2^(n-1) is a root of the codeword: all its syndromes vanish. */
  lemma SyndromesVanish(data: Poly, n: nat, i: nat)
    requires i < n
    ensures Eval(data + Remainder(data, n), Alpha(i)) == ZERO
  {
    hide Add, Mul, Alpha;
    CodewordIsMultiple(data, n);
    EvalProduct(Quotient(data, n), Generator(n), Alpha(i));
    GeneratorRoots(n, i);
    MulZero(Eval(Quotient(data, n), Alpha(i)), ZERO);
  }

  /* ---- Minimum distance ---- */

  /** A non-zero coefficient together with its locator. */
  datatype Term = Term(coef: Octet, loc: Octet)

  /** The i-th power of x. */
  ghost function Power(x: Octet, i: nat): Octet {
    if i == 0 then ONE else Mul(Power(x, i - 1), x)
  }

  /** The i-th power sum of a list of terms. */
  ghost function PowerSum(ts: seq<Term>, i: nat): Octet {
    if ts == [] then ZERO
    else Add(PowerSum(ts[..|ts| - 1], i), Mul(ts[|ts| - 1].coef, Power(ts[|ts| - 1].loc, i)))
  }

  ghost predicate DistinctLocators(ts: seq<Term>) {
    forall i, j :: 0 <= i < j < |ts| ==> ts[i].loc != ts[j].loc
  }

  /** The terms with each coefficient multiplied by (locator - y). */
  ghost function Reduced(ts: seq<Term>, y: Octet): (r: seq<Term>)
    ensures |r| == |ts|
    ensures forall j :: 0 <= j < |r| ==> r[j] == Term(Mul(ts[j].coef, Add(ts[j].loc, y)), ts[j].loc)
  {
    seq(|ts|, j requires 0 <= j < |ts| => Term(Mul(ts[j].coef, Add(ts[j].loc, y)), ts[j].loc))
  }

  lemma ReducedTerm(t: Term, y: Octet, i: nat)
    ensures Mul(Mul(t.coef, Add(t.loc, y)), Power(t.loc, i))
         == Add(Mul(t.coef, Power(t.loc, i + 1)), Mul(Mul(t.coef, Power(t.loc, i)), y))
  {
    hide Add, Mul, Alpha;
    var c, x, p := t.coef, t.loc, Power(t.loc, i);
    MulAssoc(c, Add(x, y), p);
    MulAdd(p, x, y);
    MulComm(p, x);
    MulAdd(c, Mul(p, x), Mul(y, p));
    MulComm(y, p);
    MulAssoc(c, p, y);
  }

  lemma {:induction false} PowerSumReduced(ts: seq<Term>, y: Octet, i: nat)
    ensures PowerSum(Reduced(ts, y), i) == Add(PowerSum(ts, i + 1), Mul(PowerSum(ts, i), y))
  {
    hide Add, Mul, Alpha;
    if ts == [] {
      MulZero(ZERO, y);
      AddUnits(ZERO);
    } else {
      var k := |ts| - 1;
      var t := ts[k];
      PowerSumReduced(ts[..k], y, i);
      assert Reduced(ts, y)[..k] == Reduced(ts[..k], y);
      ReducedTerm(t, y, i);
      var a, b := PowerSum(ts[..k], i + 1), PowerSum(ts[..k], i);
      var u, v := Mul(t.coef, Power(t.loc, i + 1)), Mul(t.coef, Power(t.loc, i));
      MulAdd(y, b, v);
      AddSwap(a, Mul(b, y), u, Mul(v, y));
    }
  }

  /** Vandermonde: fewer terms than vanishing power sums leave no non-zero coefficient. */
  lemma {:induction false} FewTermsVanish(ts: seq<Term>, n: nat)
    requires |ts| <= n && DistinctLocators(ts)
    requires forall i :: 0 <= i < n ==> PowerSum(ts, i) == ZERO
    ensures forall j :: 0 <= j < |ts| ==> ts[j].coef == ZERO
    decreases n
  {
    hide Add, Mul, Alpha;
    if ts != [] {
      var k := |ts| - 1;
      var y := ts[k].loc;
      var front := ts[..k];
      forall i | 0 <= i < n - 1 ensures PowerSum(Reduced(front, y), i) == ZERO {
        PowerSumReduced(ts, y, i);
        MulZero(ZERO, y);
        AddUnits(ZERO);
        assert Reduced(ts, y)[..k] == Reduced(front, y);
        LastTermVanishes(ts, y, i);
      }
      FewTermsVanish(Reduced(front, y), n - 1);
      forall j | 0 <= j < k ensures ts[j].coef == ZERO {
        AddZero(ts[j].loc, y);
        MulZero(ts[j].coef, Add(ts[j].loc, y));
      }
      PowerSumOfZeros(front, 0);
      assert PowerSum(ts, 0) == ZERO;
      MulOne(ts[k].coef);
      AddUnits(ts[k].coef);
    }
  }

  lemma LastTermVanishes(ts: seq<Term>, y: Octet, i: nat)
    requires ts != [] && ts[|ts| - 1].loc == y
    ensures PowerSum(Reduced(ts, y), i) == PowerSum(Reduced(ts, y)[..|ts| - 1], i)
  {
    hide Add, Mul, Alpha;
    var t := Reduced(ts, y)[|ts| - 1];
    AddUnits(y);
    MulZero(ts[|ts| - 1].coef, ZERO);
    MulZero(t.coef, Power(t.loc, i));
    AddUnits(PowerSum(Reduced(ts, y)[..|ts| - 1], i));
  }

  lemma {:induction false} PowerSumOfZeros(ts: seq<Term>, i: nat)
    requires forall j :: 0 <= j < |ts| ==> ts[j].coef == ZERO
    ensures PowerSum(ts, i) == ZERO
  {
    hide Add, Mul, Alpha;
    if ts != [] {
      PowerSumOfZeros(ts[..|ts| - 1], i);
      MulZero(ZERO, Power(ts[|ts| - 1].loc, i));
      AddUnits(ZERO);
    }
  }

  /** The number of positions in which two words differ. */
  function Distance<T(==)>(p: seq<T>, q: seq<T>): nat
    requires |p| == |q|
  {
    if p == [] then 0
    else
      var k := |p| - 1;
      Distance(p[..k], q[..k]) + (if p[k] == q[k] then 0 else 1)
  }

  /** Each locator multiplied by 2. */
  function Shifted(ts: seq<Term>): (r: seq<Term>)
    ensures |r| == |ts|
    ensures forall j :: 0 <= j < |r| ==> r[j] == Term(ts[j].coef, XTime(ts[j].loc))
  {
    seq(|ts|, j requires 0 <= j < |ts| => Term(ts[j].coef, XTime(ts[j].loc)))
  }

  /** The non-zero coefficients of p, each located by the power of 2 that is its degree. */
  function Terms(p: Poly): seq<Term> {
    if p == [] then []
    else
      var k := |p| - 1;
      Shifted(Terms(p[..k])) + (if p[k] == ZERO then [] else [Term(p[k], ONE)])
  }

  lemma {:induction false} TermsOfDifference(p: Poly, q: Poly)
    requires |p| == |q|
    ensures |Terms(Sum(p, q))| == Distance(p, q)
  {
    hide Add, XTime;
    if p != [] {
      var k := |p| - 1;
      TermsOfDifference(p[..k], q[..k]);
      assert Sum(p, q)[..k] == Sum(p[..k], q[..k]);
      AddZero(p[k], q[k]);
    }
  }

  lemma {:induction false} TermNonZero(p: Poly, j: nat)
    requires j < |Terms(p)|
    ensures Terms(p)[j].coef != ZERO
  {
    var front := Terms(p[..|p| - 1]);
    if j < |front| {
      TermNonZero(p[..|p| - 1], j);
    }
  }

  ghost predicate IsPowerBelow(x: Octet, n: nat) {
    exists m: nat :: m < n && x == Alpha(m)
  }

  lemma {:induction false} TermsLocators(p: Poly)
    requires |p| <= 255
    ensures DistinctLocators(Terms(p))
    ensures forall j :: 0 <= j < |Terms(p)| ==> IsPowerBelow(Terms(p)[j].loc, |p|)
  {
    hide XTime;
    if p != [] {
      var front := Terms(p[..|p| - 1]);
      TermsLocators(p[..|p| - 1]);
      forall j | 0 <= j < |front|
        ensures IsPowerBelow(XTime(front[j].loc), |p|) && XTime(front[j].loc) != ONE
      {
        var m: nat :| m < |p| - 1 && front[j].loc == Alpha(m);
        AlphaSuccessor(m);
        AlphaOrder(m + 1);
      }
      forall i, j | 0 <= i < j < |front| ensures XTime(front[i].loc) != XTime(front[j].loc) {
        if XTime(front[i].loc) == XTime(front[j].loc) {
          XTimeInjective(front[i].loc, front[j].loc);
        }
      }
      assert ONE == Alpha(0);
      assert IsPowerBelow(ONE, |p|);
    }
  }

  lemma {:induction false} PowerXTime(x: Octet, i: nat)
    ensures Power(XTime(x), i) == Mul(Power(x, i), Alpha(i))
  {
    hide Add, Mul, Alpha, XTime;
    if i == 0 {
      AlphaSuccessor(0);
      MulOne(ONE);
    } else {
      var p, a := Power(x, i - 1), Alpha(i - 1);
      PowerXTime(x, i - 1);
      XTimeIsMul(x);
      XTimeIsMul(a);
      assert Alpha(i) == XTime(a) by {
        AlphaSuccessor(i - 1);
      }
      var two := Alpha(1);
      assert Mul(Mul(p, a), Mul(two, x)) == Mul(Mul(p, x), Mul(two, a)) by {
        MulAssoc(p, a, Mul(two, x));
        MulAssoc(a, two, x);
        MulComm(a, two);
        MulComm(Mul(two, a), x);
        MulAssoc(p, x, Mul(two, a));
      }
    }
  }

  lemma XTimeIsMul(x: Octet)
    ensures XTime(x) == Mul(Alpha(1), x)
  {
    hide Mul, XTime;
    MulAlpha(1, x);
    assert Pow(1, x) == XTime(Pow(0, x));
  }

  lemma {:induction false} PowerSumShifted(ts: seq<Term>, i: nat)
    ensures PowerSum(Shifted(ts), i) == Mul(PowerSum(ts, i), Alpha(i))
  {
    hide Add, Mul, Alpha, XTime;
    if ts == [] {
      MulZero(ZERO, Alpha(i));
    } else {
      var k := |ts| - 1;
      PowerSumShifted(ts[..k], i);
      assert Shifted(ts)[..k] == Shifted(ts[..k]);
      PowerXTime(ts[k].loc, i);
      MulAssoc(ts[k].coef, Power(ts[k].loc, i), Alpha(i));
      MulAdd(Alpha(i), PowerSum(ts[..k], i), Mul(ts[k].coef, Power(ts[k].loc, i)));
    }
  }

  lemma {:induction false} PowerOne(i: nat)
    ensures Power(ONE, i) == ONE
  {
    hide Mul;
    if i > 0 {
      PowerOne(i - 1);
      MulOne(ONE);
    }
  }

  /** The syndromes of a word are the power sums of its terms. */
  lemma {:induction false} EvalIsPowerSum(p: Poly, i: nat)
    ensures Eval(p, Alpha(i)) == PowerSum(Terms(p), i)
  {
    hide Add, Mul, Alpha, XTime;
    if p != [] {
      var k := |p| - 1;
      var shifted := Shifted(Terms(p[..k]));
      EvalIsPowerSum(p[..k], i);
      PowerSumShifted(Terms(p[..k]), i);
      if p[k] == ZERO {
        AddUnits(PowerSum(shifted, i));
        assert Terms(p) == shifted;
      } else {
        PowerOne(i);
        MulOne(p[k]);
        assert Terms(p)[..|shifted|] == shifted;
      }
    }
  }

  lemma {:induction false} DistanceZero(p: Poly, q: Poly)
    requires |p| == |q| && Distance(p, q) == 0
    ensures p == q
  {
    if p != [] {
      DistanceZero(p[..|p| - 1], q[..|p| - 1]);
    }
  }

  /** Two different words of at most 255 octets whose first n syndromes agree differ in more than n places. */
  lemma SyndromeDistance(p: Poly, q: Poly, n: nat)
    requires |p| == |q| <= 255 && p != q
    requires forall i :: 0 <= i < n ==> Eval(p, Alpha(i)) == Eval(q, Alpha(i))
    ensures Distance(p, q) > n
  {
    hide Add, Mul, Alpha, Eval, Terms, PowerSum, Distance;
    var e := Sum(p, q);
    TermsOfDifference(p, q);
    if |Terms(e)| <= n {
      TermsLocators(e);
      forall i | 0 <= i < n ensures PowerSum(Terms(e), i) == ZERO {
        EvalIsPowerSum(e, i);
        EvalSum(p, q, Alpha(i));
        AddUnits(Eval(p, Alpha(i)));
      }
      FewTermsVanish(Terms(e), n);
      if Terms(e) != [] {
        TermNonZero(e, 0);
        assert false;
      }
      DistanceZero(p, q);
    }
  }

  /** The code's minimum distance is n + 1: it corrects any n/2 wrong octets of a block. */
  lemma MinimumDistance(data: Poly, other: Poly, n: nat)
    requires n >= 1 && |data| == |other| && |data| + n <= 255
    requires data != other
    ensures Distance(data + Remainder(data, n), other + Remainder(other, n)) >= n + 1
  {
    hide Alpha, Eval;
    var p, q := data + Remainder(data, n), other + Remainder(other, n);
    assert p[..|data|] == data && q[..|data|] == other;
    forall i | 0 <= i < n ensures Eval(p, Alpha(i)) == Eval(q, Alpha(i)) {
      SyndromesVanish(data, n, i);
      SyndromesVanish(other, n, i);
    }
    SyndromeDistance(p, q, n);
  }

  /** Only the computed remainder makes a codeword of its data. */
  lemma RemainderUnique(data: Poly, tail: Poly, n: nat)
    requires n >= 1 && |tail| == n && |data| + n <= 255
    requires forall i :: 0 <= i < n ==> Eval(data + tail, Alpha(i)) == ZERO
    ensures tail == Remainder(data, n)
  {
    hide Alpha, Eval;
    var p, q := data + tail, data + Remainder(data, n);
    if tail != Remainder(data, n) {
      assert p[|data|..] == tail && q[|data|..] == Remainder(data, n);
      forall i | 0 <= i < n ensures Eval(p, Alpha(i)) == Eval(q, Alpha(i)) {
        SyndromesVanish(data, n, i);
      }
      SyndromeDistance(p, q, n);
      DistanceOfTails(data, tail, Remainder(data, n));
    }
  }

  lemma {:induction false} DistanceOfTails(data: Poly, p: Poly, q: Poly)
    requires |p| == |q|
    ensures Distance(data + p, data + q) <= |p|
  {
    if p != [] {
      var k := |p| - 1;
      assert (data + p)[..|data| + k] == data + p[..k];
      assert (data + q)[..|data| + k] == data + q[..k];
      DistanceOfTails(data, p[..k], q[..k]);
    } else {
      DistanceSelf(data);
      assert data + p == data == data + q;
    }
  }

  lemma {:induction false} DistanceSelf<T>(p: seq<T>)
    ensures Distance(p, p) == 0
  {
    if p != [] {
      DistanceSelf(p[..|p| - 1]);
    }
  }
}
