/** The encoder's EXP and LOG tables, and its two Reed-Solomon procedures over them. */
module QrTables {
  import opened Galois
  import RS = ReedSolomon

  lemma EarlierPowersDiffer(i: nat)
    requires i < 255
    ensures forall k :: 0 <= k < i ==> Value(Alpha(k)) != Value(Alpha(i))
  {
    hide Value, Alpha;
    forall k | 0 <= k < i ensures Value(Alpha(k)) != Value(Alpha(i)) {
      if Value(Alpha(k)) == Value(Alpha(i)) {
        ValueInjective(Alpha(k), Alpha(i));
        AlphaInjective(k, i);
      }
    }
  }

  /** The coefficients of g times (x - r), as the two running additions leave them. */
  lemma TimesLinearAt(g: RS.Poly, r: Octet, j: nat)
    requires j <= |g|
    ensures RS.TimesLinear(g, r)[j]
         == if j == |g| then (if j == 0 then ZERO else Mul(g[j - 1], r))
            else Add(if j == 0 then ZERO else Mul(g[j - 1], r), g[j])
  {
    hide Add, Mul;
    MulZero(ZERO, r);
    var m := if j == 0 then ZERO else Mul(g[j - 1], r);
    assert Mul(([ZERO] + g)[j], r) == m;
    AddUnits(m);
    AddComm((g + [ZERO])[j], m);
  }

  class Tables {
    const exp: array<Octet>
    const log: array<nat>

    /** exp holds the powers of 2 and log inverts one period of them. */
    ghost predicate Valid()
      reads exp, log
    {
      && exp.Length == 512
      && log.Length == 256
      && (forall i :: 0 <= i < 512 ==> exp[i] == Alpha(i))
      && (forall k :: 0 <= k < 255 ==> log[Value(Alpha(k))] == k)
    }

    constructor ()
      ensures Valid() && fresh(exp) && fresh(log)
    {
      exp := new Octet[512](_ => ZERO);
      log := new nat[256](_ => 0);
      new;
      FillPeriod();
      RepeatPeriod();
    }

    method FillPeriod()
      requires exp.Length == 512 && log.Length == 256
      modifies exp, log
      ensures forall k :: 0 <= k < 255 ==> exp[k] == Alpha(k)
      ensures forall k :: 0 <= k < 255 ==> log[Value(Alpha(k))] == k
    {
      hide Value, Alpha, XTime;
      AlphaSuccessor(0);
      var x := ONE;
      for i := 0 to 255
        invariant x == Alpha(i)
        invariant forall k :: 0 <= k < i ==> exp[k] == Alpha(k)
        invariant forall k :: 0 <= k < i ==> log[Value(Alpha(k))] == k
      {
        EarlierPowersDiffer(i);
        AlphaSuccessor(i);
        exp[i] := x;
        log[Value(x)] := i;
        x := XTime(x);
      }
    }

    method RepeatPeriod()
      requires exp.Length == 512
      requires forall k :: 0 <= k < 255 ==> exp[k] == Alpha(k)
      modifies exp
      ensures forall k :: 0 <= k < 512 ==> exp[k] == Alpha(k)
    {
      hide Alpha;
      for i := 255 to 512
        invariant forall k :: 0 <= k < i ==> exp[k] == Alpha(k)
      {
        AlphaPeriod(i - 255);
        exp[i] := exp[i - 255];
      }
    }

    /** Multiplication by table look-up is multiplication in the field. */
    function Multiply(a: Octet, b: Octet): (c: Octet)
      requires Valid()
      reads exp, log
      ensures c == Mul(a, b)
    {
      if a == ZERO || b == ZERO then ZERO
      else
        assert log[Value(a)] == Log(a) && log[Value(b)] == Log(b);
        exp[log[Value(a)] + log[Value(b)]]
    }

    /** Multiplies out (x - 2^0)...(x - 2^(degree-1)). */
    method Generator(degree: nat) returns (result: array<Octet>)
      requires Valid() && degree <= 512
      ensures fresh(result)
      ensures result[..] == RS.Generator(degree)
    {
      result := new Octet[1](_ => ONE);
      assert result[..] == [ONE];
      for i := 0 to degree
        invariant fresh(result)
        invariant Valid()
        invariant result[..] == RS.Generator(i)
      {
        result := TimesLinear(result, exp[i]);
      }
    }

    method TimesLinear(result: array<Octet>, root: Octet) returns (next: array<Octet>)
      requires Valid()
      ensures fresh(next) && next[..] == RS.TimesLinear(result[..], root)
    {
      hide Add, Mul, RS.TimesLinear;
      ghost var g := result[..];
      next := new Octet[result.Length + 1](_ => ZERO);
      for j := 0 to result.Length
        invariant Valid() && result[..] == g
        invariant forall k :: 0 <= k < j ==> next[k] == RS.TimesLinear(g, root)[k]
        invariant next[j] == if j == 0 then ZERO else Mul(g[j - 1], root)
        invariant forall k :: j < k < next.Length ==> next[k] == ZERO
      {
        next[j] := Add(next[j], result[j]);
        next[j + 1] := Add(next[j + 1], Multiply(result[j], root));
        TimesLinearAt(g, root, j);
        AddUnits(Mul(g[j], root));
      }
      TimesLinearAt(g, root, |g|);
    }

    /** The inner loop of the division: rem[i] ^= gen[i+1] * factor. */
    method SubtractMultiple(start: seq<Octet>, gen: array<Octet>, factor: Octet) returns (rem: seq<Octet>)
      requires Valid() && gen.Length == |start| + 1
      ensures rem == RS.Sum(start, RS.Scale(gen[1..], factor))
    {
      hide Add, Mul;
      rem := start;
      for i := 0 to |start|
        invariant Valid() && |rem| == |start|
        invariant forall k :: 0 <= k < i ==> rem[k] == Add(start[k], Mul(gen[k + 1], factor))
        invariant forall k :: i <= k < |start| ==> rem[k] == start[k]
      {
        rem := rem[i := Add(rem[i], Multiply(gen[i + 1], factor))];
      }
    }

    /** Divides data, shifted up by degree places, by the generator polynomial. */
    method Remainder(data: seq<Octet>, degree: nat) returns (rem: seq<Octet>)
      requires Valid() && 1 <= degree <= 512
      ensures rem == RS.Remainder(data, degree)
    {
      var gen := Generator(degree);
      rem := RS.Zeros(degree);
      for n := 0 to |data|
        invariant Valid() && gen[..] == RS.Generator(degree)
        invariant rem == RS.Remainder(data[..n], degree)
      {
        ghost var before := rem;
        var factor := Add(data[n], rem[0]);
        rem := rem[1..] + [ZERO];
        rem := SubtractMultiple(rem, gen, factor);
        assert gen[..][1..] == gen[1..];
        assert rem == RS.Feed(gen[..], before, data[n]);
        assert data[..n + 1][..n] == data[..n];
      }
      assert data[..|data|] == data;
    }
  }
}
