/** When a failed job is tried again. */
module RetryDelay {
  import opened Arithmetic
  import opened Text

  function RetryDelaySeconds(attempts: int): nat {
    Min(3600, Power2(Min(Max(1, attempts) - 1, 10)))
  }

  /** One step of 32-bit FNV-1a over a code unit. */
  function HashUnit(hash: bv32, u: Unit): bv32 {
    (hash ^ (u as bv32)) * 16777619
  }

  function Hash(seed: Text): bv32 {
    if seed == [] then 2166136261 else HashUnit(Hash(seed[..|seed| - 1]), seed[|seed| - 1])
  }

  function Seed(jobId: Text, attempts: int): Text {
    jobId + [':' as int] + Lit(Decimal(Max(1, attempts)))
  }

  /** The hash as a share of its largest value. */
  function Share(hash: bv32): real {
    (hash as int) as real / 4294967295.0
  }

  lemma ShareBounds(hash: bv32)
    ensures 0.0 <= Share(hash) <= 1.0
  {
  }

  function Scaled(half: real, share: real): real {
    half * share
  }

  /** Half the base, and a share of the other half. */
  function Jittered(base: real, share: real): real {
    var delay := base / 2.0 + Scaled(base / 2.0, share);
    if delay < 3600.0 then delay else 3600.0
  }

  function Delay(jobId: Text, attempts: int): real {
    Jittered(RetryDelaySeconds(attempts) as real, Share(Hash(Seed(jobId, attempts))))
  }

  method JitteredRetryDelaySeconds(jobId: Text, attempts: int) returns (delay: real)
    ensures delay == Delay(jobId, attempts)
  {
    hide HashUnit, Share, RetryDelaySeconds, Jittered;
    var base := RetryDelaySeconds(attempts);
    var hash: bv32 := 2166136261;
    var seed := Seed(jobId, attempts);
    for index := 0 to |seed|
      invariant hash == Hash(seed[..index])
    {
      assert seed[..index + 1][..index] == seed[..index];
      hash := HashUnit(hash, seed[index]);
    }
    assert seed[..|seed|] == seed;
    delay := Jittered(base as real, Share(hash));
  }

  lemma {:induction false} Power2Grows(n: nat, m: nat)
    requires n <= m
    ensures 1 <= Power2(n) <= Power2(m)
    decreases m
  {
    if n < m {
      Power2Grows(n, m - 1);
    } else if n > 0 {
      Power2Grows(n - 1, m - 1);
    }
  }

  lemma Power2Of10()
    ensures Power2(10) == 1024
  {
    assert Power2(5) == 32;
    assert Power2(10) == 32 * Power2(5);
  }

  /** The base doubles with every failure up to 1024 seconds, far below the cap. */
  lemma BaseDelay(attempts: int)
    ensures RetryDelaySeconds(attempts) == Power2(Min(Max(1, attempts) - 1, 10))
    ensures 1 <= RetryDelaySeconds(attempts) <= 1024
  {
    Power2Of10();
    Power2Grows(Min(Max(1, attempts) - 1, 10), 10);
  }

  /** Equal jitter: between half the base and the base. */
  lemma DelayBounds(jobId: Text, attempts: int)
    ensures RetryDelaySeconds(attempts) as real / 2.0 <= Delay(jobId, attempts) <= RetryDelaySeconds(attempts) as real
  {
    hide Share, Hash, RetryDelaySeconds, Scaled;
    BaseDelay(attempts);
    var base, share := RetryDelaySeconds(attempts) as real, Share(Hash(Seed(jobId, attempts)));
    var half := base / 2.0;
    ShareBounds(Hash(Seed(jobId, attempts)));
    ScaledBounds(half, share);
  }

  lemma ScaledBounds(half: real, share: real)
    requires 0.0 <= half && 0.0 <= share <= 1.0
    ensures 0.0 <= Scaled(half, share) <= half
  {
  }

  /** All delays of the first n failed attempts. */
  function TotalDelay(jobId: Text, n: nat): real {
    if n == 0 then 0.0 else TotalDelay(jobId, n - 1) + Delay(jobId, n)
  }

  function TotalBound(n: nat): nat {
    if n <= 11 then Power2(n) - 1 else 2047 + 1024 * (n - 11)
  }

  lemma BoundStep(n: nat)
    requires n > 0
    ensures TotalBound(n) == TotalBound(n - 1) + RetryDelaySeconds(n)
  {
    BaseDelay(n);
    Power2Of10();
    if n > 11 {
      assert Power2(11) == 2 * Power2(10);
    }
  }

  /** The whole waiting time of n failed attempts, from both sides. */
  lemma {:induction false} TotalDelayBounds(jobId: Text, n: nat)
    ensures TotalBound(n) as real / 2.0 <= TotalDelay(jobId, n) <= TotalBound(n) as real
  {
    hide Delay, TotalBound, RetryDelaySeconds;
    if n == 0 {
      NothingBound();
    } else {
      TotalDelayBounds(jobId, n - 1);
      DelayBounds(jobId, n);
      BoundStep(n);
    }
  }

  lemma NothingBound()
    ensures TotalBound(0) == 0
  {
  }

  /* ---- The exact delay ---- */

  /** One second, doubled with every further attempt until 1024. */
  lemma BaseIs(attempts: int)
    ensures attempts <= 1 ==> RetryDelaySeconds(attempts) == 1
    ensures 1 <= attempts < 11 ==> RetryDelaySeconds(attempts + 1) == 2 * RetryDelaySeconds(attempts)
    ensures attempts >= 11 ==> RetryDelaySeconds(attempts) == 1024
  {
    BaseDelay(attempts);
    BaseDelay(attempts + 1);
    Power2Of10();
  }

  /** The hash of the published 32-bit FNV-1a code for the empty text, "a" and "foobar". */
  lemma HashVectors()
    ensures Hash([]) == 0x811c_9dc5
    ensures Hash([0x61]) == 0xe40c_292c
    ensures Hash([0x66, 0x6f, 0x6f, 0x62, 0x61, 0x72]) == 0xbf9c_f968
  {
    hide HashUnit;
    HashSteps();
    HashNext([], 0x61, [0x61]);
    HashNext([], 0x66, [0x66]);
    HashNext([0x66], 0x6f, [0x66, 0x6f]);
    HashNext([0x66, 0x6f], 0x6f, [0x66, 0x6f, 0x6f]);
    HashNext([0x66, 0x6f, 0x6f], 0x62, [0x66, 0x6f, 0x6f, 0x62]);
    HashNext([0x66, 0x6f, 0x6f, 0x62], 0x61, [0x66, 0x6f, 0x6f, 0x62, 0x61]);
    HashNext([0x66, 0x6f, 0x6f, 0x62, 0x61], 0x72, [0x66, 0x6f, 0x6f, 0x62, 0x61, 0x72]);
  }

  lemma HashNext(t: Text, u: Unit, longer: Text)
    requires longer == t + [u]
    ensures Hash(longer) == HashUnit(Hash(t), u)
  {
    hide HashUnit;
    assert longer[..|t|] == t;
  }

  lemma HashSteps()
    ensures HashUnit(0x811c_9dc5, 0x61) == 0xe40c_292c
    ensures HashUnit(0x811c_9dc5, 0x66) == 0xe30c_2799
    ensures HashUnit(0xe30c_2799, 0x6f) == 0x6222_e842
    ensures HashUnit(0x6222_e842, 0x6f) == 0xa9f3_7ed7
    ensures HashUnit(0xa9f3_7ed7, 0x62) == 0x3f50_76ef
    ensures HashUnit(0x3f50_76ef, 0x61) == 0x39aa_a18a
    ensures HashUnit(0x39aa_a18a, 0x72) == 0xbf9c_f968
  {
  }

  lemma ShareIs(hash: bv32)
    ensures Share(hash) == (hash as int) as real / 4294967295.0
  {
  }

  /** The delay in closed form: half the base, and of the other half the hash's share of 2^32 - 1. */
  lemma DelayIs(jobId: Text, attempts: int)
    requires attempts >= 1
    ensures Delay(jobId, attempts) ==
              RetryDelaySeconds(attempts) as real / 2.0 * (1.0 + Share(Hash(jobId + [0x3a] + Lit(Decimal(attempts)))))
  {
    hide Hash, RetryDelaySeconds, Share, Jittered;
    BaseDelay(attempts);
    var seed := Seed(jobId, attempts);
    assert seed == jobId + [0x3a] + Lit(Decimal(attempts));
    ShareBounds(Hash(seed));
    DelayShape(RetryDelaySeconds(attempts) as real, Share(Hash(seed)));
  }

  lemma DelayShape(base: real, share: real)
    requires 0.0 <= base <= 1024.0 && 0.0 <= share <= 1.0
    ensures Jittered(base, share) == base / 2.0 * (1.0 + share)
  {
    hide Scaled;
    ScaledBounds(base / 2.0, share);
    ScaledIs(base / 2.0, share);
  }

  lemma ScaledIs(half: real, share: real)
    ensures half + Scaled(half, share) == half * (1.0 + share)
  {
  }
}
