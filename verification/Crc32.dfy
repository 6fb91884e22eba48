/** The bitwise CRC-32 of the evidence archive, and the errors it is certain to detect. */
module Crc32 {
  import opened Bytes

  const POLY: bv32 := 0xedb8_8320

  predicate IsOdd(c: bv32) {
    c & 1 == 1
  }

  /** What the bit that is shifted out adds. */
  function Tap(c: bv32): bv32 {
    if IsOdd(c) then POLY else 0
  }

  function Half(c: bv32): bv32 {
    c >> 1
  }

  /** One bit of the division. */
  function Round(c: bv32): bv32 {
    Half(c) ^ Tap(c)
  }

  function Rounds(c: bv32, n: nat): bv32 {
    if n == 0 then c else Round(Rounds(c, n - 1))
  }

  /** One byte into the register. */
  function Step(c: bv32, byte: bv8): bv32 {
    Rounds(c ^ (byte as bv32), 8)
  }

  /** The register after the bytes. */
  function Run(c: bv32, bytes: Bytes): bv32 {
    if bytes == [] then c else Step(Run(c, bytes[..|bytes| - 1]), bytes[|bytes| - 1])
  }

  function Checksum(bytes: Bytes): bv32 {
    Run(0xffff_ffff, bytes) ^ 0xffff_ffff
  }

  /** A word's four bytes, the lowest first. */
  function Split(w: bv32): (b: Bytes)
    ensures |b| == 4
  {
    [(w & 0xff) as bv8, ((w >> 8) & 0xff) as bv8, ((w >> 16) & 0xff) as bv8, (w >> 24) as bv8]
  }

  /** A word as an unsigned number. */
  function Number(w: bv32): (n: nat)
    ensures n < 0x1_0000_0000
  {
    U32(Split(w), 0)
  }

  method Crc32(bytes: Bytes) returns (r: bv32)
    ensures r == Checksum(bytes)
  {
    hide Round, Rounds, Step;
    var crc: bv32 := 0xffff_ffff;
    for i := 0 to |bytes|
      invariant crc == Run(0xffff_ffff, bytes[..i])
    {
      assert bytes[..i + 1][..i] == bytes[..i];
      crc := StepByte(crc, bytes[i]);
    }
    assert bytes[..|bytes|] == bytes;
    r := crc ^ 0xffff_ffff;
  }

  method StepByte(start: bv32, byte: bv8) returns (crc: bv32)
    ensures crc == Step(start, byte)
  {
    hide Round;
    crc := start ^ (byte as bv32);
    ghost var c := crc;
    for bit := 0 to 8
      invariant crc == Rounds(c, bit)
    {
      crc := Round(crc);
    }
  }

  /* ---- The register's step is linear and invertible ---- */

  function Xor(a: bv32, b: bv32): bv32 {
    a ^ b
  }

  lemma HalfXor(a: bv32, b: bv32)
    ensures Half(Xor(a, b)) == Xor(Half(a), Half(b))
  {
  }

  lemma OddXor(a: bv32, b: bv32)
    ensures IsOdd(Xor(a, b)) == (IsOdd(a) != IsOdd(b))
  {
    LowBitXor(a, b);
    LowBit(a);
    LowBit(b);
  }

  lemma LowBitXor(a: bv32, b: bv32)
    ensures (a ^ b) & 1 == (a & 1) ^ (b & 1)
  {
  }

  lemma LowBit(a: bv32)
    ensures a & 1 == 0 || a & 1 == 1
  {
  }

  lemma XorPoly()
    ensures Xor(POLY, POLY) == 0 && Xor(POLY, 0) == POLY && Xor(0, POLY) == POLY && Xor(0, 0) == 0
  {
  }

  lemma TapXor(a: bv32, b: bv32)
    ensures Tap(Xor(a, b)) == Xor(Tap(a), Tap(b))
  {
    hide IsOdd, Xor;
    OddXor(a, b);
    XorPoly();
  }

  lemma XorComm(a: bv32, b: bv32)
    ensures Xor(a, b) == Xor(b, a)
  {
  }

  lemma XorSwapMiddle(a: bv32, b: bv32, c: bv32, d: bv32)
    ensures Xor(Xor(a, b), Xor(c, d)) == Xor(Xor(a, c), Xor(b, d))
  {
    hide Xor;
    XorAssoc(a, b, Xor(c, d));
    XorAssoc(b, c, d);
    XorComm(b, c);
    XorAssoc(c, b, d);
    XorAssoc(a, c, Xor(b, d));
  }

  lemma RoundIsXor(a: bv32)
    ensures Round(a) == Xor(Half(a), Tap(a))
  {
    hide Half, Tap;
  }

  lemma RoundXor(a: bv32, b: bv32)
    ensures Round(Xor(a, b)) == Xor(Round(a), Round(b))
  {
    hide Half, Tap, Xor, Round;
    RoundIsXor(a);
    RoundIsXor(b);
    RoundIsXor(Xor(a, b));
    HalfXor(a, b);
    TapXor(a, b);
    XorSwapMiddle(Half(a), Half(b), Tap(a), Tap(b));
  }

  lemma RoundInjective(a: bv32, b: bv32)
    requires Round(a) == Round(b)
    ensures a == b
  {
  }

  lemma {:induction false} RoundsXor(a: bv32, b: bv32, n: nat)
    ensures Rounds(Xor(a, b), n) == Xor(Rounds(a, n), Rounds(b, n))
  {
    hide Round, Xor;
    if n > 0 {
      RoundsXor(a, b, n - 1);
      RoundXor(Rounds(a, n - 1), Rounds(b, n - 1));
    }
  }

  lemma {:induction false} RoundsInjective(a: bv32, b: bv32, n: nat)
    requires Rounds(a, n) == Rounds(b, n)
    ensures a == b
  {
    hide Round;
    if n > 0 {
      RoundInjective(Rounds(a, n - 1), Rounds(b, n - 1));
      RoundsInjective(a, b, n - 1);
    }
  }

  /** n bytes' worth of division, without input. */
  function Turn(c: bv32, n: nat): bv32 {
    if n == 0 then c else Rounds(Turn(c, n - 1), 8)
  }

  lemma {:induction false} TurnXor(a: bv32, b: bv32, n: nat)
    ensures Turn(Xor(a, b), n) == Xor(Turn(a, n), Turn(b, n))
  {
    hide Rounds, Xor;
    if n > 0 {
      TurnXor(a, b, n - 1);
      RoundsXor(Turn(a, n - 1), Turn(b, n - 1), 8);
    }
  }

  lemma {:induction false} TurnInjective(a: bv32, b: bv32, n: nat)
    requires Turn(a, n) == Turn(b, n)
    ensures a == b
  {
    hide Rounds;
    if n > 0 {
      RoundsInjective(Turn(a, n - 1), Turn(b, n - 1), 8);
      TurnInjective(a, b, n - 1);
    }
  }

  lemma {:induction false} TurnInner(c: bv32, n: nat)
    requires n > 0
    ensures Turn(c, n) == Turn(Rounds(c, 8), n - 1)
  {
    hide Rounds;
    if n > 1 {
      TurnInner(c, n - 1);
    }
  }

  function Twice(y: bv32): bv32 {
    y << 1
  }

  function Doubled(z: bv32, k: nat): bv32 {
    if k == 0 then z else Twice(Doubled(z, k - 1))
  }

  function Limit(k: nat): bv32 {
    match k
    case 0 => 0x100_0000 case 1 => 0x200_0000 case 2 => 0x400_0000 case 3 => 0x800_0000
    case 4 => 0x1000_0000 case 5 => 0x2000_0000 case 6 => 0x4000_0000 case _ => 0x8000_0000
  }

  /** y leaves room for 7 - k more doublings. */
  predicate Below(y: bv32, k: nat) {
    y < Limit(k)
  }

  lemma BelowTwice(y: bv32, k: nat)
    requires k < 7 && Below(y, k)
    ensures Below(Twice(y), k + 1)
  {
    var limit := Limit(k);
    assert limit <= 0x4000_0000;
    assert Limit(k + 1) == limit << 1;
    assert y << 1 < limit << 1;
  }

  lemma {:induction false} DoubledBelow(z: bv32, k: nat)
    requires Below(z, 0) && k <= 7
    ensures Below(Doubled(z, k), k)
  {
    hide Below, Twice;
    if k > 0 {
      DoubledBelow(z, k - 1);
      BelowTwice(Doubled(z, k - 1), k - 1);
    }
  }

  lemma RoundTwice(y: bv32, k: nat)
    requires Below(y, k)
    ensures Round(Twice(y)) == y
  {
    assert Limit(k) <= 0x8000_0000;
    ShiftedOut(y);
  }

  lemma ShiftedOut(y: bv32)
    requires y < 0x8000_0000
    ensures (y << 1) & 1 == 0 && (y << 1) >> 1 == y && y ^ 0 == y
  {
  }

  lemma RoundHalves(z: bv32, k: nat)
    requires Below(z, 0) && k < 8
    ensures Round(Doubled(z, k + 1)) == Doubled(z, k)
  {
    hide Round, Twice, Below;
    DoubledBelow(z, k);
    RoundTwice(Doubled(z, k), k);
  }

  lemma EightShifts(z: bv32)
    ensures Doubled(z, 0) == z && Doubled(z, 8) == z << 8
  {
    hide Twice;
    assert Doubled(z, 1) == Twice(z);
    assert Doubled(z, 2) == Twice(Twice(z));
    assert Doubled(z, 3) == Twice(Twice(Twice(z)));
    assert Doubled(z, 4) == Twice(Twice(Twice(Twice(z))));
    assert Doubled(z, 5) == Twice(Twice(Twice(Twice(Twice(z)))));
    assert Doubled(z, 6) == Twice(Twice(Twice(Twice(Twice(Twice(z))))));
    assert Doubled(z, 7) == Twice(Twice(Twice(Twice(Twice(Twice(Twice(z)))))));
    TwiceEight(z);
  }

  lemma TwiceEight(z: bv32)
    ensures Twice(Twice(Twice(Twice(Twice(Twice(Twice(Twice(z)))))))) == z << 8
  {
  }

  lemma {:induction false} SlideBy(z: bv32, n: nat)
    requires Below(z, 0) && n <= 8
    ensures Rounds(Doubled(z, 8), n) == Doubled(z, 8 - n)
  {
    hide Round, Doubled, Below;
    if n > 0 {
      SlideBy(z, n - 1);
      RoundHalves(z, 8 - n);
    }
  }

  /** Bits above the lowest eight only move down. */
  lemma Slide(z: bv32)
    requires z < 0x100_0000
    ensures Rounds(z << 8, 8) == z
  {
    hide Rounds, Doubled;
    SlideBy(z, 8);
    EightShifts(z);
  }

  /** Where the n-th byte of a burst lies in the register that the whole burst is added to. */
  function Placed(byte: bv8, n: nat): bv32
    requires n < 4
  {
    if n == 0 then byte as bv32
    else if n == 1 then (byte as bv32) << 8
    else if n == 2 then (byte as bv32) << 16
    else (byte as bv32) << 24
  }

  lemma ShiftsJoin(byte: bv8)
    ensures (byte as bv32) << 16 == ((byte as bv32) << 8) << 8 && (byte as bv32) << 24 == ((byte as bv32) << 16) << 8
    ensures byte as bv32 < 0x100_0000 && (byte as bv32) << 8 < 0x100_0000 && (byte as bv32) << 16 < 0x100_0000
  {
  }

  lemma {:induction false} PlacedTurns(byte: bv8, n: nat)
    requires n < 4
    ensures Turn(Placed(byte, n), n) == byte as bv32
  {
    hide Rounds;
    if n > 0 {
      PlacedNext(byte, n);
      TurnInner(Placed(byte, n), n);
      PlacedTurns(byte, n - 1);
    }
  }

  lemma PlacedNext(byte: bv8, n: nat)
    requires 0 < n < 4
    ensures Rounds(Placed(byte, n), 8) == Placed(byte, n - 1)
  {
    hide Rounds;
    ShiftsJoin(byte);
    Slide(Placed(byte, n - 1));
  }

  /** A burst of at most four bytes as one word. */
  function Word(burst: Bytes): bv32
    requires |burst| <= 4
  {
    if burst == [] then 0
    else Xor(Word(burst[..|burst| - 1]), Placed(burst[|burst| - 1], |burst| - 1))
  }

  lemma XorZero(c: bv32)
    ensures Xor(c, 0) == c
  {
  }

  lemma XorAssoc(a: bv32, b: bv32, c: bv32)
    ensures Xor(Xor(a, b), c) == Xor(a, Xor(b, c))
  {
  }

  lemma XorCancel(a: bv32, b: bv32, c: bv32)
    requires Xor(a, b) == Xor(a, c)
    ensures b == c
  {
  }

  lemma XorCancelRight(a: bv32, b: bv32, c: bv32)
    requires Xor(a, c) == Xor(b, c)
    ensures a == b
  {
  }

  lemma StepIsXor(c: bv32, byte: bv8)
    ensures Step(c, byte) == Rounds(Xor(c, byte as bv32), 8)
  {
    hide Rounds;
  }

  /** Running over a burst is adding it to the register at once. */
  lemma {:induction false} RunBurst(c: bv32, burst: Bytes)
    requires |burst| <= 4
    ensures Run(c, burst) == Turn(Xor(c, Word(burst)), |burst|)
  {
    hide Rounds, Xor, Placed, Step;
    if burst == [] {
      XorZero(c);
    } else {
      var n := |burst| - 1;
      var front, last := burst[..n], burst[n];
      RunBurst(c, front);
      PlacedTurns(last, n);
      TurnXor(Xor(c, Word(front)), Placed(last, n), n);
      XorAssoc(c, Word(front), Placed(last, n));
      StepIsXor(Run(c, front), last);
    }
  }

  lemma {:induction false} WordInjective(u: Bytes, v: Bytes)
    requires |u| == |v| <= 4 && Word(u) == Word(v)
    ensures u == v
    decreases 4 - |u|
  {
    if |u| == 4 {
      WordOfFour(u);
      WordOfFour(v);
      FourBytes(u[0], u[1], u[2], u[3], v[0], v[1], v[2], v[3]);
    } else if |u| > 0 {
      WordGrows(u);
      WordGrows(v);
      WordInjective(u + [0], v + [0]);
      assert (u + [0])[..|u|] == u && (v + [0])[..|v|] == v;
    }
  }

  lemma WordGrows(u: Bytes)
    requires |u| < 4
    ensures Word(u + [0]) == Word(u)
  {
    assert (u + [0])[..|u|] == u;
    XorZero(Word(u));
  }

  lemma WordOfFour(u: Bytes)
    requires |u| == 4
    ensures Word(u) == FourWord(u[0], u[1], u[2], u[3])
  {
    var w := u[..3];
    var x, y := w[..2], w[..2][..1];
    assert y[..0] == [];
    hide Xor;
    assert Word(y) == Xor(0, Placed(u[0], 0));
    assert Word(x) == Xor(Word(y), Placed(u[1], 1));
    assert Word(w) == Xor(Word(x), Placed(u[2], 2));
  }

  function FourWord(a: bv8, b: bv8, c: bv8, d: bv8): bv32 {
    Xor(Xor(Xor(Xor(0, Placed(a, 0)), Placed(b, 1)), Placed(c, 2)), Placed(d, 3))
  }

  function Wide(byte: bv8): bv32 {
    byte as bv32
  }

  function Taken(w: bv32, n: nat): bv32
    requires n < 4
  {
    match n
    case 0 => w & 0xff case 1 => (w >> 8) & 0xff case 2 => (w >> 16) & 0xff case _ => w >> 24
  }

  lemma TakeBytes(a: bv8, b: bv8, c: bv8, d: bv8)
    ensures var w := (((0 ^ (a as bv32)) ^ ((b as bv32) << 8)) ^ ((c as bv32) << 16)) ^ ((d as bv32) << 24);
            && w & 0xff == a as bv32 && (w >> 8) & 0xff == b as bv32
            && (w >> 16) & 0xff == c as bv32 && w >> 24 == d as bv32
  {
  }

  lemma TakenBytes(a: bv8, b: bv8, c: bv8, d: bv8)
    ensures var w := FourWord(a, b, c, d);
            && Taken(w, 0) == Wide(a) && Taken(w, 1) == Wide(b) && Taken(w, 2) == Wide(c) && Taken(w, 3) == Wide(d)
  {
    TakeBytes(a, b, c, d);
  }

  lemma WideInjective(a: bv8, b: bv8)
    requires Wide(a) == Wide(b)
    ensures a == b
  {
  }

  lemma FourBytes(a: bv8, b: bv8, c: bv8, d: bv8, a': bv8, b': bv8, c': bv8, d': bv8)
    requires FourWord(a, b, c, d) == FourWord(a', b', c', d')
    ensures a == a' && b == b' && c == c' && d == d'
  {
    hide FourWord, Taken, Wide;
    TakenBytes(a, b, c, d);
    TakenBytes(a', b', c', d');
    WideInjective(a, a');
    WideInjective(b, b');
    WideInjective(c, c');
    WideInjective(d, d');
  }

  lemma {:induction false} RunAppend(c: bv32, a: Bytes, b: Bytes)
    ensures Run(c, a + b) == Run(Run(c, a), b)
  {
    hide Step;
    if b == [] {
      assert a + b == a;
    } else {
      var n := |b| - 1;
      assert (a + b)[..|a| + n] == a + b[..n];
      RunAppend(c, a, b[..n]);
    }
  }

  /** Equal bytes never merge different registers. */
  lemma {:induction false} RunInjective(c: bv32, d: bv32, bytes: Bytes)
    requires Run(c, bytes) == Run(d, bytes)
    ensures c == d
  {
    hide Step, Xor, Rounds;
    if bytes != [] {
      var n := |bytes| - 1;
      var x, y := Run(c, bytes[..n]), Run(d, bytes[..n]);
      StepIsXor(x, bytes[n]);
      StepIsXor(y, bytes[n]);
      RoundsInjective(Xor(x, bytes[n] as bv32), Xor(y, bytes[n] as bv32), 8);
      XorCancelRight(x, y, bytes[n] as bv32);
      RunInjective(c, d, bytes[..n]);
    }
  }

  /** The CRC detects every change confined to four consecutive bytes. */
  lemma DetectsBursts(before: Bytes, burst: Bytes, changed: Bytes, after: Bytes)
    requires |burst| == |changed| <= 4 && burst != changed
    ensures Checksum(before + burst + after) != Checksum(before + changed + after)
  {
    hide Run, Turn, Word, Xor;
    var start: bv32 := 0xffff_ffff;
    var c := Run(start, before);
    RunAppend(start, before + burst, after);
    RunAppend(start, before + changed, after);
    RunAppend(start, before, burst);
    RunAppend(start, before, changed);
    if Checksum(before + burst + after) == Checksum(before + changed + after) {
      ChecksumInjective(before + burst + after, before + changed + after);
      RunInjective(Run(c, burst), Run(c, changed), after);
      RunBurst(c, burst);
      RunBurst(c, changed);
      TurnInjective(Xor(c, Word(burst)), Xor(c, Word(changed)), |burst|);
      XorCancel(c, Word(burst), Word(changed));
      WordInjective(burst, changed);
      assert false;
    }
  }

  lemma ChecksumInjective(a: Bytes, b: Bytes)
    requires Checksum(a) == Checksum(b)
    ensures Run(0xffff_ffff, a) == Run(0xffff_ffff, b)
  {
    hide Run;
    XorCancelRight(Run(0xffff_ffff, a), Run(0xffff_ffff, b), 0xffff_ffff);
  }

  /* ---- Which code it is ---- */

  /** Bit i of a word, counted from the lowest. */
  predicate BitAt(c: bv32, i: nat)
    decreases i
  {
    if i == 0 then IsOdd(c) else BitAt(Half(c), i - 1)
  }

  /** The register as a polynomial over GF(2), its highest power in the lowest bit: the coefficient of x^e. */
  predicate Coefficient(c: bv32, e: nat)
    requires e < 32
  {
    BitAt(c, 31 - e)
  }

  lemma {:induction false} BitXor(a: bv32, b: bv32, i: nat)
    ensures BitAt(Xor(a, b), i) == (BitAt(a, i) != BitAt(b, i))
    decreases i
  {
    hide IsOdd, Half, Xor;
    if i == 0 {
      OddXor(a, b);
    } else {
      HalfXor(a, b);
      BitXor(Half(a), Half(b), i - 1);
    }
  }

  function Eighth(c: bv32): bv32 {
    c >> 8
  }

  lemma EightHalves(c: bv32)
    ensures Half(Half(Half(Half(Half(Half(Half(Half(c)))))))) == Eighth(c)
  {
  }

  lemma EightUp(c: bv32, i: nat)
    ensures BitAt(c, i + 8) == BitAt(Eighth(c), i)
  {
    hide Half, IsOdd, Eighth;
    EightHalves(c);
    assert BitAt(c, i + 8) == BitAt(Half(c), i + 7);
    assert BitAt(Half(c), i + 7) == BitAt(Half(Half(c)), i + 6);
    assert BitAt(Half(Half(c)), i + 6) == BitAt(Half(Half(Half(c))), i + 5);
    assert BitAt(Half(Half(Half(c))), i + 5) == BitAt(Half(Half(Half(Half(c)))), i + 4);
    assert BitAt(Half(Half(Half(Half(c)))), i + 4) == BitAt(Half(Half(Half(Half(Half(c))))), i + 3);
    assert BitAt(Half(Half(Half(Half(Half(c))))), i + 3) == BitAt(Half(Half(Half(Half(Half(Half(c)))))), i + 2);
    assert BitAt(Half(Half(Half(Half(Half(Half(c)))))), i + 2) == BitAt(Half(Half(Half(Half(Half(Half(Half(c))))))), i + 1);
  }

  lemma NoBits(i: nat)
    ensures !BitAt(0, i)
    decreases i
  {
    assert Half(0) == 0;
    if i > 0 {
      NoBits(i - 1);
    }
  }

  lemma NothingLeft(c: bv32)
    ensures Eighth(Eighth(Eighth(Eighth(c)))) == 0
  {
  }

  /** A word has no bit beyond its 32. */
  lemma BitsEnd(c: bv32)
    ensures !BitAt(c, 32)
  {
    hide BitAt, Eighth;
    EightUp(c, 24);
    EightUp(Eighth(c), 16);
    EightUp(Eighth(Eighth(c)), 8);
    EightUp(Eighth(Eighth(Eighth(c))), 0);
    NothingLeft(c);
    NoBits(0);
  }

  /** The eight bits of a byte, the lowest first. */
  lemma ByteBits(c: bv32)
    ensures BitAt(c, 0) == (c & 1 != 0) && BitAt(c, 1) == (c & 2 != 0) && BitAt(c, 2) == (c & 4 != 0) && BitAt(c, 3) == (c & 8 != 0)
    ensures BitAt(c, 4) == (c & 16 != 0) && BitAt(c, 5) == (c & 32 != 0) && BitAt(c, 6) == (c & 64 != 0) && BitAt(c, 7) == (c & 128 != 0)
  {
    hide BitAt;
    LowBits(c);
    LowBits(c >> 2);
    LowBits(c >> 4);
    LowBits(c >> 6);
    UpTwo(c, 0);
    UpTwo(c, 1);
    UpTwo(c, 2);
    UpTwo(c, 3);
    UpTwo(c, 4);
    UpTwo(c, 5);
    UpTwo(c >> 2, 0);
    UpTwo(c >> 2, 1);
    UpTwo(c >> 2, 2);
    UpTwo(c >> 2, 3);
    UpTwo(c >> 4, 0);
    UpTwo(c >> 4, 1);
    MaskedBits(c);
  }

  lemma UpTwo(c: bv32, i: nat)
    ensures BitAt(c, i + 2) == BitAt(c >> 2, i)
  {
    assert BitAt(c, i + 2) == BitAt(Half(c), i + 1);
    assert Half(Half(c)) == c >> 2;
  }

  lemma LowBits(c: bv32)
    ensures BitAt(c, 0) == (c & 1 != 0) && BitAt(c, 1) == (c & 2 != 0)
  {
    LowBit(c);
    LowBit(Half(c));
    assert BitAt(c, 1) == IsOdd(Half(c));
  }

  lemma MaskedBits(c: bv32)
    ensures (c >> 2) >> 2 == c >> 4 && (c >> 4) >> 2 == c >> 6
    ensures (c >> 2) & 1 != 0 <==> c & 4 != 0
    ensures (c >> 2) & 2 != 0 <==> c & 8 != 0
    ensures (c >> 4) & 1 != 0 <==> c & 16 != 0
    ensures (c >> 4) & 2 != 0 <==> c & 32 != 0
    ensures (c >> 6) & 1 != 0 <==> c & 64 != 0
    ensures (c >> 6) & 2 != 0 <==> c & 128 != 0
  {
  }

  lemma TapBits(i: nat)
    requires i < 32
    ensures BitAt(Tap(1), i) <==> 31 - i in {26, 23, 22, 16, 12, 11, 10, 8, 7, 5, 4, 2, 1, 0}
  {
    hide BitAt;
    assert Tap(1) == 0xedb8_8320;
    assert Eighth(0xedb8_8320) == 0xed_b883 && Eighth(0xed_b883) == 0xedb8 && Eighth(0xedb8) == 0xed;
    ByteBits(0xedb8_8320);
    ByteBits(0xed_b883);
    ByteBits(0xedb8);
    ByteBits(0xed);
    if i >= 8 {
      EightUp(0xedb8_8320, i - 8);
      if i >= 16 {
        EightUp(0xed_b883, i - 16);
        if i >= 24 {
          EightUp(0xedb8, i - 24);
        }
      }
    }
  }

  /**
   * One bit of the division multiplies the register by x, modulo
   * x^32 + x^26 + x^23 + x^22 + x^16 + x^12 + x^11 + x^10 + x^8 + x^7 + x^5 + x^4 + x^2 + x + 1.
   */
  lemma RoundDivides(c: bv32, e: nat)
    requires e < 32
    ensures Coefficient(Round(c), e) ==
              ((e > 0 && Coefficient(c, e - 1)) != (Coefficient(c, 31) && e in {26, 23, 22, 16, 12, 11, 10, 8, 7, 5, 4, 2, 1, 0}))
  {
    hide BitAt, Half, Tap, Round;
    RoundIsXor(c);
    BitXor(Half(c), Tap(c), 31 - e);
    TapBits(31 - e);
    TapIs(c);
    NoBits(31 - e);
    BitsEnd(c);
    BitNext(c, 31 - e);
  }

  lemma BitNext(c: bv32, i: nat)
    ensures BitAt(c, i + 1) == BitAt(Half(c), i) && BitAt(c, 0) == IsOdd(c)
  {
  }

  lemma TapIs(c: bv32)
    ensures Tap(c) == if IsOdd(c) then Tap(1) else 0
  {
  }

  lemma WordOfSplit(w: bv32)
    ensures Word(Split(w)) == w
  {
    hide Split, FourWord;
    WordOfFour(Split(w));
    SplitJoins(w);
  }

  lemma SplitJoins(w: bv32)
    ensures FourWord(Split(w)[0], Split(w)[1], Split(w)[2], Split(w)[3]) == w
  {
    assert w == ((w & 0xff) ^ (w & 0xff00)) ^ ((w & 0xff_0000) ^ (w & 0xff00_0000));
  }

  lemma Digits(a0: nat, a1: nat, a2: nat, a3: nat)
    requires a0 < 0x100 && a1 < 0x100 && a2 < 0x100 && a3 < 0x100
    ensures var n := a0 + 0x100 * a1 + 0x1_0000 * a2 + 0x100_0000 * a3;
            && n % 0x100 == a0 && (n / 0x100) % 0x100 == a1 && (n / 0x1_0000) % 0x100 == a2 && (n / 0x100_0000) % 0x100 == a3
  {
    var n := a0 + 0x100 * a1 + 0x1_0000 * a2 + 0x100_0000 * a3;
    assert n / 0x100 == a1 + 0x100 * a2 + 0x1_0000 * a3;
    assert n / 0x1_0000 == a2 + 0x100 * a3;
    assert n / 0x100_0000 == a3;
  }

  function ByteNumber(b: bv8): (n: nat)
    ensures n < 0x100
  {
    b as int
  }

  lemma FourBytesNumber(b: Bytes)
    requires |b| == 4
    ensures U32(b, 0) == ByteNumber(b[0]) + 0x100 * ByteNumber(b[1]) + 0x1_0000 * ByteNumber(b[2]) + 0x100_0000 * ByteNumber(b[3])
  {
  }

  /** Writing the number that four bytes hold writes the same bytes. */
  lemma Storing(b: Bytes)
    requires |b| == 4
    ensures Le32(U32(b, 0)) == b
  {
    hide ToByte, ByteNumber, U32;
    var n := U32(b, 0);
    FourBytesNumber(b);
    Digits(ByteNumber(b[0]), ByteNumber(b[1]), ByteNumber(b[2]), ByteNumber(b[3]));
    StoredByte(n, b[0]);
    StoredByte(n / 0x100, b[1]);
    StoredByte(n / 0x1_0000, b[2]);
    StoredByte(n / 0x100_0000, b[3]);
  }

  lemma StoredByte(n: nat, b: bv8)
    requires n % 0x100 == ByteNumber(b)
    ensures ToByte(n) == b
  {
    hide ToByte;
    ToByteValue(n);
    SameByte(ToByte(n), b);
  }

  lemma SameByte(a: bv8, b: bv8)
    requires a as int == b as int
    ensures a == b
  {
    assert (a as int) as bv8 == a;
  }

  lemma OnesTurned()
    ensures Turn(0xffff_ffff, 4) == 0xdebb_20e3
  {
    hide Rounds;
    EightRounds(0xffff_ffff, 0x9247_7cdf, 0xa49b_3d4f, 0xbff5_1d87, 0xb242_0de3, 0xb499_85d1, 0xb7f4_41c8, 0x5bfa_20e4, 0x2dfd_1072);
    EightRounds(0x2dfd_1072, 0x16fe_8839, 0xe6c7_c73c, 0x7363_e39e, 0x39b1_f1cf, 0xf160_7bc7, 0x9508_bec3, 0xa73c_dc41, 0xbe26_ed00);
    EightRounds(0xbe26_ed00, 0x5f13_7680, 0x2f89_bb40, 0x17c4_dda0, 0x0be2_6ed0, 0x05f1_3768, 0x02f8_9bb4, 0x017c_4dda, 0x00be_26ed);
    EightRounds(0x00be_26ed, 0xede7_9056, 0x76f3_c82b, 0xd6c1_6735, 0x86d8_30ba, 0x436c_185d, 0xcc0e_8f0e, 0x6607_4787, 0xdebb_20e3);
    assert Turn(0xffff_ffff, 1) == 0x2dfd_1072;
    assert Turn(0xffff_ffff, 2) == 0xbe26_ed00;
    assert Turn(0xffff_ffff, 3) == 0x00be_26ed;
  }

  lemma EightRounds(a: bv32, b: bv32, c: bv32, d: bv32, e: bv32, f: bv32, g: bv32, h: bv32, i: bv32)
    requires Round(a) == b && Round(b) == c && Round(c) == d && Round(d) == e
    requires Round(e) == f && Round(f) == g && Round(g) == h && Round(h) == i
    ensures Rounds(a, 8) == i
  {
    hide Round;
    assert Rounds(a, 1) == b;
    assert Rounds(a, 2) == c;
    assert Rounds(a, 3) == d;
    assert Rounds(a, 4) == e;
    assert Rounds(a, 5) == f;
    assert Rounds(a, 6) == g;
    assert Rounds(a, 7) == h;
  }

  /** A byte string followed by its own checksum, low byte first, always has this checksum. */
  lemma Residue(bytes: Bytes)
    ensures Checksum(bytes + Le32(Number(Checksum(bytes)))) == 0x2144_df1c
  {
    hide Run, Turn, Word, Xor, Split, Le32, U32;
    var start: bv32 := 0xffff_ffff;
    var r, tail := Run(start, bytes), Split(Checksum(bytes));
    Storing(tail);
    WordOfSplit(Checksum(bytes));
    RunAppend(start, bytes, tail);
    RunBurst(r, tail);
    ChecksumIsXor(bytes);
    ChecksumIsXor(bytes + tail);
    XorAssoc(r, r, start);
    XorSelf(r, start);
    OnesTurned();
    ResidueWord();
  }

  lemma ChecksumIsXor(bytes: Bytes)
    ensures Checksum(bytes) == Xor(Run(0xffff_ffff, bytes), 0xffff_ffff)
  {
    hide Run;
  }

  lemma XorSelf(a: bv32, b: bv32)
    ensures Xor(Xor(a, a), b) == b
  {
  }

  lemma ResidueWord()
    ensures Xor(0xdebb_20e3, 0xffff_ffff) == 0x2144_df1c
  {
  }

  lemma RunNext(front: Bytes, byte: bv8, after: Bytes, start: bv32,
                a: bv32, b: bv32, c: bv32, d: bv32, e: bv32, f: bv32, g: bv32, h: bv32, i: bv32)
    requires after == front + [byte] && Run(0xffff_ffff, front) == start && start ^ (byte as bv32) == a
    requires Round(a) == b && Round(b) == c && Round(c) == d && Round(d) == e
    requires Round(e) == f && Round(f) == g && Round(g) == h && Round(h) == i
    ensures Run(0xffff_ffff, after) == i
  {
    hide Round, Rounds;
    EightRounds(a, b, c, d, e, f, g, h, i);
    assert after[..|front|] == front;
  }

  lemma RunNothing()
    ensures Run(0xffff_ffff, []) == 0xffff_ffff
  {
  }

  /** The checksum of the nine characters 123456789, as published for this code. */
  lemma CheckValue()
    ensures Checksum([0x31, 0x32, 0x33, 0x34, 0x35, 0x36, 0x37, 0x38, 0x39]) == 0xcbf4_3926
  {
    hide Run;
    RunNothing();
    RunNext([], 0x31, [0x31], 0xffff_ffff, 0xffff_ffce, 0x7fff_ffe7, 0xd247_7cd3, 0x849b_3d49, 0xaff5_1d84, 0x57fa_8ec2, 0x2bfd_4761, 0xf846_2090, 0x7c23_1048);
    RunNext([0x31], 0x32, [0x31, 0x32], 0x7c23_1048, 0x7c23_107a, 0x3e11_883d, 0xf2b0_473e, 0x7958_239f, 0xd114_92ef, 0x8532_ca57, 0xaf21_e60b, 0xba28_7025, 0xb0ac_bb32);
    RunNext([0x31, 0x32], 0x33, [0x31, 0x32, 0x33], 0xb0ac_bb32, 0xb0ac_bb01, 0xb5ee_dea0, 0x5af7_6f50, 0x2d7b_b7a8, 0x16bd_dbd4, 0x0b5e_edea, 0x05af_76f5, 0xef6f_385a, 0x77b7_9c2d);
    RunNext([0x31, 0x32, 0x33], 0x34, [0x31, 0x32, 0x33, 0x34], 0x77b7_9c2d, 0x77b7_9c19, 0xd663_4d2c, 0x6b31_a696, 0x3598_d34b, 0xf774_ea85, 0x9602_f662, 0x4b01_7b31, 0xc838_3eb8, 0x641c_1f5c);
    RunNext([0x31, 0x32, 0x33, 0x34], 0x35, [0x31, 0x32, 0x33, 0x34, 0x35], 0x641c_1f5c, 0x641c_1f69, 0xdfb6_8c94, 0x6fdb_464a, 0x37ed_a325, 0xf64e_52b2, 0x7b27_2959, 0xd02b_178c, 0x6815_8bc6, 0x340a_c5e3);
    RunNext([0x31, 0x32, 0x33, 0x34, 0x35], 0x36, [0x31, 0x32, 0x33, 0x34, 0x35, 0x36], 0x340a_c5e3, 0x340a_c5d5, 0xf7bd_e1ca, 0x7bde_f0e5, 0xd057_fb52, 0x682b_fda9, 0xd9ad_7df4, 0x6cd6_befa, 0x366b_5f7d, 0xf68d_2c9e);
    RunNext([0x31, 0x32, 0x33, 0x34, 0x35, 0x36], 0x37, [0x31, 0x32, 0x33, 0x34, 0x35, 0x36, 0x37], 0xf68d_2c9e, 0xf68d_2ca9, 0x96fe_1574, 0x4b7f_0aba, 0x25bf_855d, 0xff67_418e, 0x7fb3_a0c7, 0xd261_5343, 0x8488_2a81, 0xaffc_9660);
    RunNext([0x31, 0x32, 0x33, 0x34, 0x35, 0x36, 0x37], 0x38, [0x31, 0x32, 0x33, 0x34, 0x35, 0x36, 0x37, 0x38], 0xaffc_9660, 0xaffc_9658, 0x57fe_4b2c, 0x2bff_2596, 0x15ff_92cb, 0xe747_4a45, 0x9e1b_2602, 0x4f0d_9301, 0xca3e_4aa0, 0x651f_2550);
    RunNext([0x31, 0x32, 0x33, 0x34, 0x35, 0x36, 0x37, 0x38], 0x39, [0x31, 0x32, 0x33, 0x34, 0x35, 0x36, 0x37, 0x38, 0x39], 0x651f_2550, 0x651f_2569, 0xdf37_1194, 0x6f9b_88ca, 0x37cd_c465, 0xf65e_6112, 0x7b2f_3089, 0xd02f_1b64, 0x6817_8db2, 0x340b_c6d9);
  }
}
