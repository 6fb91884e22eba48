/** The version information of versions 7 to 10, and how a reader corrects it. */
module QrVersionInfo {
  import opened Results
  import opened QrMatrix
  import RS = ReedSolomon

  /* ---- The four words ---- */

  lemma VersionWord7()
    ensures VersionWord(7) == 0x7c94
  {
    assert DivideVersion(0x7, 12) == DivideVersion(0x38, 9);
    assert DivideVersion(0x38, 9) == DivideVersion(0x1c0, 6);
    assert DivideVersion(0x1c0, 6) == DivideVersion(0xe00, 3);
    assert DivideVersion(0xe00, 3) == 0xc94;
  }

  lemma VersionWord8()
    ensures VersionWord(8) == 0x85bc
  {
    assert DivideVersion(0x8, 12) == DivideVersion(0x40, 9);
    assert DivideVersion(0x40, 9) == DivideVersion(0x200, 6);
    assert DivideVersion(0x200, 6) == DivideVersion(0xf25, 3);
    assert DivideVersion(0xf25, 3) == 0x5bc;
  }

  lemma VersionWord9()
    ensures VersionWord(9) == 0x9a99
  {
    assert DivideVersion(0x9, 12) == DivideVersion(0x48, 9);
    assert DivideVersion(0x48, 9) == DivideVersion(0x240, 6);
    assert DivideVersion(0x240, 6) == DivideVersion(0xd25, 3);
    assert DivideVersion(0xd25, 3) == 0xa99;
  }

  lemma VersionWord10()
    ensures VersionWord(10) == 0xa4d3
  {
    assert DivideVersion(0xa, 12) == DivideVersion(0x50, 9);
    assert DivideVersion(0x50, 9) == DivideVersion(0x280, 6);
    assert DivideVersion(0x280, 6) == DivideVersion(0xb25, 3);
    assert DivideVersion(0xb25, 3) == 0x4d3;
  }

  /* ---- Their distance ---- */

  /** The number of ones among the low n bits. */
  function Weight(word: bv32, n: nat): nat {
    if n == 0 then 0 else (if word & 1 == 1 then 1 else 0) + Weight(word >> 1, n - 1)
  }

  lemma {:induction false} DistanceFront(x: bool, p: seq<bool>, y: bool, q: seq<bool>)
    requires |p| == |q|
    ensures RS.Distance([x] + p, [y] + q) == (if x == y then 0 else 1) + RS.Distance(p, q)
  {
    if p == [] {
      assert [x] + p == [x] && [y] + q == [y];
      assert RS.Distance([x][..0], [y][..0]) == 0;
    } else {
      var k := |p| - 1;
      assert ([x] + p)[..k + 1] == [x] + p[..k] && ([y] + q)[..k + 1] == [y] + q[..k];
      DistanceFront(x, p[..k], y, q[..k]);
    }
  }

  function LowBit(word: bv32): bool {
    word & 1 == 1
  }

  function Rest(word: bv32): bv32 {
    word >> 1
  }

  function Xor(a: bv32, b: bv32): bv32 {
    a ^ b
  }

  lemma LowBitsDiffer(a: bv32, b: bv32)
    ensures LowBit(Xor(a, b)) == (LowBit(a) != LowBit(b)) && Rest(Xor(a, b)) == Xor(Rest(a), Rest(b))
  {
  }

  /** Two words differ in as many bits as their exclusive or has ones. */
  lemma {:induction false} DistanceIsWeight(a: bv32, b: bv32, n: nat)
    ensures RS.Distance(WordBits(a, n), WordBits(b, n)) == Weight(Xor(a, b), n)
    decreases n
  {
    hide RS.Distance, WordBits, Weight, LowBit, Rest, Xor;
    LowBitsDiffer(a, b);
    if n > 0 {
      FirstBit(a, n);
      FirstBit(b, n);
      FirstWeight(Xor(a, b), n);
      DistanceIsWeight(Rest(a), Rest(b), n - 1);
      DistanceFront(LowBit(a), WordBits(Rest(a), n - 1), LowBit(b), WordBits(Rest(b), n - 1));
    } else {
      NoBits(a, b);
    }
  }

  lemma FirstBit(word: bv32, n: nat)
    requires n > 0
    ensures WordBits(word, n) == [LowBit(word)] + WordBits(Rest(word), n - 1)
  {
  }

  lemma FirstWeight(word: bv32, n: nat)
    requires n > 0
    ensures Weight(word, n) == (if LowBit(word) then 1 else 0) + Weight(Rest(word), n - 1)
  {
  }

  lemma NoBits(a: bv32, b: bv32)
    ensures RS.Distance(WordBits(a, 0), WordBits(b, 0)) == Weight(Xor(a, b), 0) == 0
  {
  }

  lemma WeightThree(word: bv32, n: nat)
    requires n >= 3
    ensures Weight(word, n) == (if word & 1 == 1 then 1 else 0) + (if (word >> 1) & 1 == 1 then 1 else 0)
                             + (if (word >> 2) & 1 == 1 then 1 else 0) + Weight(word >> 3, n - 3)
  {
    assert Weight(word >> 1, n - 1) == (if (word >> 1) & 1 == 1 then 1 else 0) + Weight(word >> 2, n - 2);
    assert Weight(word >> 2, n - 2) == (if (word >> 2) & 1 == 1 then 1 else 0) + Weight(word >> 3, n - 3);
  }

  lemma NoWeight()
    ensures Weight(0, 0) == 0
  {
  }

  lemma Weight7And8()
    ensures Weight(0xf928, 18) == 8
  {
    hide Weight;
    WeightThree(0xf928, 18);
    WeightThree(0x1f25, 15);
    WeightThree(0x3e4, 12);
    WeightThree(0x7c, 9);
    WeightThree(0xf, 6);
    WeightThree(0x1, 3);
    NoWeight();
  }

  lemma Weight7And9()
    ensures Weight(0xe60d, 18) == 8
  {
    hide Weight;
    WeightThree(0xe60d, 18);
    WeightThree(0x1cc1, 15);
    WeightThree(0x398, 12);
    WeightThree(0x73, 9);
    WeightThree(0xe, 6);
    WeightThree(0x1, 3);
    NoWeight();
  }

  lemma Weight7And10()
    ensures Weight(0xd847, 18) == 8
  {
    hide Weight;
    WeightThree(0xd847, 18);
    WeightThree(0x1b08, 15);
    WeightThree(0x361, 12);
    WeightThree(0x6c, 9);
    WeightThree(0xd, 6);
    WeightThree(0x1, 3);
    NoWeight();
  }

  lemma Weight8And9()
    ensures Weight(0x1f25, 18) == 8
  {
    hide Weight;
    WeightThree(0x1f25, 18);
    WeightThree(0x3e4, 15);
    WeightThree(0x7c, 12);
    WeightThree(0xf, 9);
    WeightThree(0x1, 6);
    WeightThree(0x0, 3);
    NoWeight();
  }

  lemma Weight8And10()
    ensures Weight(0x216f, 18) == 8
  {
    hide Weight;
    WeightThree(0x216f, 18);
    WeightThree(0x42d, 15);
    WeightThree(0x85, 12);
    WeightThree(0x10, 9);
    WeightThree(0x2, 6);
    WeightThree(0x0, 3);
    NoWeight();
  }

  lemma Weight9And10()
    ensures Weight(0x3e4a, 18) == 8
  {
    hide Weight;
    WeightThree(0x3e4a, 18);
    WeightThree(0x7c9, 15);
    WeightThree(0xf9, 12);
    WeightThree(0x1f, 9);
    WeightThree(0x3, 6);
    WeightThree(0x0, 3);
    NoWeight();
  }

  lemma {:induction false} DistanceSymmetric(a: seq<bool>, b: seq<bool>)
    requires |a| == |b|
    ensures RS.Distance(a, b) == RS.Distance(b, a)
  {
    if a != [] {
      DistanceSymmetric(a[..|a| - 1], b[..|b| - 1]);
    }
  }

  lemma {:induction false} TriangleInequality(a: seq<bool>, b: seq<bool>, c: seq<bool>)
    requires |a| == |b| == |c|
    ensures RS.Distance(a, c) <= RS.Distance(a, b) + RS.Distance(b, c)
  {
    if a != [] {
      TriangleInequality(a[..|a| - 1], b[..|a| - 1], c[..|a| - 1]);
    }
  }

  /** Any two of the four words differ in eight bits. */
  lemma WordsApart(v: nat, w: nat)
    requires 7 <= v < w <= 10
    ensures RS.Distance(InfoBits(v), InfoBits(w)) == 8
  {
    hide WordBits, VersionWord, Weight, RS.Distance;
    VersionWord7();
    VersionWord8();
    VersionWord9();
    VersionWord10();
    Weight7And8();
    Weight7And9();
    Weight7And10();
    Weight8And9();
    Weight8And10();
    Weight9And10();
    DistanceIsWeight(VersionWord(v as bv32), VersionWord(w as bv32), 18);
  }

  /* ---- Reading a block ---- */

  /** The first version from v on whose word is at most three bits away. */
  function NearVersion(bits: seq<bool>, v: nat): Option<nat>
    requires |bits| == 18 && 7 <= v
    decreases 11 - v
  {
    if v > 10 then None
    else if RS.Distance(bits, InfoBits(v)) <= 3 then Some(v)
    else NearVersion(bits, v + 1)
  }

  lemma OnlyOneNear(bits: seq<bool>, v: nat, w: nat)
    requires |bits| == 18 && 7 <= v <= 10 && 7 <= w <= 10
    requires RS.Distance(bits, InfoBits(v)) <= 3 && RS.Distance(bits, InfoBits(w)) <= 3
    ensures v == w
  {
    hide InfoBits, RS.Distance;
    if v != w {
      WordsApart(if v < w then v else w, if v < w then w else v);
      DistanceSymmetric(bits, InfoBits(v));
      DistanceSymmetric(bits, InfoBits(w));
      TriangleInequality(InfoBits(v), bits, InfoBits(w));
      TriangleInequality(InfoBits(w), bits, InfoBits(v));
    }
  }

  lemma {:induction false} NearFound(bits: seq<bool>, v: nat, from: nat)
    requires |bits| == 18 && 7 <= from <= v <= 10 && RS.Distance(bits, InfoBits(v)) <= 3
    ensures NearVersion(bits, from) == Some(v)
    decreases v - from
  {
    hide InfoBits, RS.Distance;
    if from < v {
      if RS.Distance(bits, InfoBits(from)) <= 3 {
        OnlyOneNear(bits, from, v);
      } else {
        NearFound(bits, v, from + 1);
      }
    }
  }

  /** Version information with up to three wrong modules still reads as the version it was drawn for. */
  lemma DamagedVersionRead(bits: seq<bool>, version: nat)
    requires |bits| == 18 && 7 <= version <= 10 && RS.Distance(bits, InfoBits(version)) <= 3
    ensures NearVersion(bits, 7) == Some(version)
  {
    NearFound(bits, version, 7);
  }
}
