/** The encoder draws what a scanner expects: the finished grid against the standard's description of a symbol. */
module QrConformance {
  import opened Arithmetic
  import opened Galois
  import opened QrBits
  import opened QrLayout
  import opened QrMatrix
  import opened QrVersionInfo
  import S = QrSymbol

  /** The grid shows the module colours that the encoder's drawing ends with. */
  ghost predicate Shows(grid: S.Grid, version: nat, codewords: seq<Octet>)
    requires IsVersion(version)
  {
    forall x: nat, y: nat :: x < Size(version) && y < Size(version) ==> grid(x, y) == Module(version, codewords, x, y)
  }

  /* ---- Finder, timing and alignment patterns ---- */

  lemma RingIsReach(dx: int, dy: int, distance: nat)
    ensures S.OnRing(dx, dy, distance) <==> Reach(dx, dy) == distance
  {
  }

  predicate IsFinderCentre(version: nat, cx: int, cy: int) {
    (cx, cy) == (3, 3) || (cx, cy) == (Size(version) - 4, 3) || (cx, cy) == (3, Size(version) - 4)
  }

  lemma FinderRegion(version: nat, cx: int, cy: int, x: int, y: int)
    requires IsVersion(version) && IsFinderCentre(version, cx, cy) && Reach(x - cx, y - cy) <= 4
    requires 0 <= x < Size(version) && 0 <= y < Size(version)
    ensures IsFunction(version, x, y) && VersionIndex(version, x, y) < 0 && FormatIndex(version, x, y) < 0
    ensures !InAlignment(version, x, y)
    ensures AtFinder(3, 3, x, y) <==> (cx, cy) == (3, 3)
    ensures AtFinder(Size(version) - 4, 3, x, y) <==> (cx, cy) == (Size(version) - 4, 3)
    ensures AtFinder(3, Size(version) - 4, x, y) <==> (cx, cy) == (3, Size(version) - 4)
  {
  }

  lemma FinderModule(version: nat, codewords: seq<Octet>, cx: int, cy: int, x: int, y: int)
    requires IsVersion(version) && IsFinderCentre(version, cx, cy) && Reach(x - cx, y - cy) <= 4
    requires 0 <= x < Size(version) && 0 <= y < Size(version)
    ensures Module(version, codewords, x, y) == (Reach(x - cx, y - cy) in {0, 1, 3})
  {
    hide Reach, AtFinder, FormatIndex, VersionIndex, InAlignment, AlignDark, OnTiming, InfoBits, FormatBits, MaskBit, DataBit, IsFunction;
    FinderRegion(version, cx, cy, x, y);
  }

  lemma FinderShown(grid: S.Grid, version: nat, codewords: seq<Octet>, cx: int, cy: int)
    requires IsVersion(version) && Shows(grid, version, codewords) && IsFinderCentre(version, cx, cy)
    ensures S.ShowsFinder(grid, Size(version), cx, cy)
  {
    hide Module, Reach, S.OnRing;
    forall dx, dy | -3 <= dx <= 3 && -3 <= dy <= 3 ensures grid(cx + dx, cy + dy) == !S.OnRing(dx, dy, 2) {
      NearCentre(dx, dy);
      RingIsReach(dx, dy, 2);
      FinderModule(version, codewords, cx, cy, cx + dx, cy + dy);
    }
    forall dx, dy | S.OnRing(dx, dy, 4) && 0 <= cx + dx < Size(version) && 0 <= cy + dy < Size(version)
      ensures !grid(cx + dx, cy + dy)
    {
      RingIsReach(dx, dy, 4);
      FinderModule(version, codewords, cx, cy, cx + dx, cy + dy);
    }
  }

  lemma NearCentre(dx: int, dy: int)
    requires -3 <= dx <= 3 && -3 <= dy <= 3
    ensures Reach(dx, dy) <= 3
  {
  }

  lemma TimingModule(version: nat, codewords: seq<Octet>, i: nat)
    requires IsVersion(version) && 8 <= i <= Size(version) - 9
    ensures Module(version, codewords, i, 6) == (i % 2 == 0) && Module(version, codewords, 6, i) == (i % 2 == 0)
  {
    hide InfoBits, FormatBits, MaskBit, DataBit, FinderDark;
    TimingRegion(version, i);
  }

  lemma TimingRegion(version: nat, i: nat)
    requires IsVersion(version) && 8 <= i <= Size(version) - 9
    ensures IsFunction(version, i, 6) && IsFunction(version, 6, i)
    ensures VersionIndex(version, i, 6) < 0 && VersionIndex(version, 6, i) < 0
    ensures FormatIndex(version, i, 6) < 0 && FormatIndex(version, 6, i) < 0
    ensures !InAlignment(version, i, 6) && !InAlignment(version, 6, i)
  {
  }

  lemma AlignmentRegion(version: nat, cx: int, cy: int, dx: int, dy: int)
    requires IsVersion(version) && cx in S.Centres(version) && cy in S.Centres(version) && -2 <= dx <= 2 && -2 <= dy <= 2
    ensures 0 <= cx + dx < Size(version) && 0 <= cy + dy < Size(version)
    ensures InAlignment(version, cx + dx, cy + dy) && VersionIndex(version, cx + dx, cy + dy) < 0 && FormatIndex(version, cx + dx, cy + dy) < 0
    ensures AlignCentre(version, cx + dx) == cx && AlignCentre(version, cy + dy) == cy
  {
  }

  lemma AlignmentModule(version: nat, codewords: seq<Octet>, cx: int, cy: int, dx: int, dy: int)
    requires IsVersion(version) && cx in S.Centres(version) && cy in S.Centres(version) && -2 <= dx <= 2 && -2 <= dy <= 2
    ensures 0 <= cx + dx < Size(version) && 0 <= cy + dy < Size(version)
    ensures Module(version, codewords, cx + dx, cy + dy) == !S.OnRing(dx, dy, 1)
  {
    hide Reach, AtFinder, FormatIndex, VersionIndex, InAlignment, OnTiming, InfoBits, FormatBits, MaskBit, DataBit, S.OnRing, S.Centres, NearAlign, AlignCentre, Size, FinderDark;
    AlignmentRegion(version, cx, cy, dx, dy);
    RingIsReach(dx, dy, 1);
  }

  /* ---- Format and version words ---- */

  lemma WordNext(word: bv32, n: nat)
    requires n > 0
    ensures WordBits(word, n) == [word & 1 == 1] + WordBits(word >> 1, n - 1)
  {
  }

  lemma WordEmpty()
    ensures WordBits(0, 0) == []
  {
  }

  lemma FormatWordBits()
    ensures WordBits(0x77c4, 15) == [false, false, true, false, false, false, true, true, true, true, true, false, true, true, true]
  {
    hide WordBits;
    WordNext(0x77c4, 15);
    WordNext(0x3be2, 14);
    WordNext(0x1df1, 13);
    WordNext(0xef8, 12);
    WordNext(0x77c, 11);
    WordNext(0x3be, 10);
    WordNext(0x1df, 9);
    WordNext(0xef, 8);
    WordNext(0x77, 7);
    WordNext(0x3b, 6);
    WordNext(0x1d, 5);
    WordNext(0xe, 4);
    WordNext(0x7, 3);
    WordNext(0x3, 2);
    WordNext(0x1, 1);
    WordEmpty();
  }

  lemma VersionBits7()
    ensures WordBits(0x7c94, 18) == [false, false, true, false, true, false, false, true, false, false, true, true, true, true, true, false, false, false]
  {
    hide WordBits;
    WordNext(0x7c94, 18);
    WordNext(0x3e4a, 17);
    WordNext(0x1f25, 16);
    WordNext(0xf92, 15);
    WordNext(0x7c9, 14);
    WordNext(0x3e4, 13);
    WordNext(0x1f2, 12);
    WordNext(0xf9, 11);
    WordNext(0x7c, 10);
    WordNext(0x3e, 9);
    WordNext(0x1f, 8);
    WordNext(0xf, 7);
    WordNext(0x7, 6);
    WordNext(0x3, 5);
    WordNext(0x1, 4);
    WordNext(0x0, 3);
    WordNext(0x0, 2);
    WordNext(0x0, 1);
    WordEmpty();
  }

  lemma VersionBits8()
    ensures WordBits(0x85bc, 18) == [false, false, true, true, true, true, false, true, true, false, true, false, false, false, false, true, false, false]
  {
    hide WordBits;
    WordNext(0x85bc, 18);
    WordNext(0x42de, 17);
    WordNext(0x216f, 16);
    WordNext(0x10b7, 15);
    WordNext(0x85b, 14);
    WordNext(0x42d, 13);
    WordNext(0x216, 12);
    WordNext(0x10b, 11);
    WordNext(0x85, 10);
    WordNext(0x42, 9);
    WordNext(0x21, 8);
    WordNext(0x10, 7);
    WordNext(0x8, 6);
    WordNext(0x4, 5);
    WordNext(0x2, 4);
    WordNext(0x1, 3);
    WordNext(0x0, 2);
    WordNext(0x0, 1);
    WordEmpty();
  }

  lemma VersionBits9()
    ensures WordBits(0x9a99, 18) == [true, false, false, true, true, false, false, true, false, true, false, true, true, false, false, true, false, false]
  {
    hide WordBits;
    WordNext(0x9a99, 18);
    WordNext(0x4d4c, 17);
    WordNext(0x26a6, 16);
    WordNext(0x1353, 15);
    WordNext(0x9a9, 14);
    WordNext(0x4d4, 13);
    WordNext(0x26a, 12);
    WordNext(0x135, 11);
    WordNext(0x9a, 10);
    WordNext(0x4d, 9);
    WordNext(0x26, 8);
    WordNext(0x13, 7);
    WordNext(0x9, 6);
    WordNext(0x4, 5);
    WordNext(0x2, 4);
    WordNext(0x1, 3);
    WordNext(0x0, 2);
    WordNext(0x0, 1);
    WordEmpty();
  }

  lemma VersionBits10()
    ensures WordBits(0xa4d3, 18) == [true, true, false, false, true, false, true, true, false, false, true, false, false, true, false, true, false, false]
  {
    hide WordBits;
    WordNext(0xa4d3, 18);
    WordNext(0x5269, 17);
    WordNext(0x2934, 16);
    WordNext(0x149a, 15);
    WordNext(0xa4d, 14);
    WordNext(0x526, 13);
    WordNext(0x293, 12);
    WordNext(0x149, 11);
    WordNext(0xa4, 10);
    WordNext(0x52, 9);
    WordNext(0x29, 8);
    WordNext(0x14, 7);
    WordNext(0xa, 6);
    WordNext(0x5, 5);
    WordNext(0x2, 4);
    WordNext(0x1, 3);
    WordNext(0x0, 2);
    WordNext(0x0, 1);
    WordEmpty();
  }

  lemma FormatBitsAre(i: nat)
    requires i < 15
    ensures FormatBits()[i] == S.FormatBit(i)
  {
    hide WordBits, FormatWord;
    FormatWordPublished();
    FormatWordBits();
  }

  lemma Powers()
    ensures Power2(0) == 1 && Power2(1) == 2 && Power2(2) == 4 && Power2(3) == 8 && Power2(4) == 16 && Power2(5) == 32
    ensures Power2(6) == 64 && Power2(7) == 128 && Power2(8) == 256 && Power2(9) == 512 && Power2(10) == 1024 && Power2(11) == 2048
    ensures Power2(12) == 4096 && Power2(13) == 8192 && Power2(14) == 16384 && Power2(15) == 32768 && Power2(16) == 65536 && Power2(17) == 131072
  {
    assert Power2(4) == 16;
    assert Power2(8) == 256;
    assert Power2(12) == 4096;
    assert Power2(16) == 65536;
  }

  lemma NumberBits7(i: nat)
    requires i < 18
    ensures S.NumberBit(0x07c94, i) == WordBits(0x7c94, 18)[i]
  {
    hide WordBits;
    Powers();
    VersionBits7();
  }

  lemma NumberBits8(i: nat)
    requires i < 18
    ensures S.NumberBit(0x085bc, i) == WordBits(0x85bc, 18)[i]
  {
    hide WordBits;
    Powers();
    VersionBits8();
  }

  lemma NumberBits9(i: nat)
    requires i < 18
    ensures S.NumberBit(0x09a99, i) == WordBits(0x9a99, 18)[i]
  {
    hide WordBits;
    Powers();
    VersionBits9();
  }

  lemma NumberBits10(i: nat)
    requires i < 18
    ensures S.NumberBit(0x0a4d3, i) == WordBits(0xa4d3, 18)[i]
  {
    hide WordBits;
    Powers();
    VersionBits10();
  }

  lemma VersionBitsAre(version: nat, i: nat)
    requires 7 <= version <= 10 && i < 18
    ensures InfoBits(version)[i] == S.NumberBit(S.VersionNumber(version), i)
  {
    hide WordBits, VersionWord, S.NumberBit;
    VersionWord7();
    VersionWord8();
    VersionWord9();
    VersionWord10();
    NumberBits7(i);
    NumberBits8(i);
    NumberBits9(i);
    NumberBits10(i);
  }

  lemma FormatModule(version: nat, codewords: seq<Octet>, x: nat, y: nat)
    requires IsVersion(version) && x < Size(version) && y < Size(version)
    ensures VersionIndex(version, x, y) < 0 && 0 <= FormatIndex(version, x, y) < 15 ==>
              Module(version, codewords, x, y) == S.FormatBit(FormatIndex(version, x, y))
    ensures VersionIndex(version, x, y) < 0 && FormatIndex(version, x, y) == 15 ==> Module(version, codewords, x, y)
    ensures 0 <= VersionIndex(version, x, y) < 18 && version >= 7 ==>
              Module(version, codewords, x, y) == S.NumberBit(S.VersionNumber(version), VersionIndex(version, x, y))
  {
    hide InfoBits, FormatBits, FormatIndex, VersionIndex, DataBit, OnTiming, AtFinder, InAlignment, AlignDark, FinderDark, MaskBit, S.FormatBit, S.NumberBit;
    if 0 <= FormatIndex(version, x, y) < 15 {
      FormatBitsAre(FormatIndex(version, x, y));
    }
    if 0 <= VersionIndex(version, x, y) < 18 && version >= 7 {
      VersionBitsAre(version, VersionIndex(version, x, y));
    }
  }

  /** Where format bit i stands. */
  lemma FormatPlaces(version: nat, i: nat)
    requires IsVersion(version) && i <= 14
    ensures var s := Size(version);
            && (i <= 5 ==> FormatIndex(version, 8, i) == i)
            && FormatIndex(version, 8, 7) == 6 && FormatIndex(version, 8, 8) == 7 && FormatIndex(version, 7, 8) == 8
            && (9 <= i ==> FormatIndex(version, 14 - i, 8) == i)
            && (i <= 7 ==> FormatIndex(version, s - 1 - i, 8) == i)
            && (8 <= i ==> FormatIndex(version, 8, s - 15 + i) == i)
            && FormatIndex(version, 8, s - 8) == 15
  {
  }

  lemma FormatShownAt(grid: S.Grid, version: nat, codewords: seq<Octet>, x: nat, y: nat)
    requires IsVersion(version) && Shows(grid, version, codewords) && x < Size(version) && y < Size(version)
    ensures 0 <= FormatIndex(version, x, y) < 15 ==> grid(x, y) == S.FormatBit(FormatIndex(version, x, y))
    ensures FormatIndex(version, x, y) == 15 ==> grid(x, y)
  {
    hide Module, S.FormatBit;
    FormatModule(version, codewords, x, y);
  }

  lemma FormatBitShown(grid: S.Grid, version: nat, codewords: seq<Octet>, i: nat)
    requires IsVersion(version) && Shows(grid, version, codewords) && i <= 14
    ensures var s := Size(version);
            && (i <= 5 ==> grid(8, i) == S.FormatBit(i)) && (9 <= i ==> grid(14 - i, 8) == S.FormatBit(i))
            && (i <= 7 ==> grid(s - 1 - i, 8) == S.FormatBit(i)) && (8 <= i ==> grid(8, s - 15 + i) == S.FormatBit(i))
  {
    hide Module, FormatIndex, S.FormatBit, Shows;
    FormatPlaces(version, i);
    if i <= 5 {
      FormatShownAt(grid, version, codewords, 8, i);
    }
    if 9 <= i {
      FormatShownAt(grid, version, codewords, 14 - i, 8);
    }
    if i <= 7 {
      FormatShownAt(grid, version, codewords, Size(version) - 1 - i, 8);
    } else {
      FormatShownAt(grid, version, codewords, 8, Size(version) - 15 + i);
    }
  }

  lemma FormatShown(grid: S.Grid, version: nat, codewords: seq<Octet>)
    requires IsVersion(version) && Shows(grid, version, codewords)
    ensures S.ShowsFormatWord(grid, Size(version))
  {
    hide Module, FormatIndex, S.FormatBit, Shows;
    FormatPlaces(version, 0);
    FormatShownAt(grid, version, codewords, 8, 7);
    FormatShownAt(grid, version, codewords, 8, 8);
    FormatShownAt(grid, version, codewords, 7, 8);
    FormatShownAt(grid, version, codewords, 8, Size(version) - 8);
    var s := Size(version);
    forall i: nat | i <= 14
      ensures (i <= 5 ==> grid(8, i) == S.FormatBit(i)) && (9 <= i ==> grid(14 - i, 8) == S.FormatBit(i))
      ensures (i <= 7 ==> grid(s - 1 - i, 8) == S.FormatBit(i)) && (8 <= i ==> grid(8, s - 15 + i) == S.FormatBit(i))
    {
      FormatBitShown(grid, version, codewords, i);
    }
  }

  lemma VersionPlaces(version: nat, i: nat)
    requires 7 <= version <= 10 && i < 18
    ensures VersionIndex(version, Size(version) - 11 + i % 3, i / 3) == i && VersionIndex(version, i / 3, Size(version) - 11 + i % 3) == i
  {
  }

  lemma VersionShown(grid: S.Grid, version: nat, codewords: seq<Octet>)
    requires IsVersion(version) && Shows(grid, version, codewords)
    ensures S.ShowsVersionWord(grid, version)
  {
    hide Module, FormatIndex, VersionIndex, S.NumberBit;
    if version >= 7 {
      forall i | 0 <= i < 18
        ensures grid(Size(version) - 11 + i % 3, i / 3) == S.NumberBit(S.VersionNumber(version), i)
        ensures grid(i / 3, Size(version) - 11 + i % 3) == S.NumberBit(S.VersionNumber(version), i)
      {
        VersionPlaces(version, i);
        FormatModule(version, codewords, Size(version) - 11 + i % 3, i / 3);
        FormatModule(version, codewords, i / 3, Size(version) - 11 + i % 3);
      }
    }
  }

  lemma TimingShown(grid: S.Grid, version: nat, codewords: seq<Octet>)
    requires IsVersion(version) && Shows(grid, version, codewords)
    ensures S.ShowsTiming(grid, Size(version))
  {
    hide Module;
    forall i | 8 <= i <= Size(version) - 9 ensures grid(i, 6) == (i % 2 == 0) && grid(6, i) == (i % 2 == 0) {
      TimingModule(version, codewords, i);
    }
  }

  lemma AlignmentShown(grid: S.Grid, version: nat, codewords: seq<Octet>)
    requires IsVersion(version) && Shows(grid, version, codewords)
    ensures S.ShowsAlignment(grid, version)
  {
    hide Module, S.OnRing, S.Centres;
    forall cx, cy, dx, dy | cx in S.Centres(version) && cy in S.Centres(version) && -2 <= dx <= 2 && -2 <= dy <= 2
      ensures grid(cx + dx, cy + dy) == !S.OnRing(dx, dy, 1)
    {
      AlignmentModule(version, codewords, cx, cy, dx, dy);
    }
  }

  lemma PatternsShown(grid: S.Grid, version: nat, codewords: seq<Octet>)
    requires IsVersion(version) && Shows(grid, version, codewords)
    ensures S.ShowsFinders(grid, Size(version)) && S.ShowsTiming(grid, Size(version)) && S.ShowsAlignment(grid, version)
    ensures S.ShowsFormatWord(grid, Size(version)) && S.ShowsVersionWord(grid, version)
  {
    hide Shows, S.ShowsFinder, S.ShowsTiming, S.ShowsAlignment, S.ShowsFormatWord, S.ShowsVersionWord;
    FinderShown(grid, version, codewords, 3, 3);
    FinderShown(grid, version, codewords, Size(version) - 4, 3);
    FinderShown(grid, version, codewords, 3, Size(version) - 4);
    TimingShown(grid, version, codewords);
    AlignmentShown(grid, version, codewords);
    FormatShown(grid, version, codewords);
    VersionShown(grid, version, codewords);
  }

  /* ---- The data region and its order ---- */

  lemma NearIsNear(version: nat, n: int)
    requires IsVersion(version)
    ensures S.NearCentre(version, n) <==> NearAlign(version, n)
  {
    var far, middle := Far(version), Middle(version);
    assert version >= 2 ==> far in S.Centres(version);
    assert version >= 7 ==> middle in S.Centres(version);
    assert forall c :: c in S.Centres(version) ==> c == far || c == middle;
  }

  lemma FreeIsData(version: nat, x: int, y: int)
    requires IsVersion(version) && 0 <= x < Size(version) && 0 <= y < Size(version)
    ensures IsFree(version, x, y) <==> S.IsDataModule(version, x, y)
  {
    hide S.NearCentre, NearAlign;
    NearIsNear(version, x);
    NearIsNear(version, y);
    TopNotNear(version, x);
    TopNotNear(version, y);
  }

  lemma TopNotNear(version: nat, n: int)
    requires IsVersion(version)
    ensures NearAlign(version, n) ==> 9 <= n && n < Size(version) - 4
  {
  }

  /** The data modules among the first k turns of strip c, in order. */
  ghost function CellsIn(version: nat, c: nat, k: nat): (cells: seq<S.Cell>)
    ensures |cells| == FreeIn(version, c, k)
  {
    if k == 0 then []
    else
      var (x, y) := (CellX(version, c, k - 1), CellY(version, c, k - 1));
      CellsIn(version, c, k - 1) + (if IsFree(version, x, y) then [(x, y)] else [])
  }

  ghost function CellsBefore(version: nat, c: nat): (cells: seq<S.Cell>)
    ensures |cells| == FreeBefore(version, c)
  {
    if c == 0 then [] else CellsBefore(version, c - 1) + CellsIn(version, c - 1, 2 * Size(version))
  }

  /** Cell j of a list of turns comes from this turn. */
  ghost predicate IsTurn(version: nat, c: nat, k: nat, cell: S.Cell) {
    cell == (CellX(version, c, k), CellY(version, c, k)) && IsFree(version, cell.0, cell.1)
  }

  lemma {:induction false} CellInStrip(version: nat, c: nat, k: nat, j: nat) returns (t: nat)
    requires j < FreeIn(version, c, k)
    ensures t < k && IsTurn(version, c, t, CellsIn(version, c, k)[j]) && FreeIn(version, c, t) == j
  {
    hide IsFree, CellX, CellY;
    if j < FreeIn(version, c, k - 1) {
      t := CellInStrip(version, c, k - 1, j);
    } else {
      t := k - 1;
    }
  }

  lemma {:induction false} CellOfTurn(version: nat, c: nat, k: nat, t: nat)
    requires t < k && IsFree(version, CellX(version, c, t), CellY(version, c, t))
    ensures FreeIn(version, c, t) < FreeIn(version, c, k)
    ensures CellsIn(version, c, k)[FreeIn(version, c, t)] == (CellX(version, c, t), CellY(version, c, t))
  {
    hide IsFree, CellX, CellY;
    if t < k - 1 {
      CellOfTurn(version, c, k - 1, t);
    }
  }

  /** Where cell j of the first c strips comes from, and that its place is its data index. */
  lemma {:induction false} CellPlace(version: nat, c: nat, j: nat) returns (d: nat, t: nat)
    requires j < FreeBefore(version, c)
    ensures d < c && t < 2 * Size(version) && IsTurn(version, d, t, CellsBefore(version, c)[j])
    ensures j == FreeBefore(version, d) + FreeIn(version, d, t)
  {
    hide IsFree, CellX, CellY, FreeIn, CellsIn, Size;
    if j < FreeBefore(version, c - 1) {
      d, t := CellPlace(version, c - 1, j);
    } else {
      d := c - 1;
      t := CellInStrip(version, d, 2 * Size(version), j - FreeBefore(version, d));
    }
  }

  lemma {:induction false} CellListed(version: nat, c: nat, d: nat, t: nat)
    requires d < c && t < 2 * Size(version) && IsFree(version, CellX(version, d, t), CellY(version, d, t))
    ensures FreeBefore(version, d) + FreeIn(version, d, t) < FreeBefore(version, c)
    ensures CellsBefore(version, c)[FreeBefore(version, d) + FreeIn(version, d, t)] == (CellX(version, d, t), CellY(version, d, t))
  {
    hide IsFree, CellX, CellY, FreeIn, CellsIn, Size;
    if d < c - 1 {
      CellListed(version, c - 1, d, t);
    } else {
      CellOfTurn(version, d, 2 * Size(version), t);
    }
  }

  /** Turns that come later are read later. */
  lemma TurnsPrecede(version: nat, c: nat, k: nat, d: nat, t: nat)
    requires IsVersion(version) && c < Strips(version) && d < Strips(version) && k < 2 * Size(version) && t < 2 * Size(version)
    requires c < d || (c == d && k < t)
    ensures S.Precedes(Size(version), (CellX(version, c, k), CellY(version, c, k)), (CellX(version, d, t), CellY(version, d, t)))
  {
    PairIsStrip(version, c, k);
    PairIsStrip(version, d, t);
  }

  lemma PairIsStrip(version: nat, c: nat, k: nat)
    requires IsVersion(version) && c < Strips(version)
    ensures S.PairOf(Size(version), CellX(version, c, k)) == c
  {
  }

  lemma {:induction false} FreeInGrows(version: nat, c: nat, k: nat, t: nat)
    requires k <= t
    ensures FreeIn(version, c, k) <= FreeIn(version, c, t)
  {
    hide IsFree;
    if k < t {
      FreeInGrows(version, c, k, t - 1);
    }
  }

  lemma {:induction false} FreeBeforeGrows(version: nat, c: nat, d: nat)
    requires c <= d
    ensures FreeBefore(version, c) <= FreeBefore(version, d)
  {
    hide FreeIn;
    if c < d {
      FreeBeforeGrows(version, c, d - 1);
    }
  }

  /** Data indices do not fall from turn to turn. */
  lemma IndexGrows(version: nat, d: nat, t: nat, c: nat, k: nat)
    requires t <= 2 * Size(version) && (d < c || (d == c && t <= k))
    ensures FreeBefore(version, d) + FreeIn(version, d, t) <= FreeBefore(version, c) + FreeIn(version, c, k)
  {
    hide FreeIn, Size;
    if d < c {
      FreeBeforeGrows(version, d + 1, c);
      FreeInGrows(version, d, t, 2 * Size(version));
    } else {
      FreeInGrows(version, c, t, k);
    }
  }

  /** A smaller data index comes from an earlier turn. */
  lemma EarlierTurn(version: nat, c: nat, k: nat, d: nat, t: nat)
    requires k < 2 * Size(version) && t < 2 * Size(version)
    requires FreeBefore(version, c) + FreeIn(version, c, k) < FreeBefore(version, d) + FreeIn(version, d, t)
    ensures c < d || (c == d && k < t)
  {
    hide FreeIn, FreeBefore, Size;
    if d < c || (d == c && t <= k) {
      IndexGrows(version, d, t, c, k);
    }
  }

  /** The turns of the zigzag list the data modules in reading order. */
  lemma ReadingOrder(version: nat)
    requires IsVersion(version)
    ensures S.IsReadingOrder(version, CellsBefore(version, Strips(version)))
  {
    hide IsFree, CellX, CellY, FreeIn, FreeBefore, CellsBefore, S.Precedes, S.IsDataModule, Strips;
    var order := CellsBefore(version, Strips(version));
    forall i, j | 0 <= i < j < |order| ensures S.Precedes(Size(version), order[i], order[j]) {
      var c, k := CellPlace(version, Strips(version), i);
      var d, t := CellPlace(version, Strips(version), j);
      EarlierTurn(version, c, k, d, t);
      TurnsPrecede(version, c, k, d, t);
    }
    forall x, y ensures (x, y) in order <==> S.IsDataModule(version, x, y) {
      DataListed(version, x, y);
    }
  }

  lemma DataListed(version: nat, x: int, y: int)
    requires IsVersion(version)
    ensures (x, y) in CellsBefore(version, Strips(version)) <==> S.IsDataModule(version, x, y)
  {
    hide IsFree, CellX, CellY, FreeIn, FreeBefore, CellsBefore, Strips, StripOf, TurnOf, S.NearCentre;
    var order := CellsBefore(version, Strips(version));
    if (x, y) in order {
      var j :| 0 <= j < |order| && order[j] == (x, y);
      var d, t := CellPlace(version, Strips(version), j);
      ZigzagOnce(version, d, t);
      FreeIsData(version, x, y);
    }
    if S.IsDataModule(version, x, y) {
      ZigzagReaches(version, x, y);
      FreeIsData(version, x, y);
      CellListed(version, Strips(version), StripOf(version, x), TurnOf(version, x, y));
    }
  }

  function HalfOf(o: Octet): Octet {
    Octet(false, o.b7, o.b6, o.b5, o.b4, o.b3, o.b2, o.b1)
  }

  lemma {:induction false} BitIsBit(o: Octet, i: nat)
    requires i < 8
    ensures OctetBits(o)[7 - i] == S.NumberBit(Value(o), i)
    decreases i
  {
    hide Value, Power2;
    ValueHalves(o);
    if i > 0 {
      BitIsBit(HalfOf(o), i - 1);
      PowerHalves(Value(o), i);
    } else {
      PowerOfNone();
    }
  }

  lemma PowerOfNone()
    ensures Power2(0) == 1
  {
  }

  lemma PowerHalves(n: nat, i: nat)
    requires 0 < i < 8
    ensures n / Power2(i) == n / 2 / Power2(i - 1)
  {
    hide Power2;
    Powers();
  }

  /** Module k of the order shows bit k of the codewords, masked. */
  lemma CodewordsShown(grid: S.Grid, version: nat, codewords: seq<Octet>)
    requires IsVersion(version) && Shows(grid, version, codewords)
    ensures S.ShowsCodewords(grid, CellsBefore(version, Strips(version)), codewords)
  {
    hide IsFree, CellX, CellY, FreeIn, FreeBefore, CellsBefore, Strips, Module, S.CodewordBit;
    var order := CellsBefore(version, Strips(version));
    forall k | 0 <= k < |order|
      ensures grid(order[k].0, order[k].1) == (S.CodewordBit(codewords, k) != ((order[k].0 + order[k].1) % 2 == 0))
    {
      var d, t := CellPlace(version, Strips(version), k);
      ModuleShown(grid, version, codewords, d, t);
      StreamBitIs(codewords, k);
    }
  }

  lemma StreamBitIs(codewords: seq<Octet>, k: nat)
    ensures StreamBit(codewords, k) == S.CodewordBit(codewords, k)
  {
    hide OctetBits, S.NumberBit, Value;
    if k < 8 * |codewords| {
      BitIsBit(codewords[k / 8], 7 - k % 8);
    }
  }

  lemma ModuleShown(grid: S.Grid, version: nat, codewords: seq<Octet>, d: nat, t: nat)
    requires IsVersion(version) && Shows(grid, version, codewords) && d < Strips(version) && t < 2 * Size(version)
    requires IsFree(version, CellX(version, d, t), CellY(version, d, t))
    ensures var (x, y) := (CellX(version, d, t), CellY(version, d, t));
            grid(x, y) == (StreamBit(codewords, FreeBefore(version, d) + FreeIn(version, d, t)) != ((x + y) % 2 == 0))
  {
    hide CellX, CellY, FreeIn, FreeBefore, Strips, IsFunction, StripOf, TurnOf, StreamBit;
    ZigzagOnce(version, d, t);
  }

  /** Every module of the drawn symbol is as a scanner expects it. */
  lemma SymbolShown(grid: S.Grid, version: nat, codewords: seq<Octet>)
    requires IsVersion(version) && Shows(grid, version, codewords)
    ensures S.ShowsSymbol(grid, version, codewords)
  {
    hide Shows, S.ShowsFinders, S.ShowsTiming, S.ShowsAlignment, S.ShowsFormatWord, S.ShowsVersionWord, S.IsReadingOrder, S.ShowsCodewords, CellsBefore, Strips;
    PatternsShown(grid, version, codewords);
    ReadingOrder(version);
    CodewordsShown(grid, version, codewords);
  }

  lemma RoomFor(version: nat, codewords: seq<Octet>)
    requires IsVersion(version) && |codewords| == TotalCapacity(version)
    ensures S.HasRoom(version, codewords)
  {
    hide S.IsReadingOrder, CellsBefore, Strips, TotalCapacity, FreeBefore;
    ReadingOrder(version);
    DataModulesCount(version);
  }

  /** The reader finds the three finders by their runs. */
  lemma FindersFound(grid: S.Grid, version: nat, codewords: seq<Octet>)
    requires IsVersion(version) && Shows(grid, version, codewords)
    ensures S.HasFinders(grid, Size(version))
  {
    hide Shows, S.ShowsFinder, S.IsFinder, S.ShowsTiming, S.ShowsAlignment, S.ShowsFormatWord, S.ShowsVersionWord;
    PatternsShown(grid, version, codewords);
    S.FinderHasRuns(grid, Size(version), 3, 3);
    S.FinderHasRuns(grid, Size(version), Size(version) - 4, 3);
    S.FinderHasRuns(grid, Size(version), 3, Size(version) - 4);
  }
}
