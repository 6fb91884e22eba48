/**
 * What a QR symbol of error correction level L and mask 0 looks like to a scanner, module by module
 * and codeword by codeword, for versions 1 to 10 (ISO/IEC 18004:2015); but from version 7 on without
 * the two alignment patterns on the timing lines, which the encoder skips.
 */
module QrSymbol {
  import opened Arithmetic
  import opened Galois
  import RS = ReedSolomon

  /** A module's colour by column and row; true is dark. */
  type Grid = (int, int) -> bool

  /** The size of a version, in modules. */
  function SizeOf(version: int): int {
    4 * version + 17
  }

  /* ---- Finder, timing and alignment patterns ---- */

  /** On the square ring at this distance. */
  predicate OnRing(dx: int, dy: int, distance: int) {
    ((dx == distance || dx == -distance) && -distance <= dy <= distance)
    || ((dy == distance || dy == -distance) && -distance <= dx <= distance)
  }

  /** A dark square of three, a light ring, a dark ring, and light around it as far as the symbol goes. */
  predicate ShowsFinder(grid: Grid, size: int, cx: int, cy: int) {
    && (forall dx, dy :: -3 <= dx <= 3 && -3 <= dy <= 3 ==> grid(cx + dx, cy + dy) == !OnRing(dx, dy, 2))
    && (forall dx, dy :: OnRing(dx, dy, 4) && 0 <= cx + dx < size && 0 <= cy + dy < size ==> !grid(cx + dx, cy + dy))
  }

  predicate ShowsFinders(grid: Grid, size: int) {
    ShowsFinder(grid, size, 3, 3) && ShowsFinder(grid, size, size - 4, 3) && ShowsFinder(grid, size, 3, size - 4)
  }

  /** Seven modules in a line: dark, light, three dark, light, dark. */
  predicate ShowsRuns(grid: Grid, x: int, y: int, dx: int, dy: int) {
    && grid(x, y) && !grid(x + dx, y + dy)
    && grid(x + 2 * dx, y + 2 * dy) && grid(x + 3 * dx, y + 3 * dy) && grid(x + 4 * dx, y + 4 * dy)
    && !grid(x + 5 * dx, y + 5 * dy) && grid(x + 6 * dx, y + 6 * dy)
  }

  /** The runs 1:1:3:1:1 that scanners look for, in the three rows and the three columns through a finder's centre. */
  predicate IsFinder(grid: Grid, cx: int, cy: int) {
    && ShowsRuns(grid, cx - 3, cy - 1, 1, 0) && ShowsRuns(grid, cx - 3, cy, 1, 0) && ShowsRuns(grid, cx - 3, cy + 1, 1, 0)
    && ShowsRuns(grid, cx - 1, cy - 3, 0, 1) && ShowsRuns(grid, cx, cy - 3, 0, 1) && ShowsRuns(grid, cx + 1, cy - 3, 0, 1)
  }

  predicate HasFinders(grid: Grid, size: int) {
    IsFinder(grid, 3, 3) && IsFinder(grid, size - 4, 3) && IsFinder(grid, 3, size - 4)
  }

  /** Between the finders, modules alternate, dark at even coordinates. */
  predicate ShowsTiming(grid: Grid, size: int) {
    forall i :: 8 <= i <= size - 9 ==> grid(i, 6) == (i % 2 == 0) && grid(6, i) == (i % 2 == 0)
  }

  /** The coordinates of alignment patterns, without those on the timing lines (Annex E). */
  function Centres(version: int): set<int> {
    if version == 2 then {18} else if version == 3 then {22} else if version == 4 then {26} else if version == 5 then {30}
    else if version == 6 then {34} else if version == 7 then {22, 38} else if version == 8 then {24, 42}
    else if version == 9 then {26, 46} else if version == 10 then {28, 50} else {}
  }

  /** At each of them a dark module, a light ring and a dark ring. */
  predicate ShowsAlignment(grid: Grid, version: int) {
    forall cx, cy, dx, dy :: cx in Centres(version) && cy in Centres(version) && -2 <= dx <= 2 && -2 <= dy <= 2 ==>
      grid(cx + dx, cy + dy) == !OnRing(dx, dy, 1)
  }

  /* ---- Format and version information ---- */

  /** Bit i of the format word of level L and mask 0, 111011111000100 (Table C.1). */
  predicate FormatBit(i: int) {
    i == 14 || i == 13 || i == 12 || i == 10 || i == 9 || i == 8 || i == 7 || i == 6 || i == 2
  }

  /** Both copies, bit by bit along the edges of the finders, and the module that is always dark (section 7.9.1). */
  predicate ShowsFormatWord(grid: Grid, size: int) {
    && (forall i :: 0 <= i <= 5 ==> grid(8, i) == FormatBit(i))
    && grid(8, 7) == FormatBit(6) && grid(8, 8) == FormatBit(7) && grid(7, 8) == FormatBit(8)
    && (forall i :: 9 <= i <= 14 ==> grid(14 - i, 8) == FormatBit(i))
    && (forall i :: 0 <= i <= 7 ==> grid(size - 1 - i, 8) == FormatBit(i))
    && (forall i :: 8 <= i <= 14 ==> grid(8, size - 15 + i) == FormatBit(i))
    && grid(8, size - 8)
  }

  /** The version words of Annex D. */
  function VersionNumber(version: int): int {
    if version == 7 then 0x07c94 else if version == 8 then 0x085bc else if version == 9 then 0x09a99 else 0x0a4d3
  }

  /** Bit i of a number. */
  predicate NumberBit(n: int, i: nat) {
    n / Power2(i) % 2 == 1
  }

  /** Both blocks, from version 7 on (section 7.10). */
  predicate ShowsVersionWord(grid: Grid, version: int) {
    version >= 7 ==>
      forall i :: 0 <= i < 18 ==>
        && grid(SizeOf(version) - 11 + i % 3, i / 3) == NumberBit(VersionNumber(version), i)
        && grid(i / 3, SizeOf(version) - 11 + i % 3) == NumberBit(VersionNumber(version), i)
  }

  /* ---- The data region ---- */

  predicate NearCentre(version: int, n: int) {
    exists c :: c in Centres(version) && -2 <= n - c <= 2
  }

  /** Neither finder, timing, alignment nor information: the modules that carry codewords. */
  predicate IsDataModule(version: int, x: int, y: int) {
    var size := SizeOf(version);
    && 0 <= x < size && 0 <= y < size && x != 6 && y != 6
    && !(x < 9 && y < 9) && !(x >= size - 8 && y < 9) && !(x < 9 && y >= size - 8)
    && !(version >= 7 && size - 11 <= x < size - 8 && y < 6) && !(version >= 7 && size - 11 <= y < size - 8 && x < 6)
    && !(NearCentre(version, x) && NearCentre(version, y))
  }

  type Cell = (int, int)

  /** The pair of columns a column belongs to, from the right; the timing column is in none. */
  function PairOf(size: int, x: int): int {
    if x > 6 then (size - 1 - x) / 2 else (size - 2 - x) / 2
  }

  /** Pairs go from right to left, the first upwards and then in turns; in each row the right module comes first. */
  predicate Precedes(size: int, a: Cell, b: Cell) {
    var (p, q) := (PairOf(size, a.0), PairOf(size, b.0));
    || p < q
    || (p == q && (if p % 2 == 0 then a.1 > b.1 else a.1 < b.1))
    || (p == q && a.1 == b.1 && a.0 > b.0)
  }

  /** All data modules, in that order. */
  ghost predicate IsReadingOrder(version: int, order: seq<Cell>) {
    && (forall i, j :: 0 <= i < j < |order| ==> Precedes(SizeOf(version), order[i], order[j]))
    && (forall x, y :: (x, y) in order <==> IsDataModule(version, x, y))
  }

  /** Bit k of the codewords, most significant first; beyond them, zero. */
  predicate CodewordBit(codewords: seq<Octet>, k: nat) {
    k < 8 * |codewords| && NumberBit(Value(codewords[k / 8]), 7 - k % 8)
  }

  /** Module k of the order shows bit k, inverted where column and row add up to an even number. */
  ghost predicate ShowsCodewords(grid: Grid, order: seq<Cell>, codewords: seq<Octet>) {
    forall k :: 0 <= k < |order| ==> grid(order[k].0, order[k].1) == (CodewordBit(codewords, k) != ((order[k].0 + order[k].1) % 2 == 0))
  }

  /* ---- The codewords (Tables 7 and 9) ---- */

  function DataCount(version: int): nat {
    if version == 1 then 19 else if version == 2 then 34 else if version == 3 then 55 else if version == 4 then 80
    else if version == 5 then 108 else if version == 6 then 136 else if version == 7 then 156 else if version == 8 then 194
    else if version == 9 then 232 else 274
  }

  /** The most bytes that a version holds (Table 7). */
  function ByteCount(version: int): nat {
    if version == 1 then 17 else if version == 2 then 32 else if version == 3 then 53 else if version == 4 then 78
    else if version == 5 then 106 else if version == 6 then 134 else if version == 7 then 154 else if version == 8 then 192
    else if version == 9 then 230 else 271
  }

  /** Error correction codewords of each block. */
  function EccCount(version: int): nat {
    if version == 1 then 7 else if version == 2 then 10 else if version == 3 then 15 else if version == 4 then 20
    else if version == 5 then 26 else if version == 6 then 18 else if version == 7 then 20 else if version == 8 then 24
    else if version == 9 then 30 else 18
  }

  function BlockCount(version: int): nat {
    if version <= 5 then 1 else if version <= 9 then 2 else 4
  }

  /** Data codewords of block b, and where they begin in the message. */
  function BlockData(version: int, b: nat): nat {
    if version == 10 then (if b < 2 then 68 else 69) else DataCount(version) / BlockCount(version)
  }

  function BlockStart(version: int, b: nat): nat {
    if version == 10 && b == 3 then 205 else b * (if version == 10 then 68 else DataCount(version) / BlockCount(version))
  }

  /** Where codeword i of block b stands: the blocks take turns, and the shorter ones drop out first. */
  function DataPlace(version: int, b: nat, i: nat): int {
    if version == 10 && i == 68 then 272 + (b - 2) else i * BlockCount(version) + b
  }

  function EccPlace(version: int, b: nat, i: nat): nat {
    DataCount(version) + i * BlockCount(version) + b
  }

  /** Block b as a scanner collects it: data and error correction. */
  function BlockOf(stream: seq<Octet>, version: int, b: nat): (block: seq<Octet>)
  {
    seq(BlockData(version, b), i requires 0 <= i < BlockData(version, b) => At(stream, DataPlace(version, b, i)))
    + seq(EccCount(version), i requires 0 <= i < EccCount(version) => At(stream, EccPlace(version, b, i)))
  }

  function At(stream: seq<Octet>, k: int): Octet {
    if 0 <= k < |stream| then stream[k] else ZERO
  }

  /** The message split into blocks, each of which is a codeword of the Reed-Solomon code, and interleaved. */
  ghost predicate IsStream(stream: seq<Octet>, version: int, message: seq<Octet>) {
    && |message| == DataCount(version) && |stream| == DataCount(version) + BlockCount(version) * EccCount(version)
    && (forall b, i :: 0 <= b < BlockCount(version) && 0 <= i < BlockData(version, b) ==>
          At(stream, DataPlace(version, b, i)) == At(message, BlockStart(version, b) + i))
    && (forall b, e :: 0 <= b < BlockCount(version) && 0 <= e < EccCount(version) ==>
          RS.Eval(BlockOf(stream, version, b), Alpha(e)) == ZERO)
  }

  /** The count of the bytes and the bytes, as octets: the count takes two from version 10 on. */
  function Counted(version: int, bytes: seq<Octet>): (numbers: seq<nat>)
    ensures |numbers| == |bytes| + (if version < 10 then 1 else 2)
  {
    (if version < 10 then [|bytes|] else [|bytes| / 256, |bytes| % 256]) + seq(|bytes|, i requires 0 <= i < |bytes| => Value(bytes[i]))
  }

  /** Octet k of the numbers, preceded by mode 4 and followed by zeros, all moved by half an octet. */
  function HalfShifted(numbers: seq<nat>, k: nat): nat {
    16 * ((if k == 0 then 4 else if k <= |numbers| then numbers[k - 1] else 0) % 16) + (if k < |numbers| then numbers[k] / 16 else 0)
  }

  /** Byte mode, the count, the bytes, the terminator, and then 11101100 and 00010001 in turns. */
  ghost predicate IsMessage(message: seq<Octet>, version: int, bytes: seq<Octet>) {
    var numbers := Counted(version, bytes);
    && |numbers| < |message| == DataCount(version)
    && (forall k :: 0 <= k <= |numbers| ==> Value(message[k]) == HalfShifted(numbers, k))
    && (forall k :: |numbers| < k < |message| ==> Value(message[k]) == if (k - |numbers|) % 2 == 1 then 0xec else 0x11)
  }

  /* ---- The symbol ---- */

  /** A symbol of a version, showing the codewords in reading order. */
  ghost predicate ShowsSymbol(grid: Grid, version: int, stream: seq<Octet>) {
    && ShowsFinders(grid, SizeOf(version)) && ShowsTiming(grid, SizeOf(version)) && ShowsAlignment(grid, version)
    && ShowsFormatWord(grid, SizeOf(version)) && ShowsVersionWord(grid, version)
    && exists order :: IsReadingOrder(version, order) && ShowsCodewords(grid, order, stream)
  }

  /** The symbol has a module for every bit. */
  ghost predicate HasRoom(version: int, stream: seq<Octet>) {
    exists order :: IsReadingOrder(version, order) && |order| >= 8 * |stream|
  }

  /** The symbol of this size for these bytes. */
  ghost predicate IsSymbol(size: int, grid: Grid, bytes: seq<Octet>) {
    exists version, message, stream ::
      && 1 <= version <= 10 && size == SizeOf(version)
      && IsMessage(message, version, bytes) && IsStream(stream, version, message) && HasRoom(version, stream)
      && ShowsSymbol(grid, version, stream)
  }

  /* ---- The field behind the error correction ---- */

  /** Doubling, modulo x^8 + x^4 + x^3 + x^2 + 1: the eighth power of 2 is 29, and 2 is a root of that polynomial. */
  lemma FieldPolynomial(a: Octet)
    ensures forall k :: 0 <= k < 8 ==> Value(Alpha(k)) == Power2(k)
    ensures Value(Alpha(8)) == 29
    ensures Value(a) < 128 ==> Value(Mul(Alpha(1), a)) == 2 * Value(a)
    ensures Value(a) >= 128 ==> Value(Add(Mul(Alpha(1), a), Alpha(8))) == 2 * Value(a) - 256
  {
    hide Mul;
    MulAlpha(1, a);
    FirstPowers();
    Doubling(a);
  }

  lemma FirstPowers()
    ensures forall k :: 0 <= k < 8 ==> Value(Alpha(k)) == Power2(k)
    ensures Value(Alpha(8)) == 29 && Alpha(8) == Octet(false, false, false, true, true, true, false, true)
  {
    assert Alpha(4) == Octet(false, false, false, true, false, false, false, false);
    AlphaSuccessor(4);
    AlphaSuccessor(5);
    AlphaSuccessor(6);
    AlphaSuccessor(7);
    assert Power2(3) == 8 && Power2(5) == 32 && Power2(7) == 128;
  }

  lemma Doubling(a: Octet)
    ensures Pow(1, a) == XTime(a)
    ensures Value(a) < 128 ==> Value(XTime(a)) == 2 * Value(a)
    ensures Value(a) >= 128 ==>
              Value(Add(XTime(a), Octet(false, false, false, true, true, true, false, true))) == 2 * Value(a) - 256
  {
  }

  lemma OffRing(n: int, d: int)
    requires -1 <= n <= 1 && -3 <= d <= 3
    ensures OnRing(d, n, 2) == OnRing(n, d, 2) == (d == 2 || d == -2)
  {
  }

  lemma RunAt(grid: Grid, cx: int, cy: int, n: int, d: int)
    requires -1 <= n <= 1 && -3 <= d <= 3
    requires forall dx, dy :: -3 <= dx <= 3 && -3 <= dy <= 3 ==> grid(cx + dx, cy + dy) == !OnRing(dx, dy, 2)
    ensures grid(cx + d, cy + n) == grid(cx + n, cy + d) == (d != 2 && d != -2)
  {
    hide OnRing;
    OffRing(n, d);
  }

  lemma LineRuns(grid: Grid, cx: int, cy: int, n: int)
    requires -1 <= n <= 1
    requires forall dx, dy :: -3 <= dx <= 3 && -3 <= dy <= 3 ==> grid(cx + dx, cy + dy) == !OnRing(dx, dy, 2)
    ensures ShowsRuns(grid, cx - 3, cy + n, 1, 0) && ShowsRuns(grid, cx + n, cy - 3, 0, 1)
  {
    hide OnRing;
    RunAt(grid, cx, cy, n, -3);
    RunAt(grid, cx, cy, n, -2);
    RunAt(grid, cx, cy, n, -1);
    RunAt(grid, cx, cy, n, 0);
    RunAt(grid, cx, cy, n, 1);
    RunAt(grid, cx, cy, n, 2);
    RunAt(grid, cx, cy, n, 3);
  }

  /** A finder shows the runs. */
  lemma FinderHasRuns(grid: Grid, size: int, cx: int, cy: int)
    requires ShowsFinder(grid, size, cx, cy)
    ensures IsFinder(grid, cx, cy)
  {
    hide OnRing, ShowsRuns;
    LineRuns(grid, cx, cy, -1);
    LineRuns(grid, cx, cy, 0);
    LineRuns(grid, cx, cy, 1);
  }
}
