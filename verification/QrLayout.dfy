/** Where a QR symbol's function patterns lie, and in which order the other modules carry data. */
module QrLayout {
  import opened QrBits

  function Size(version: nat): nat {
    version * 4 + 17
  }

  function Abs(n: int): nat {
    if n < 0 then -n else n
  }

  /** Distance in moves of a chess king. */
  function Reach(dx: int, dy: int): nat {
    if Abs(dx) < Abs(dy) then Abs(dy) else Abs(dx)
  }

  /* ---- Function patterns ---- */

  predicate OnTiming(x: int, y: int) {
    x == 6 || y == 6
  }

  /** A finder with its separator. */
  predicate AtFinder(cx: int, cy: int, x: int, y: int) {
    Reach(x - cx, y - cy) <= 4
  }

  function FinderDark(cx: int, cy: int, x: int, y: int): bool {
    Reach(x - cx, y - cy) != 2 && Reach(x - cx, y - cy) != 4
  }

  /** The alignment coordinates of each version. */
  function Align(version: nat): seq<nat>
    requires IsVersion(version)
  {
    match version
    case 1 => [] case 2 => [6, 18] case 3 => [6, 22] case 4 => [6, 26] case 5 => [6, 30] case 6 => [6, 34]
    case 7 => [6, 22, 38] case 8 => [6, 24, 42] case 9 => [6, 26, 46] case _ => [6, 28, 50]
  }

  /** The last alignment coordinate, and the middle one that versions from 7 have. */
  function Far(version: nat): int {
    Size(version) - 7
  }

  function Middle(version: nat): int {
    2 * version + 8
  }

  /** A coordinate within two of an alignment coordinate other than 6. */
  predicate NearAlign(version: nat, n: int) {
    version >= 2 && (Abs(n - Far(version)) <= 2 || (version >= 7 && Abs(n - Middle(version)) <= 2))
  }

  function AlignCentre(version: nat, n: int): int {
    if version >= 7 && Abs(n - Middle(version)) <= 2 then Middle(version) else Far(version)
  }

  predicate InAlignment(version: nat, x: int, y: int) {
    NearAlign(version, x) && NearAlign(version, y)
  }

  function AlignDark(version: nat, x: int, y: int): bool {
    Reach(x - AlignCentre(version, x), y - AlignCentre(version, y)) != 1
  }

  /** Coordinate n lies within two of the table's entry q, which is not the timing line's. */
  predicate Hits(align: seq<nat>, q: nat, n: int)
    requires q < |align|
  {
    align[q] != 6 && Abs(n - align[q]) <= 2
  }

  predicate HitsBefore(align: seq<nat>, q: nat, n: int)
    requires q <= |align|
  {
    q > 0 && (HitsBefore(align, q - 1, n) || Hits(align, q - 1, n))
  }

  /** The alignment pattern that row entry p and column entry q of the table stand for. */
  predicate CentreCovers(align: seq<nat>, p: nat, q: nat, x: int, y: int)
    requires p < |align| && q < |align|
  {
    Hits(align, q, x) && Hits(align, p, y)
  }

  predicate RowCovers(align: seq<nat>, p: nat, q: nat, x: int, y: int)
    requires p < |align| && q <= |align|
  {
    HitsBefore(align, q, x) && Hits(align, p, y)
  }

  predicate RowsCover(align: seq<nat>, p: nat, x: int, y: int)
    requires p <= |align|
  {
    HitsBefore(align, |align|, x) && HitsBefore(align, p, y)
  }

  lemma HitsListed(version: nat, n: int)
    requires IsVersion(version)
    ensures HitsBefore(Align(version), |Align(version)|, n) <==> NearAlign(version, n)
  {
    var align := Align(version);
    if |align| >= 2 {
      assert !HitsBefore(align, 0, n);
      assert !HitsBefore(align, 1, n);
      assert HitsBefore(align, 2, n) == Hits(align, 1, n);
    }
  }

  /** An entry is hit by itself only. */
  lemma HitsOnce(version: nat, q: nat, n: int)
    requires IsVersion(version) && q < |Align(version)| && Hits(Align(version), q, n)
    ensures AlignCentre(version, n) == Align(version)[q] && NearAlign(version, n)
    ensures !HitsBefore(Align(version), q, n)
  {
    var align := Align(version);
    assert !HitsBefore(align, 0, n);
    assert !HitsBefore(align, 1, n);
  }

  lemma CentreShape(version: nat, p: nat, q: nat, x: int, y: int)
    requires IsVersion(version) && p < |Align(version)| && q < |Align(version)|
    requires CentreCovers(Align(version), p, q, x, y)
    ensures AlignDark(version, x, y) == (Reach(x - Align(version)[q], y - Align(version)[p]) != 1)
    ensures InAlignment(version, x, y)
  {
    hide Align, NearAlign, AlignCentre;
    HitsOnce(version, q, x);
    HitsOnce(version, p, y);
  }

  lemma EntryRange(version: nat, q: nat)
    requires IsVersion(version) && q < |Align(version)|
    ensures Align(version)[q] == 6 || 18 <= Align(version)[q] <= Size(version) - 7
  {
  }

  /** A pattern's centre is still unclaimed exactly when it lies off both timing lines. */
  lemma CentreUnclaimed(version: nat, p: nat, q: nat)
    requires IsVersion(version) && p < |Align(version)| && q < |Align(version)|
    ensures var (align, x, y) := (Align(version), Align(version)[q], Align(version)[p]);
            && x < Size(version) && y < Size(version)
            && (Claimed(4, version, x, y) <==> x == 6 || y == 6)
            && (x != 6 && y != 6 ==> !RowsCover(align, p, x, y) && !RowCovers(align, p, q, x, y))
  {
    hide Align;
    var align := Align(version);
    var x, y := align[q], align[p];
    EntryRange(version, p);
    EntryRange(version, q);
    if x != 6 && y != 6 {
      HitsOnce(version, q, x);
      HitsOnce(version, p, y);
    }
  }

  /** Which format bit a module carries: 0..14, or 15 for the module that is always dark. */
  function FormatIndex(version: nat, x: int, y: int): int {
    var size := Size(version);
    if x == 8 && 0 <= y <= 5 then y
    else if x == 8 && y == 7 then 6
    else if x == 8 && y == 8 then 7
    else if x == 7 && y == 8 then 8
    else if y == 8 && 0 <= x <= 5 then 14 - x
    else if y == 8 && size - 8 <= x < size then size - 1 - x
    else if x == 8 && size - 7 <= y < size then y - (size - 15)
    else if x == 8 && y == size - 8 then 15
    else -1
  }

  /** Which version bit a module carries, from version 7 on. */
  function VersionIndex(version: nat, x: int, y: int): int {
    var a := Size(version) - 11;
    if version < 7 then -1
    else if a <= x < a + 3 && 0 <= y < 6 then 3 * y + (x - a)
    else if a <= y < a + 3 && 0 <= x < 6 then 3 * x + (y - a)
    else -1
  }

  /** The stages in which the encoder claims modules for function patterns. */
  predicate Claimed(stage: nat, version: nat, x: int, y: int) {
    var s := Size(version);
    || (stage >= 1 && OnTiming(x, y))
    || (stage >= 2 && AtFinder(3, 3, x, y))
    || (stage >= 3 && AtFinder(s - 4, 3, x, y))
    || (stage >= 4 && AtFinder(3, s - 4, x, y))
    || (stage >= 5 && InAlignment(version, x, y))
    || (stage >= 6 && FormatIndex(version, x, y) >= 0)
    || (stage >= 7 && VersionIndex(version, x, y) >= 0)
  }

  /** The colour the last stage to write a claimed module gave it. */
  function Dark(stage: nat, version: nat, format: seq<bool>, info: seq<bool>, x: int, y: int): bool
    requires |format| == 15 && |info| == 18
  {
    var s := Size(version);
    if stage >= 7 && VersionIndex(version, x, y) >= 0 then info[VersionIndex(version, x, y)]
    else if stage >= 6 && FormatIndex(version, x, y) >= 0 then
      FormatIndex(version, x, y) == 15 || format[FormatIndex(version, x, y)]
    else if stage >= 5 && InAlignment(version, x, y) then AlignDark(version, x, y)
    else if stage >= 4 && AtFinder(3, s - 4, x, y) then FinderDark(3, s - 4, x, y)
    else if stage >= 3 && AtFinder(s - 4, 3, x, y) then FinderDark(s - 4, 3, x, y)
    else if stage >= 2 && AtFinder(3, 3, x, y) then FinderDark(3, 3, x, y)
    else if y == 6 then x % 2 == 0 else y % 2 == 0
  }

  /** A module outside the data region. */
  predicate IsFunction(version: nat, x: int, y: int) {
    Claimed(7, version, x, y)
  }

  /* ---- The zigzag ---- */

  /** The symbol has this many strips, each two modules wide; the vertical timing column is in none. */
  function Strips(version: nat): nat {
    2 * version + 8
  }

  /** The right-hand column of strip c, counted from the right edge. */
  function Right(version: nat, c: nat): int {
    var right := Size(version) - 1 - 2 * c;
    if right > 6 then right else right - 1
  }

  /** The k-th module visited in strip c; even strips run upwards. */
  function CellX(version: nat, c: nat, k: nat): int {
    Right(version, c) - k % 2
  }

  function CellY(version: nat, c: nat, k: nat): int {
    if c % 2 == 0 then Size(version) - 1 - k / 2 else k / 2
  }

  /** The strip a column belongs to, and a module's turn within it. */
  function StripOf(version: nat, x: nat): nat
    requires x < Size(version)
  {
    if x > 6 then (Size(version) - 1 - x) / 2 else (Size(version) - 2 - x) / 2
  }

  function TurnOf(version: nat, x: nat, y: nat): int
    requires x < Size(version) && y < Size(version)
  {
    var c := StripOf(version, x);
    2 * (if c % 2 == 0 then Size(version) - 1 - y else y) + (Right(version, c) - x)
  }

  /** The zigzag reaches every module outside the timing column... */
  lemma ZigzagReaches(version: nat, x: nat, y: nat)
    requires IsVersion(version) && x < Size(version) && y < Size(version) && x != 6
    ensures var (c, k) := (StripOf(version, x), TurnOf(version, x, y));
            && c < Strips(version) && 0 <= k < 2 * Size(version)
            && CellX(version, c, k) == x && CellY(version, c, k) == y
  {
    var c := StripOf(version, x);
    assert Right(version, c) - x == 0 || Right(version, c) - x == 1;
  }

  /** ...and reaches each of them only once. */
  lemma ZigzagOnce(version: nat, c: nat, k: nat)
    requires IsVersion(version) && c < Strips(version) && k < 2 * Size(version)
    ensures var (x, y) := (CellX(version, c, k), CellY(version, c, k));
            && 0 <= x < Size(version) && 0 <= y < Size(version) && x != 6
            && StripOf(version, x) == c && TurnOf(version, x, y) == k
  {
  }

  /* ---- Counting data modules ---- */

  predicate IsFree(version: nat, x: int, y: int) {
    !IsFunction(version, x, y)
  }

  /** Data modules among the first k visited in strip c. */
  function FreeIn(version: nat, c: nat, k: nat): nat {
    if k == 0 then 0
    else FreeIn(version, c, k - 1) + (if IsFree(version, CellX(version, c, k - 1), CellY(version, c, k - 1)) then 1 else 0)
  }

  /** Data modules in the strips before c. */
  function FreeBefore(version: nat, c: nat): nat {
    if c == 0 then 0 else FreeBefore(version, c - 1) + FreeIn(version, c - 1, 2 * Size(version))
  }

  /** A data module's place in the bit stream. */
  function DataIndex(version: nat, x: nat, y: nat): nat
    requires IsVersion(version) && x < Size(version) && y < Size(version) && x != 6
  {
    ZigzagReaches(version, x, y);
    FreeBefore(version, StripOf(version, x)) + FreeIn(version, StripOf(version, x), TurnOf(version, x, y))
  }

  /** Data modules of column x with lo <= y < hi. */
  function FreeRows(version: nat, x: int, lo: int, hi: int): nat
    decreases hi - lo
  {
    if hi <= lo then 0 else FreeRows(version, x, lo, hi - 1) + (if IsFree(version, x, hi - 1) then 1 else 0)
  }

  lemma {:induction false} RowsSplit(version: nat, x: int, lo: int, mid: int, hi: int)
    requires lo <= mid <= hi
    ensures FreeRows(version, x, lo, hi) == FreeRows(version, x, lo, mid) + FreeRows(version, x, mid, hi)
    decreases hi - mid
  {
    hide IsFree;
    if mid < hi {
      RowsSplit(version, x, lo, mid, hi - 1);
    }
  }

  lemma {:induction false} RowsAllFree(version: nat, x: int, lo: int, hi: int)
    requires lo <= hi && forall y :: lo <= y < hi ==> IsFree(version, x, y)
    ensures FreeRows(version, x, lo, hi) == hi - lo
    decreases hi - lo
  {
    hide IsFree;
    if lo < hi {
      RowsAllFree(version, x, lo, hi - 1);
    }
  }

  lemma {:induction false} RowsNoneFree(version: nat, x: int, lo: int, hi: int)
    requires lo <= hi && forall y :: lo <= y < hi ==> !IsFree(version, x, y)
    ensures FreeRows(version, x, lo, hi) == 0
    decreases hi - lo
  {
    hide IsFree;
    if lo < hi {
      RowsNoneFree(version, x, lo, hi - 1);
    }
  }

  /** The row of strip c that its turns 2 n - 2 and 2 n - 1 visit. */
  function RowOfTurns(version: nat, c: nat, n: nat): int {
    if c % 2 == 0 then Size(version) - n else n - 1
  }

  lemma TwoTurns(version: nat, c: nat, n: nat)
    requires 0 < n
    ensures var (x, y) := (Right(version, c), RowOfTurns(version, c, n));
            FreeIn(version, c, 2 * n)
              == FreeIn(version, c, 2 * (n - 1)) + (if IsFree(version, x, y) then 1 else 0) + (if IsFree(version, x - 1, y) then 1 else 0)
  {
    hide IsFree;
    var x, y := Right(version, c), RowOfTurns(version, c, n);
    assert CellX(version, c, 2 * n - 2) == x && CellX(version, c, 2 * n - 1) == x - 1;
    assert CellY(version, c, 2 * n - 2) == CellY(version, c, 2 * n - 1) == y;
    assert FreeIn(version, c, 2 * n - 1) == FreeIn(version, c, 2 * n - 2) + (if IsFree(version, x, y) then 1 else 0);
  }

  lemma FirstRow(version: nat, x: int, lo: int, hi: int)
    requires lo < hi
    ensures FreeRows(version, x, lo, hi) == (if IsFree(version, x, lo) then 1 else 0) + FreeRows(version, x, lo + 1, hi)
  {
    hide IsFree, FreeRows;
    RowsSplit(version, x, lo, lo + 1, hi);
    OneRow(version, x, lo);
  }

  /** A whole strip is its two columns. */
  lemma {:induction false} StripIsColumns(version: nat, c: nat, n: nat)
    requires n <= Size(version)
    ensures var (x, s) := (Right(version, c), Size(version));
            FreeIn(version, c, 2 * n)
              == if c % 2 == 0 then FreeRows(version, x, s - n, s) + FreeRows(version, x - 1, s - n, s)
                 else FreeRows(version, x, 0, n) + FreeRows(version, x - 1, 0, n)
  {
    hide IsFree, Right;
    if n > 0 {
      StripIsColumns(version, c, n - 1);
      TwoTurns(version, c, n);
      if c % 2 == 0 {
        var x, s := Right(version, c), Size(version);
        FirstRow(version, x, s - n, s);
        FirstRow(version, x - 1, s - n, s);
      }
    }
  }

  lemma OneRow(version: nat, x: int, y: int)
    ensures FreeRows(version, x, y, y + 1) == if IsFree(version, x, y) then 1 else 0
  {
    hide IsFree;
    assert FreeRows(version, x, y, y) == 0;
  }

  /* ---- The data modules of each column ---- */

  /** Rows of column x that alignment patterns claim. */
  function AlignedRows(version: nat, x: int): nat {
    if !NearAlign(version, x) then 0 else if version >= 7 then 10 else 5
  }

  function ColumnSize(version: nat, x: int): int {
    var s := Size(version);
    if x == 6 then 0
    else if x < 6 then s - 17 - (if version >= 7 then 3 else 0)
    else if x < 9 then s - 17
    else if x < s - 8 then s - 1 - AlignedRows(version, x) - (if version >= 7 && x >= s - 11 then 6 else 0)
    else s - 9 - AlignedRows(version, x)
  }

  /** Where the data rows of a column right of the left finders end at the bottom. */
  function Bottom(version: nat, x: int): int {
    if version >= 7 && x < 6 then Size(version) - 11 else Size(version) - 8
  }

  lemma LeftRowFree(version: nat, x: int, y: int)
    requires IsVersion(version) && 0 <= x < 9 && x != 6 && 0 <= y < Size(version)
    ensures IsFree(version, x, y) <==> 9 <= y < Bottom(version, x)
  {
  }

  lemma RightRowFree(version: nat, x: int, y: int)
    requires IsVersion(version) && 9 <= x < Size(version) && 0 <= y < Size(version)
    ensures IsFree(version, x, y) <==>
      && y != 6
      && !(x >= Size(version) - 8 && y < 9)
      && !(version >= 7 && Size(version) - 11 <= x < Size(version) - 8 && y < 6)
      && !(NearAlign(version, x) && NearAlign(version, y))
  {
  }

  lemma LeftColumn(version: nat, x: int)
    requires IsVersion(version) && 0 <= x < 9 && x != 6
    ensures FreeRows(version, x, 0, Size(version)) == ColumnSize(version, x)
  {
    hide IsFree;
    var s, top := Size(version), Bottom(version, x);
    forall y | 0 <= y < s ensures IsFree(version, x, y) <==> 9 <= y < top {
      LeftRowFree(version, x, y);
    }
    RowsSplit(version, x, 0, 9, s);
    RowsSplit(version, x, 9, top, s);
    RowsNoneFree(version, x, 0, 9);
    RowsAllFree(version, x, 9, top);
    RowsNoneFree(version, x, top, s);
  }

  /** Rows that are free except for a band of five. */
  lemma RowsAroundBand(version: nat, x: int, lo: int, n: int, hi: int)
    requires lo <= n - 2 && n + 3 <= hi
    requires forall y :: lo <= y < hi ==> (IsFree(version, x, y) <==> Abs(y - n) > 2)
    ensures FreeRows(version, x, lo, hi) == hi - lo - 5
  {
    hide IsFree;
    RowsSplit(version, x, lo, n - 2, hi);
    RowsSplit(version, x, n - 2, n + 3, hi);
    RowsAllFree(version, x, lo, n - 2);
    RowsNoneFree(version, x, n - 2, n + 3);
    RowsAllFree(version, x, n + 3, hi);
  }

  /** Below its top patterns, a column right of the finders is free but for alignment patterns. */
  lemma BelowTop(version: nat, x: int, top: int)
    requires IsVersion(version) && 9 <= x < Size(version) && 7 <= top <= 9
    requires x >= Size(version) - 8 ==> top == 9
    ensures FreeRows(version, x, top, Size(version)) == Size(version) - top - AlignedRows(version, x)
  {
    hide IsFree, FreeRows;
    var s, f, m := Size(version), Far(version), Middle(version);
    forall y | top <= y < s ensures IsFree(version, x, y) <==> !(NearAlign(version, x) && NearAlign(version, y)) {
      RightRowFree(version, x, y);
    }
    if !NearAlign(version, x) {
      RowsAllFree(version, x, top, s);
    } else if version < 7 {
      RowsAroundBand(version, x, top, f, s);
    } else {
      RowsSplit(version, x, top, f - 2, s);
      RowsAroundBand(version, x, top, m, f - 2);
      RowsAroundBand(version, x, f - 2, f, s);
    }
  }

  lemma RightColumn(version: nat, x: int)
    requires IsVersion(version) && 9 <= x < Size(version)
    ensures FreeRows(version, x, 0, Size(version)) == ColumnSize(version, x)
  {
    hide IsFree, NearAlign;
    var s := Size(version);
    forall y | 0 <= y < 9 ensures IsFree(version, x, y) <==>
      y != 6 && x < s - 8 && !(version >= 7 && s - 11 <= x && y < 6)
    {
      RightRowFree(version, x, y);
      TopNotAligned(version, y);
    }
    if x >= s - 8 {
      RowsSplit(version, x, 0, 9, s);
      RowsNoneFree(version, x, 0, 9);
      BelowTop(version, x, 9);
    } else {
      RowsSplit(version, x, 0, 6, s);
      RowsSplit(version, x, 6, 7, s);
      if version >= 7 && x >= s - 11 {
        RowsNoneFree(version, x, 0, 6);
      } else {
        RowsAllFree(version, x, 0, 6);
      }
      RowsNoneFree(version, x, 6, 7);
      BelowTop(version, x, 7);
    }
  }

  lemma TopNotAligned(version: nat, y: int)
    requires IsVersion(version) && y < 9
    ensures !NearAlign(version, y)
  {
  }

  lemma ColumnCounted(version: nat, x: int)
    requires IsVersion(version) && 0 <= x < Size(version) && x != 6
    ensures FreeRows(version, x, 0, Size(version)) == ColumnSize(version, x)
  {
    if x >= 9 {
      RightColumn(version, x);
    } else {
      LeftColumn(version, x);
    }
  }

  lemma StripSize(version: nat, c: nat)
    requires IsVersion(version) && c < Strips(version)
    ensures FreeIn(version, c, 2 * Size(version))
         == ColumnSize(version, Right(version, c)) + ColumnSize(version, Right(version, c) - 1)
  {
    hide ColumnSize, FreeRows, FreeIn;
    StripIsColumns(version, c, Size(version));
    ColumnCounted(version, Right(version, c));
    ColumnCounted(version, Right(version, c) - 1);
  }

  function SumOfColumns(version: nat, c: nat): int {
    if c == 0 then 0
    else SumOfColumns(version, c - 1) + ColumnSize(version, Right(version, c - 1)) + ColumnSize(version, Right(version, c - 1) - 1)
  }

  lemma {:induction false} FreeIsSumOfColumns(version: nat, c: nat)
    requires IsVersion(version) && c <= Strips(version)
    ensures FreeBefore(version, c) == SumOfColumns(version, c)
  {
    hide ColumnSize, FreeIn, Right;
    if c > 0 {
      FreeIsSumOfColumns(version, c - 1);
      StripSize(version, c - 1);
    }
  }

  /** What function patterns other than the timing row take from strips 4 to c - 1. */
  function Lost(version: nat, c: nat): nat {
    var right, m := Size(version) - 1 - 2 * c, Middle(version);
    (if version >= 2 && c > 4 then AlignedRows(version, Far(version)) else 0)
    + (if version < 7 || c <= 4 then 0 else if c == 5 then 12 else 18)
    + (if version < 7 || right > m then 0 else if right == m then 20 else if right == m - 2 then 40 else 50)
  }

  lemma MiddleStrip(version: nat, c: nat)
    requires IsVersion(version) && 4 <= c < 4 + 2 * version
    ensures ColumnSize(version, Right(version, c)) + ColumnSize(version, Right(version, c) - 1)
         == 2 * (Size(version) - 1) - (Lost(version, c + 1) - Lost(version, c))
  {
  }

  lemma RightStrips(version: nat)
    requires IsVersion(version)
    ensures SumOfColumns(version, 4)
         == 8 * (Size(version) - 9) - (if version >= 2 then 4 * AlignedRows(version, Far(version)) else 0)
  {
    assert SumOfColumns(version, 1) == 2 * (Size(version) - 9);
    assert SumOfColumns(version, 2) == 4 * (Size(version) - 9);
    assert SumOfColumns(version, 3)
        == 6 * (Size(version) - 9) - (if version >= 2 then 2 * AlignedRows(version, Far(version)) else 0);
  }

  /** Where the first n middle strips bring the sum, before what they lose. */
  function Gained(version: nat, n: nat): nat {
    if n == 0 then 0 else Gained(version, n - 1) + 2 * (Size(version) - 1)
  }

  lemma NothingLost(version: nat)
    ensures Lost(version, 4) == 0
  {
  }

  lemma {:induction false} MiddleStrips(version: nat, n: nat)
    requires IsVersion(version) && n <= 2 * version
    ensures SumOfColumns(version, 4 + n)
         == SumOfColumns(version, 4) + Gained(version, n) - Lost(version, 4 + n)
  {
    hide ColumnSize, Right, Lost, Size;
    if n > 0 {
      MiddleStrips(version, n - 1);
      MiddleStrip(version, 4 + n - 1);
    } else {
      NothingLost(version);
    }
  }

  lemma {:induction false} GainedIsProduct(version: nat, n: nat)
    ensures Gained(version, n) == n * (8 * version + 32)
  {
    if n > 0 {
      GainedIsProduct(version, n - 1);
      assert n * (8 * version + 32) == (n - 1) * (8 * version + 32) + (8 * version + 32);
    }
  }

  lemma LeftStrips(version: nat)
    requires IsVersion(version)
    ensures SumOfColumns(version, Strips(version))
         == SumOfColumns(version, 4 + 2 * version) + 8 * (Size(version) - 17) - (if version >= 7 then 18 else 0)
  {
    hide SumOfColumns;
    var c := 4 + 2 * version;
    LeftStrip(version, c);
    LeftStrip(version, c + 1);
    LeftStrip(version, c + 2);
    LeftStrip(version, c + 3);
  }

  lemma LeftStrip(version: nat, c: nat)
    requires IsVersion(version) && 4 + 2 * version <= c < Strips(version)
    ensures SumOfColumns(version, c + 1)
         == SumOfColumns(version, c) + 2 * (Size(version) - 17) - (if version >= 7 && c > 4 + 2 * version then 6 else 0)
  {
  }

  lemma SumOfAllColumns(version: nat)
    requires IsVersion(version)
    ensures SumOfColumns(version, Strips(version))
         == 8 * (Size(version) - 9) + Gained(version, 2 * version) + 8 * (Size(version) - 17)
            - (if version == 1 then 0 else if version < 7 then 25 else 50 + 68 + 18)
  {
    hide SumOfColumns, Gained;
    RightStrips(version);
    MiddleStrips(version, 2 * version);
    LeftStrips(version);
  }

  /** The data modules the encoder's own function map leaves. */
  function DataModules(version: nat): nat {
    FreeBefore(version, Strips(version))
  }

  /** The bits left over after the codewords in the standard's own symbols (Table 1 of ISO/IEC 18004:2015). */
  function StandardRemainderBits(version: nat): nat {
    if 2 <= version <= 6 then 7 else 0
  }

  /**
   * The data region is the standard's exactly up to version 6. From version 7 on it is 40 modules
   * larger: two alignment patterns lie on the timing lines, and the encoder skips them.
   */
  lemma StandardDataRegion(version: nat)
    requires IsVersion(version)
    ensures DataModules(version) == 8 * TotalCapacity(version) + StandardRemainderBits(version) <==> version <= 6
  {
    DataModulesCount(version);
  }

  /** No codeword bit is dropped: the data region holds all codewords, and the surplus is exactly this. */
  lemma DataModulesCount(version: nat)
    requires IsVersion(version)
    ensures DataModules(version)
         == 8 * TotalCapacity(version) + (if version == 1 then 0 else if version <= 6 then 7 else 40)
  {
    FreeIsSumOfColumns(version, Strips(version));
    SumOfAllColumns(version);
    GainedIsProduct(version, 2 * version);
    hide FreeBefore, SumOfColumns, Gained;
    TwiceSquare(version);
  }

  lemma TwiceSquare(version: nat)
    requires IsVersion(version)
    ensures 2 * version * (8 * version + 32) == match version
      case 1 => 80 case 2 => 192 case 3 => 336 case 4 => 512 case 5 => 720
      case 6 => 960 case 7 => 1232 case 8 => 1536 case 9 => 1872 case _ => 2240
  {
  }

  /* ---- Masks ---- */

  /** The standard's eight data masks (Table 10 of ISO/IEC 18004:2015). */
  function MaskBit(mask: nat, x: nat, y: nat): bool
    requires mask < 8
  {
    match mask
    case 0 => (x + y) % 2 == 0
    case 1 => y % 2 == 0
    case 2 => x % 3 == 0
    case 3 => (x + y) % 3 == 0
    case 4 => (y / 2 + x / 3) % 2 == 0
    case 5 => (x * y) % 2 + (x * y) % 3 == 0
    case 6 => ((x * y) % 2 + (x * y) % 3) % 2 == 0
    case _ => ((x + y) % 2 + (x * y) % 3) % 2 == 0
  }
}
