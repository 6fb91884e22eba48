/** The symbol's module matrix, drawn cell by cell. */
module QrMatrix {
  import opened Galois
  import opened QrBits
  import opened QrLayout

  /** The low n bits of a word, least significant first. */
  function WordBits(word: bv32, n: nat): (bits: seq<bool>)
    ensures |bits| == n
  {
    if n == 0 then [] else [word & 1 == 1] + WordBits(word >> 1, n - 1)
  }

  /** One step of the format word's BCH division register, whose top bit is bit 9. */
  function StepFormat(rem: bv32): bv32 {
    (rem << 1) ^ (if rem & 0x200 != 0 then 0x537 else 0)
  }

  /** The register never outgrows its top bit, so multiplying by that bit is the same as testing it. */
  lemma FormatStepMultiplies(rem: bv32)
    requires rem < 0x400
    ensures (rem << 1) ^ ((rem >> 9) * 0x537) == StepFormat(rem) && StepFormat(rem) < 0x400
  {
    FormatTopBit(rem);
    FormatStepBound(rem);
  }

  lemma FormatTopBit(rem: bv32)
    requires rem < 0x400
    ensures rem >> 9 == if rem & 0x200 != 0 then 1 else 0
  {
  }

  lemma FormatStepBound(rem: bv32)
    requires rem < 0x400
    ensures StepFormat(rem) < 0x400
  {
  }

  function DivideFormat(rem: bv32, n: nat): bv32
    decreases n
  {
    if n == 0 then rem else DivideFormat(StepFormat(rem), n - 1)
  }

  /** One step of the version word's division register; its top bit is bit 11. */
  function StepVersion(rem: bv32): bv32 {
    (rem << 1) ^ (if rem & 0x800 != 0 then 0x1f25 else 0)
  }

  lemma VersionStepMultiplies(rem: bv32)
    requires rem < 0x1000
    ensures (rem << 1) ^ ((rem >> 11) * 0x1f25) == StepVersion(rem) && StepVersion(rem) < 0x1000
  {
    VersionTopBit(rem);
    VersionStepBound(rem);
  }

  lemma VersionTopBit(rem: bv32)
    requires rem < 0x1000
    ensures rem >> 11 == if rem & 0x800 != 0 then 1 else 0
  {
  }

  lemma VersionStepBound(rem: bv32)
    requires rem < 0x1000
    ensures StepVersion(rem) < 0x1000
  {
  }

  function DivideVersion(rem: bv32, n: nat): bv32
    decreases n
  {
    if n == 0 then rem else DivideVersion(StepVersion(rem), n - 1)
  }

  function FormatOf(data: bv32, rem: bv32): bv32 {
    ((data << 10) | rem) ^ 0x5412
  }

  function VersionOf(version: bv32, rem: bv32): bv32 {
    (version << 12) | rem
  }

  /** Level L with a mask, protected and masked (section 7.9.1 of ISO/IEC 18004:2015). */
  function FormatWord(mask: bv32): bv32 {
    FormatOf(8 | mask, DivideFormat(8 | mask, 10))
  }

  /** The version number, protected (section 7.10 of ISO/IEC 18004:2015). */
  function VersionWord(version: bv32): bv32 {
    VersionOf(version, DivideVersion(version, 12))
  }

  /** The standard's published sequence for level L and mask 0 (Table C.1). */
  lemma FormatWordPublished()
    ensures FormatWord(0) == 0x77c4
  {
    assert DivideFormat(0x8, 10) == DivideFormat(0x40, 7);
    assert DivideFormat(0x40, 7) == DivideFormat(0x200, 4);
    assert DivideFormat(0x200, 4) == DivideFormat(0x1eb, 1);
    assert DivideFormat(0x1eb, 1) == 0x3d6;
  }

  /** Bit i of the codewords, most significant first; beyond them, light. */
  function StreamBit(codewords: seq<Octet>, i: nat): bool {
    i < 8 * |codewords| && OctetBits(codewords[i / 8])[i % 8]
  }

  /** The module's data bit, before masking. */
  function DataBit(version: nat, codewords: seq<Octet>, x: nat, y: nat): bool
    requires IsVersion(version) && x < Size(version) && y < Size(version) && x != 6
  {
    StreamBit(codewords, DataIndex(version, x, y))
  }

  function FormatBits(): (bits: seq<bool>)
    ensures |bits| == 15
  {
    WordBits(FormatWord(0), 15)
  }

  function InfoBits(version: nat): (bits: seq<bool>)
    requires IsVersion(version)
    ensures |bits| == 18
  {
    WordBits(VersionWord(version as bv32), 18)
  }

  /** The finished symbol, module by module. */
  function Module(version: nat, codewords: seq<Octet>, x: nat, y: nat): bool
    requires IsVersion(version) && x < Size(version) && y < Size(version)
  {
    if IsFunction(version, x, y) then Dark(7, version, FormatBits(), InfoBits(version), x, y)
    else DataBit(version, codewords, x, y) != MaskBit(0, x, y)
  }

  class Matrix {
    const size: nat
    const modules: array2<bool>
    const func: array2<bool>

    ghost predicate Valid() {
      && modules != func
      && modules.Length0 == size && modules.Length1 == size
      && func.Length0 == size && func.Length1 == size
    }

    constructor (version: nat)
      ensures Valid() && size == Size(version) && fresh(modules) && fresh(func)
      ensures forall y, x :: 0 <= y < size && 0 <= x < size ==> !modules[y, x] && !func[y, x]
    {
      size := version * 4 + 17;
      modules := new bool[version * 4 + 17, version * 4 + 17]((_, _) => false);
      func := new bool[version * 4 + 17, version * 4 + 17]((_, _) => false);
    }

    /** Writes one function module; coordinates outside the symbol are ignored. */
    method Set(xx: int, yy: int, dark: bool)
      requires Valid()
      modifies modules, func
      ensures forall y, x :: 0 <= y < size && 0 <= x < size ==>
                func[y, x] == (old(func[y, x]) || (x == xx && y == yy))
      ensures forall y, x :: 0 <= y < size && 0 <= x < size ==>
                modules[y, x] == if x == xx && y == yy then dark else old(modules[y, x])
    {
      if xx >= 0 && yy >= 0 && xx < size && yy < size {
        modules[yy, xx] := dark;
        func[yy, xx] := true;
      }
    }

    method Finder(cx: int, cy: int)
      requires Valid()
      modifies modules, func
      ensures forall y, x :: 0 <= y < size && 0 <= x < size ==>
                func[y, x] == (old(func[y, x]) || AtFinder(cx, cy, x, y))
      ensures forall y, x :: 0 <= y < size && 0 <= x < size ==>
                modules[y, x] == if AtFinder(cx, cy, x, y) then FinderDark(cx, cy, x, y) else old(modules[y, x])
    {
      for dy := -4 to 5
        invariant forall y, x :: 0 <= y < size && 0 <= x < size ==>
                    func[y, x] == (old(func[y, x]) || (AtFinder(cx, cy, x, y) && y < cy + dy))
        invariant forall y, x :: 0 <= y < size && 0 <= x < size ==>
                    modules[y, x] == if AtFinder(cx, cy, x, y) && y < cy + dy then FinderDark(cx, cy, x, y) else old(modules[y, x])
      {
        for dx := -4 to 5
          invariant forall y, x :: 0 <= y < size && 0 <= x < size ==>
                      func[y, x] == (old(func[y, x]) || (AtFinder(cx, cy, x, y) && (y < cy + dy || (y == cy + dy && x < cx + dx))))
          invariant forall y, x :: 0 <= y < size && 0 <= x < size ==>
                      modules[y, x] == if AtFinder(cx, cy, x, y) && (y < cy + dy || (y == cy + dy && x < cx + dx)) then FinderDark(cx, cy, x, y) else old(modules[y, x])
        {
          var dist := Reach(dx, dy);
          Set(cx + dx, cy + dy, dist != 2 && dist != 4);
        }
      }
    }

    /** Stage k of the drawing is complete: exactly its modules are claimed, and they show its colours. */
    ghost predicate Drawn(stage: nat, version: nat, format: seq<bool>, info: seq<bool>)
      requires |format| == 15 && |info| == 18
      requires Valid()
      reads modules, func
    {
      && (forall y, x :: 0 <= y < size && 0 <= x < size ==> func[y, x] == Claimed(stage, version, x, y))
      && (forall y, x :: 0 <= y < size && 0 <= x < size && Claimed(stage, version, x, y) ==>
            modules[y, x] == Dark(stage, version, format, info, x, y))
    }

    method Timing()
      requires Valid() && size > 6
      requires forall y, x :: 0 <= y < size && 0 <= x < size ==> !func[y, x]
      modifies modules, func
      ensures forall y, x :: 0 <= y < size && 0 <= x < size ==> func[y, x] == OnTiming(x, y)
      ensures forall y, x :: 0 <= y < size && 0 <= x < size && OnTiming(x, y) ==>
                modules[y, x] == if y == 6 then x % 2 == 0 else y % 2 == 0
    {
      for i := 0 to size
        invariant forall y, x :: 0 <= y < size && 0 <= x < size ==>
                    func[y, x] == ((x == 6 && y < i) || (y == 6 && x < i))
        invariant forall y, x :: 0 <= y < size && 0 <= x < size && ((x == 6 && y < i) || (y == 6 && x < i)) ==>
                    modules[y, x] == if y == 6 then x % 2 == 0 else y % 2 == 0
      {
        Set(6, i, i % 2 == 0);
        Set(i, 6, i % 2 == 0);
      }
    }

    /** Timing lines and the three finders. */
    method Finders(version: nat, ghost format: seq<bool>, ghost info: seq<bool>)
      requires Valid() && IsVersion(version) && size == Size(version)
      requires |format| == 15 && |info| == 18
      requires forall y, x :: 0 <= y < size && 0 <= x < size ==> !func[y, x]
      modifies modules, func
      ensures Drawn(4, version, format, info)
    {
      hide AtFinder, FinderDark, OnTiming;
      Timing();
      assert Drawn(1, version, format, info);
      Finder(3, 3);
      assert Drawn(2, version, format, info);
      Finder(size - 4, 3);
      assert Drawn(3, version, format, info);
      Finder(3, size - 4);
    }

    /** One alignment pattern. */
    method Pattern(cx: int, cy: int)
      requires Valid()
      modifies modules, func
      ensures forall y, x :: 0 <= y < size && 0 <= x < size ==>
                func[y, x] == (old(func[y, x]) || Reach(x - cx, y - cy) <= 2)
      ensures forall y, x :: 0 <= y < size && 0 <= x < size ==>
                modules[y, x] == if Reach(x - cx, y - cy) <= 2 then Reach(x - cx, y - cy) != 1 else old(modules[y, x])
    {
      for dy := -2 to 3
        invariant forall y, x :: 0 <= y < size && 0 <= x < size ==>
                    func[y, x] == (old(func[y, x]) || (Reach(x - cx, y - cy) <= 2 && y < cy + dy))
        invariant forall y, x :: 0 <= y < size && 0 <= x < size ==>
                    modules[y, x] == if Reach(x - cx, y - cy) <= 2 && y < cy + dy then Reach(x - cx, y - cy) != 1 else old(modules[y, x])
      {
        for dx := -2 to 3
          invariant forall y, x :: 0 <= y < size && 0 <= x < size ==>
                      func[y, x] == (old(func[y, x]) || (Reach(x - cx, y - cy) <= 2 && (y < cy + dy || (y == cy + dy && x < cx + dx))))
          invariant forall y, x :: 0 <= y < size && 0 <= x < size ==>
                      modules[y, x] == if Reach(x - cx, y - cy) <= 2 && (y < cy + dy || (y == cy + dy && x < cx + dx))
                                       then Reach(x - cx, y - cy) != 1 else old(modules[y, x])
        {
          Set(cx + dx, cy + dy, Reach(dx, dy) != 1);
        }
      }
    }

    method Alignment(version: nat, ghost format: seq<bool>, ghost info: seq<bool>)
      requires Valid() && IsVersion(version) && size == Size(version)
      requires |format| == 15 && |info| == 18
      requires Drawn(4, version, format, info)
      modifies modules, func
      ensures Drawn(5, version, format, info)
    {
      hide Reach, InAlignment, AlignDark, CentreCovers, RowCovers, RowsCover, Claimed, Align;
      var align := Align(version);
      NothingCovered(align);
      for p := 0 to |align|
        invariant forall y, x :: 0 <= y < size && 0 <= x < size ==>
                    func[y, x] == (Claimed(4, version, x, y) || RowsCover(align, p, x, y))
        invariant forall y, x :: 0 <= y < size && 0 <= x < size ==>
                    modules[y, x] == if RowsCover(align, p, x, y) then AlignDark(version, x, y) else old(modules[y, x])
      {
        for q := 0 to |align|
          invariant forall y, x :: 0 <= y < size && 0 <= x < size ==>
                      func[y, x] == (Claimed(4, version, x, y) || RowsCover(align, p, x, y) || RowCovers(align, p, q, x, y))
          invariant forall y, x :: 0 <= y < size && 0 <= x < size ==>
                      modules[y, x] == if RowsCover(align, p, x, y) || RowCovers(align, p, q, x, y) then AlignDark(version, x, y) else old(modules[y, x])
        {
          AlignmentEntry(version, p, q);
        }
        RowComplete(align, p);
      }
      AlignmentComplete(version);
      StageFive(version, format, info);
    }

    /** One entry of the alignment loop: skipped when its centre is already claimed. */
    method AlignmentEntry(version: nat, p: nat, q: nat)
      requires Valid() && IsVersion(version) && size == Size(version)
      requires p < |Align(version)| && q < |Align(version)|
      requires forall y, x :: 0 <= y < size && 0 <= x < size ==>
                 func[y, x] == (Claimed(4, version, x, y) || RowsCover(Align(version), p, x, y) || RowCovers(Align(version), p, q, x, y))
      modifies modules, func
      ensures forall y, x :: 0 <= y < size && 0 <= x < size ==>
                func[y, x] == (old(func[y, x]) || CentreCovers(Align(version), p, q, x, y))
      ensures forall y, x :: 0 <= y < size && 0 <= x < size ==>
                modules[y, x] == if CentreCovers(Align(version), p, q, x, y) then AlignDark(version, x, y) else old(modules[y, x])
      ensures forall x, y :: RowCovers(Align(version), p, q + 1, x, y)
                         == (RowCovers(Align(version), p, q, x, y) || CentreCovers(Align(version), p, q, x, y))
    {
      var align := Align(version);
      var yy, xx := align[p], align[q];
      CentreUnclaimed(version, p, q);
      hide InAlignment, AlignDark, RowsCover, RowCovers, CentreCovers, Claimed, Align, Reach;
      RowExtends(align, p, q);
      if func[yy, xx] {
        return;
      }
      EntryShape(version, p, q);
      Pattern(xx, yy);
    }

    lemma EntryShape(version: nat, p: nat, q: nat)
      requires IsVersion(version) && p < |Align(version)| && q < |Align(version)|
      requires Align(version)[p] != 6 && Align(version)[q] != 6
      ensures forall x: int, y: int :: CentreCovers(Align(version), p, q, x, y) ==
                (Reach(x - Align(version)[q], y - Align(version)[p]) <= 2)
      ensures forall x: int, y: int :: CentreCovers(Align(version), p, q, x, y) ==>
                AlignDark(version, x, y) == (Reach(x - Align(version)[q], y - Align(version)[p]) != 1)
    {
      hide AlignDark, Align;
      forall x: int, y: int | CentreCovers(Align(version), p, q, x, y)
        ensures AlignDark(version, x, y) == (Reach(x - Align(version)[q], y - Align(version)[p]) != 1)
      {
        CentreShape(version, p, q, x, y);
      }
    }

    lemma NothingCovered(align: seq<nat>)
      ensures forall x, y :: !RowsCover(align, 0, x, y)
      ensures forall p: nat, x, y :: p < |align| ==> !RowCovers(align, p, 0, x, y)
    {
    }

    lemma RowExtends(align: seq<nat>, p: nat, q: nat)
      requires p < |align| && q < |align|
      ensures forall x, y :: RowCovers(align, p, q + 1, x, y) == (RowCovers(align, p, q, x, y) || CentreCovers(align, p, q, x, y))
      ensures align[p] == 6 || align[q] == 6 ==> forall x, y :: !CentreCovers(align, p, q, x, y)
    {
    }

    lemma RowComplete(align: seq<nat>, p: nat)
      requires p < |align|
      ensures forall x, y :: RowsCover(align, p + 1, x, y) == (RowsCover(align, p, x, y) || RowCovers(align, p, |align|, x, y))
    {
    }

    lemma AlignmentComplete(version: nat)
      requires IsVersion(version)
      ensures forall x, y :: RowsCover(Align(version), |Align(version)|, x, y) == InAlignment(version, x, y)
    {
      forall x, y ensures RowsCover(Align(version), |Align(version)|, x, y) == InAlignment(version, x, y) {
        HitsListed(version, x);
        HitsListed(version, y);
      }
    }

    lemma StageFive(version: nat, format: seq<bool>, info: seq<bool>)
      requires IsVersion(version) && |format| == 15 && |info| == 18
      ensures forall x, y :: Claimed(5, version, x, y) == (Claimed(4, version, x, y) || InAlignment(version, x, y))
      ensures forall x, y :: Dark(5, version, format, info, x, y)
                          == if InAlignment(version, x, y) then AlignDark(version, x, y) else Dark(4, version, format, info, x, y)
    {
      hide InAlignment, AlignDark, AtFinder, FinderDark, OnTiming;
    }

    /** The format bits around the first finder. */
    method FormatCorner(version: nat, format: seq<bool>)
      requires Valid() && size == Size(version) && version >= 1 && |format| == 15
      modifies modules, func
      ensures forall y, x :: 0 <= y < size && 0 <= x < size ==>
                func[y, x] == (old(func[y, x]) || (x <= 8 && y <= 8 && FormatIndex(version, x, y) >= 0))
      ensures forall y, x :: 0 <= y < size && 0 <= x < size ==>
                modules[y, x] == if x <= 8 && y <= 8 && FormatIndex(version, x, y) >= 0
                                 then format[FormatIndex(version, x, y)] else old(modules[y, x])
    {
      for i := 0 to 6
        invariant forall y, x :: 0 <= y < size && 0 <= x < size ==> func[y, x] == (old(func[y, x]) || (x == 8 && y < i))
        invariant forall y, x :: 0 <= y < size && 0 <= x < size ==>
                    modules[y, x] == if x == 8 && y < i then format[y] else old(modules[y, x])
      {
        Set(8, i, format[i]);
      }
      Set(8, 7, format[6]);
      Set(8, 8, format[7]);
      Set(7, 8, format[8]);
      label row:
      for i := 9 to 15
        invariant forall y, x :: 0 <= y < size && 0 <= x < size ==>
                    func[y, x] == (old@row(func[y, x]) || (y == 8 && 14 - i < x <= 5))
        invariant forall y, x :: 0 <= y < size && 0 <= x < size ==>
                    modules[y, x] == if y == 8 && 14 - i < x <= 5 then format[14 - x] else old@row(modules[y, x])
      {
        Set(14 - i, 8, format[i]);
      }
    }

    /** The second copy of the format bits, and the module that is always dark. */
    method FormatCopy(version: nat, format: seq<bool>)
      requires Valid() && size == Size(version) && version >= 1 && |format| == 15
      modifies modules, func
      ensures forall y, x :: 0 <= y < size && 0 <= x < size ==>
                func[y, x] == (old(func[y, x]) || (!(x <= 8 && y <= 8) && FormatIndex(version, x, y) >= 0))
      ensures forall y, x :: 0 <= y < size && 0 <= x < size ==>
                modules[y, x] == if !(x <= 8 && y <= 8) && FormatIndex(version, x, y) >= 0
                                 then FormatIndex(version, x, y) == 15 || format[FormatIndex(version, x, y)]
                                 else old(modules[y, x])
    {
      for i := 0 to 8
        invariant forall y, x :: 0 <= y < size && 0 <= x < size ==>
                    func[y, x] == (old(func[y, x]) || (y == 8 && x > size - 1 - i))
        invariant forall y, x :: 0 <= y < size && 0 <= x < size ==>
                    modules[y, x] == if y == 8 && x > size - 1 - i then format[size - 1 - x] else old(modules[y, x])
      {
        Set(size - 1 - i, 8, format[i]);
      }
      label column:
      for i := 8 to 15
        invariant forall y, x :: 0 <= y < size && 0 <= x < size ==>
                    func[y, x] == (old@column(func[y, x]) || (x == 8 && size - 7 <= y < size - 15 + i))
        invariant forall y, x :: 0 <= y < size && 0 <= x < size ==>
                    modules[y, x] == if x == 8 && size - 7 <= y < size - 15 + i then format[y - (size - 15)]
                                     else old@column(modules[y, x])
      {
        Set(8, size - 15 + i, format[i]);
      }
      Set(8, size - 8, true);
    }

    method Format(version: nat, mask: bv32)
      requires Valid() && size == Size(version) && version >= 1 && mask < 8
      modifies modules, func
      ensures forall y, x :: 0 <= y < size && 0 <= x < size ==>
                func[y, x] == (old(func[y, x]) || FormatIndex(version, x, y) >= 0)
      ensures forall y, x :: 0 <= y < size && 0 <= x < size ==>
                modules[y, x] == if FormatIndex(version, x, y) >= 0
                                 then FormatIndex(version, x, y) == 15 || WordBits(FormatWord(mask), 15)[FormatIndex(version, x, y)]
                                 else old(modules[y, x])
    {
      hide FormatIndex;
      FormatIndexCorner(version);
      var word := ComputeFormat(mask);
      var format := WordBits(word, 15);
      FormatCorner(version, format);
      FormatCopy(version, format);
    }

    lemma FormatIndexCorner(version: nat)
      requires version >= 1
      ensures forall x, y :: FormatIndex(version, x, y) <= 15
      ensures forall x, y :: x <= 8 && y <= 8 ==> FormatIndex(version, x, y) < 15
    {
    }

    method ComputeFormat(mask: bv32) returns (word: bv32)
      requires mask < 8
      ensures word == FormatWord(mask)
    {
      hide DivideFormat, FormatOf;
      var data := 8 | mask;
      SmallFormat(mask);
      var rem := RunFormat(data, 10);
      word := FormatOf(data, rem);
    }

    lemma SmallFormat(mask: bv32)
      requires mask < 8
      ensures 8 | mask < 0x400
    {
    }

    method RunFormat(data: bv32, steps: nat) returns (rem: bv32)
      requires data < 0x400
      ensures rem == DivideFormat(data, steps)
    {
      hide StepFormat;
      rem := data;
      for i := 0 to steps
        invariant rem < 0x400
        invariant DivideFormat(rem, steps - i) == DivideFormat(data, steps)
      {
        FormatStepMultiplies(rem);
        rem := (rem << 1) ^ ((rem >> 9) * 0x537);
      }
    }

    method ComputeVersion(version: bv32) returns (word: bv32)
      requires version < 0x1000
      ensures word == VersionWord(version)
    {
      hide DivideVersion, VersionOf;
      var rem := RunVersion(version, 12);
      word := VersionOf(version, rem);
    }

    method RunVersion(version: bv32, steps: nat) returns (rem: bv32)
      requires version < 0x1000
      ensures rem == DivideVersion(version, steps)
    {
      hide StepVersion;
      rem := version;
      for i := 0 to steps
        invariant rem < 0x1000
        invariant DivideVersion(rem, steps - i) == DivideVersion(version, steps)
      {
        VersionStepMultiplies(rem);
        rem := (rem << 1) ^ ((rem >> 11) * 0x1f25);
      }
    }

    /** Both copies of the version information, for versions that carry it. */
    method VersionInfo(version: nat)
      requires Valid() && IsVersion(version) && size == Size(version)
      modifies modules, func
      ensures forall y, x :: 0 <= y < size && 0 <= x < size ==>
                func[y, x] == (old(func[y, x]) || VersionIndex(version, x, y) >= 0)
      ensures forall y, x :: 0 <= y < size && 0 <= x < size ==>
                modules[y, x] == if VersionIndex(version, x, y) >= 0 then InfoBits(version)[VersionIndex(version, x, y)]
                                 else old(modules[y, x])
    {
      if version < 7 {
        return;
      }
      hide VersionWord, WordBits;
      var word := ComputeVersion(version as bv32);
      var info := WordBits(word, 18);
      for i := 0 to 18
        invariant forall y, x :: 0 <= y < size && 0 <= x < size ==>
                    func[y, x] == (old(func[y, x]) || 0 <= VersionIndex(version, x, y) < i)
        invariant forall y, x :: 0 <= y < size && 0 <= x < size ==>
                    modules[y, x] == if 0 <= VersionIndex(version, x, y) < i then info[VersionIndex(version, x, y)]
                                     else old(modules[y, x])
      {
        var a, b := size - 11 + i % 3, i / 3;
        VersionIndexAt(version, i);
        hide VersionIndex;
        Set(a, b, info[i]);
        Set(b, a, info[i]);
      }
    }

    lemma VersionIndexAt(version: nat, i: nat)
      requires 7 <= version <= 10 && i < 18
      ensures forall x, y :: VersionIndex(version, x, y) == i <==>
                (x == Size(version) - 11 + i % 3 && y == i / 3) || (y == Size(version) - 11 + i % 3 && x == i / 3)
    {
    }

    /* ---- The data modules ---- */

    /** Writes turn k of strip c, unless a function pattern owns the module. */
    method PlaceModule(version: nat, codewords: seq<Octet>, ghost c: nat, ghost k: nat, xx: int, yy: int, bitIndex: nat) returns (next: nat)
      requires Valid() && IsVersion(version) && size == Size(version)
      requires c < Strips(version) && k < 2 * size && xx == CellX(version, c, k) && yy == CellY(version, c, k)
      requires forall y, x :: 0 <= y < size && 0 <= x < size ==> func[y, x] == IsFunction(version, x, y)
      requires bitIndex == FreeBefore(version, c) + FreeIn(version, c, k)
      modifies modules
      ensures next == FreeBefore(version, c) + FreeIn(version, c, k + 1)
      ensures 0 <= xx < size && 0 <= yy < size && xx != 6
      ensures StripOf(version, xx) == c && TurnOf(version, xx, yy) == k
      ensures forall y, x :: 0 <= y < size && 0 <= x < size ==>
                modules[y, x] == if x == xx && y == yy && !IsFunction(version, x, y) then DataBit(version, codewords, xx, yy)
                                 else old(modules[y, x])
    {
      hide IsFunction, FreeIn, FreeBefore, StripOf, TurnOf, CellX, CellY, DataBit, Size, Strips, StreamBit, OctetBits;
      PlaceStep(version, codewords, c, k);
      next := bitIndex;
      if !func[yy, xx] {
        var bit := bitIndex < |codewords| * 8 && OctetBits(codewords[bitIndex / 8])[bitIndex % 8];
        StreamBitAt(codewords, bitIndex);
        modules[yy, xx] := bit;
        next := bitIndex + 1;
      }
    }

    lemma StreamBitAt(codewords: seq<Octet>, i: nat)
      ensures StreamBit(codewords, i) == (i < |codewords| * 8 && OctetBits(codewords[i / 8])[i % 8])
    {
      hide OctetBits;
    }

    lemma FreeStep(version: nat, c: nat, k: nat)
      ensures FreeIn(version, c, k + 1)
           == FreeIn(version, c, k) + (if IsFunction(version, CellX(version, c, k), CellY(version, c, k)) then 0 else 1)
    {
      hide IsFunction, CellX, CellY;
    }

    lemma PlaceStep(version: nat, codewords: seq<Octet>, c: nat, k: nat)
      requires IsVersion(version) && c < Strips(version) && k < 2 * Size(version)
      ensures var (x, y) := (CellX(version, c, k), CellY(version, c, k));
              && 0 <= x < Size(version) && 0 <= y < Size(version) && x != 6
              && StripOf(version, x) == c && TurnOf(version, x, y) == k
              && DataBit(version, codewords, x, y) == StreamBit(codewords, FreeBefore(version, c) + FreeIn(version, c, k))
              && FreeIn(version, c, k + 1) == FreeIn(version, c, k) + (if IsFunction(version, x, y) then 0 else 1)
    {
      hide IsFunction, FreeBefore, FreeIn, StreamBit, CellX, CellY, StripOf, TurnOf, Strips;
      ZigzagOnce(version, c, k);
      FreeStep(version, c, k);
    }

    /** One strip: two modules of each row, upwards or downwards. */
    method PlaceStrip(version: nat, codewords: seq<Octet>, ghost c: nat, right: int, up: bool, bitIndex: nat) returns (next: nat)
      requires Valid() && IsVersion(version) && size == Size(version)
      requires c < Strips(version) && right == Right(version, c) && up == (c % 2 == 0)
      requires forall y, x :: 0 <= y < size && 0 <= x < size ==> func[y, x] == IsFunction(version, x, y)
      requires bitIndex == FreeBefore(version, c)
      modifies modules
      ensures next == FreeBefore(version, c + 1)
      ensures forall y, x :: 0 <= y < size && 0 <= x < size ==>
                modules[y, x] == if x != 6 && StripOf(version, x) == c && !IsFunction(version, x, y)
                                 then DataBit(version, codewords, x, y) else old(modules[y, x])
    {
      hide IsFunction, FreeIn, FreeBefore, Right, DataBit, TurnOf, StripOf, DataIndex;
      next := bitIndex;
      StripStart(version, c);
      TurnsBounded(version);
      for vert := 0 to size
        invariant next == FreeBefore(version, c) + FreeIn(version, c, 2 * vert)
        invariant forall y, x :: 0 <= y < size && 0 <= x < size ==>
                    modules[y, x] == if x != 6 && StripOf(version, x) == c && TurnOf(version, x, y) < 2 * vert && !IsFunction(version, x, y)
                                     then DataBit(version, codewords, x, y) else old(modules[y, x])
      {
        var yy := if up then size - 1 - vert else vert;
        for j := 0 to 2
          invariant next == FreeBefore(version, c) + FreeIn(version, c, 2 * vert + j)
          invariant forall y, x :: 0 <= y < size && 0 <= x < size ==>
                      modules[y, x] == if x != 6 && StripOf(version, x) == c && TurnOf(version, x, y) < 2 * vert + j && !IsFunction(version, x, y)
                                       then DataBit(version, codewords, x, y) else old(modules[y, x])
        {
          TurnDetermines(version, c, 2 * vert + j);
          next := PlaceModule(version, codewords, c, 2 * vert + j, right - j, yy, next);
        }
      }
      TurnsBounded(version);
    }

    lemma StripStart(version: nat, c: nat)
      requires IsVersion(version)
      ensures FreeIn(version, c, 0) == 0
      ensures FreeBefore(version, c + 1) == FreeBefore(version, c) + FreeIn(version, c, 2 * Size(version))
    {
      hide FreeIn;
      NoneIn(version, c);
    }

    lemma NoneIn(version: nat, c: nat)
      ensures FreeIn(version, c, 0) == 0
    {
    }

    lemma TurnDetermines(version: nat, c: nat, k: nat)
      requires IsVersion(version) && c < Strips(version) && k < 2 * Size(version)
      ensures forall y: nat, x: nat :: x < Size(version) && y < Size(version) && x != 6
                && StripOf(version, x) == c && TurnOf(version, x, y) == k
                ==> x == CellX(version, c, k) && y == CellY(version, c, k)
    {
      forall y: nat, x: nat | x < Size(version) && y < Size(version) && x != 6
                && StripOf(version, x) == c && TurnOf(version, x, y) == k
        ensures x == CellX(version, c, k) && y == CellY(version, c, k)
      {
        ZigzagReaches(version, x, y);
      }
    }

    lemma TurnsBounded(version: nat)
      requires IsVersion(version)
      ensures forall y: nat, x: nat :: x < Size(version) && y < Size(version) && x != 6
                ==> 0 <= TurnOf(version, x, y) < 2 * Size(version) && StripOf(version, x) < Strips(version)
    {
      forall y: nat, x: nat | x < Size(version) && y < Size(version) && x != 6
        ensures 0 <= TurnOf(version, x, y) < 2 * Size(version) && StripOf(version, x) < Strips(version)
      {
        ZigzagReaches(version, x, y);
      }
    }

    /** The zigzag over all strips. */
    method Place(version: nat, codewords: seq<Octet>)
      requires Valid() && IsVersion(version) && size == Size(version)
      requires forall y, x :: 0 <= y < size && 0 <= x < size ==> func[y, x] == IsFunction(version, x, y)
      modifies modules
      ensures forall y, x :: 0 <= y < size && 0 <= x < size ==>
                modules[y, x] == if x != 6 && !IsFunction(version, x, y) then DataBit(version, codewords, x, y) else old(modules[y, x])
    {
      hide IsFunction, FreeIn, FreeBefore, StreamBit, DataIndex, DataBit, TurnOf, CellX, CellY;
      var bitIndex, up, right := 0, true, size - 1;
      NothingBefore(version);
      ghost var c: nat := 0;
      while right >= 1
        invariant c <= Strips(version)
        invariant right == if size - 1 - 2 * c >= 6 then size - 1 - 2 * c else size - 2 - 2 * c
        invariant up == (c % 2 == 0) && bitIndex == FreeBefore(version, c)
        invariant forall y, x :: 0 <= y < size && 0 <= x < size ==>
                    modules[y, x] == if x != 6 && StripOf(version, x) < c && !IsFunction(version, x, y)
                                     then DataBit(version, codewords, x, y) else old(modules[y, x])
        decreases right
      {
        if right == 6 {
          right := right - 1;
        }
        bitIndex := PlaceStrip(version, codewords, c, right, up, bitIndex);
        up := !up;
        right := right - 2;
        c := c + 1;
      }
      TurnsBounded(version);
    }

    lemma NothingBefore(version: nat)
      ensures FreeBefore(version, 0) == 0
    {
    }

    /** Inverts the masked data modules. */
    method Apply(version: nat, mask: nat)
      requires Valid() && IsVersion(version) && size == Size(version) && mask < 8
      modifies modules
      ensures forall y, x :: 0 <= y < size && 0 <= x < size ==>
                modules[y, x] == (old(modules[y, x]) != (!func[y, x] && MaskBit(mask, x, y)))
    {
      hide MaskBit;
      for yy := 0 to size
        invariant forall y, x :: 0 <= y < size && 0 <= x < size ==>
                    modules[y, x] == if y < yy then old(modules[y, x]) != (!func[y, x] && MaskBit(mask, x, y)) else old(modules[y, x])
      {
        for xx := 0 to size
          invariant forall y, x :: 0 <= y < size && 0 <= x < size ==>
                      modules[y, x] == if y < yy || (y == yy && x < xx) then old(modules[y, x]) != (!func[y, x] && MaskBit(mask, x, y))
                                       else old(modules[y, x])
        {
          if !func[yy, xx] && MaskBit(mask, xx, yy) {
            modules[yy, xx] := !modules[yy, xx];
          }
        }
      }
    }
  }

  lemma StageSix(version: nat, format: seq<bool>, info: seq<bool>)
    requires |format| == 15 && |info| == 18
    ensures forall x, y :: Claimed(6, version, x, y) == (Claimed(5, version, x, y) || FormatIndex(version, x, y) >= 0)
    ensures forall x, y :: FormatIndex(version, x, y) <= 15
    ensures forall x, y :: Dark(6, version, format, info, x, y)
                        == if FormatIndex(version, x, y) >= 0
                           then FormatIndex(version, x, y) == 15 || format[FormatIndex(version, x, y)]
                           else Dark(5, version, format, info, x, y)
  {
    hide InAlignment, AlignDark, AtFinder, FinderDark, OnTiming;
  }

  lemma StageSeven(version: nat, format: seq<bool>, info: seq<bool>)
    requires IsVersion(version) && |format| == 15 && |info| == 18
    ensures forall x, y :: Claimed(7, version, x, y) == (Claimed(6, version, x, y) || VersionIndex(version, x, y) >= 0)
    ensures forall x, y :: VersionIndex(version, x, y) < 18
    ensures forall x, y :: Dark(7, version, format, info, x, y)
                        == if VersionIndex(version, x, y) >= 0 then info[VersionIndex(version, x, y)]
                           else Dark(6, version, format, info, x, y)
    ensures forall x, y :: VersionIndex(version, x, y) >= 0 ==> FormatIndex(version, x, y) < 0
  {
    hide InAlignment, AlignDark, AtFinder, FinderDark, OnTiming;
  }

  /** Function patterns up to the version information. */
  method DrawFunctions(version: nat) returns (m: Matrix)
    requires IsVersion(version)
    ensures m.Valid() && m.size == Size(version) && fresh(m) && fresh(m.modules) && fresh(m.func)
    ensures m.Drawn(7, version, FormatBits(), InfoBits(version))
  {
    ghost var format, info := FormatBits(), InfoBits(version);
    m := new Matrix(version);
    m.Finders(version, format, info);
    m.Alignment(version, format, info);
    StageSix(version, format, info);
    StageSeven(version, format, info);
    hide InfoBits, Dark, FormatIndex, VersionIndex, Claimed, WordBits, FormatWord;
    m.Format(version, 0);
    assert m.Drawn(6, version, format, info);
    m.VersionInfo(version);
  }

  lemma TimingClaimed(version: nat)
    ensures forall y :: IsFunction(version, 6, y)
  {
  }
}
