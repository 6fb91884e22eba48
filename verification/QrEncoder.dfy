/** Encoding bytes as a QR symbol, and the reader that takes them back from its modules. */
module QrEncoder {
  import opened Galois
  import opened Results
  import opened QrBits
  import opened QrBlocks
  import opened QrLayout
  import opened QrMatrix
  import opened QrTables
  import opened QrVersionInfo
  import opened QrConformance
  import RS = ReedSolomon
  import S = QrSymbol
  import QrCodewords

  type Grid = S.Grid

  /* ---- Reading a symbol ---- */

  /** Where bit i of the format word stands, in its first and in its second copy. */
  function FormatCell(version: nat, copy: nat, i: nat): (int, int) {
    if copy == 0 then
      if i <= 5 then (8, i) else if i == 6 then (8, 7) else if i == 7 then (8, 8)
      else if i == 8 then (7, 8) else (14 - i, 8)
    else if i < 8 then (Size(version) - 1 - i, 8) else (8, Size(version) - 15 + i)
  }

  function VersionCell(size: nat, copy: nat, i: nat): (int, int) {
    var a, b := size - 11 + i % 3, i / 3;
    if copy == 0 then (a, b) else (b, a)
  }

  predicate ShowsFormat(grid: Grid, version: nat, format: seq<bool>)
    requires |format| == 15
  {
    forall copy, i :: 0 <= copy < 2 && 0 <= i < 15 ==>
      var cell := FormatCell(version, copy, i);
      grid(cell.0, cell.1) == format[i]
  }

  /** One copy of the version information, as it stands in a symbol of this size. */
  function VersionBlock(grid: Grid, size: nat, copy: nat): (bits: seq<bool>)
    ensures |bits| == 18
  {
    seq(18, i requires 0 <= i < 18 => var cell := VersionCell(size, copy, i); grid(cell.0, cell.1))
  }

  /** The version that the first copy is nearest to, or else the second. */
  function ReadVersion(grid: Grid, size: nat): Option<nat> {
    match NearVersion(VersionBlock(grid, size, 0), 7)
    case Some(v) => Some(v)
    case None => NearVersion(VersionBlock(grid, size, 1), 7)
  }

  /** The first mask from m on whose format word both copies show. */
  function ReadMask(grid: Grid, version: nat, m: nat): Option<nat>
    decreases 8 - m
  {
    if m >= 8 then None
    else if ShowsFormat(grid, version, MaskFormat(m)) then Some(m)
    else ReadMask(grid, version, m + 1)
  }

  function MaskFormat(m: nat): (bits: seq<bool>)
    requires m < 8
    ensures |bits| == 15
  {
    WordBits(FormatWord(m as bv32), 15)
  }

  /** The unmasked data bits among the first k modules of strip c. */
  function ReadIn(grid: Grid, version: nat, mask: nat, c: nat, k: nat): seq<bool>
    requires IsVersion(version) && mask < 8 && c < Strips(version) && k <= 2 * Size(version)
  {
    if k == 0 then []
    else
      ZigzagOnce(version, c, k - 1);
      var x, y := CellX(version, c, k - 1), CellY(version, c, k - 1);
      ReadIn(grid, version, mask, c, k - 1)
      + (if IsFree(version, x, y) then [grid(x, y) != MaskBit(mask, x, y)] else [])
  }

  /** The unmasked data bits of the first c strips. */
  function ReadStrips(grid: Grid, version: nat, mask: nat, c: nat): seq<bool>
    requires IsVersion(version) && mask < 8 && c <= Strips(version)
  {
    if c == 0 then []
    else ReadStrips(grid, version, mask, c - 1) + ReadIn(grid, version, mask, c - 1, 2 * Size(version))
  }

  /** All received blocks are Reed-Solomon codewords. */
  ghost predicate Clean(stream: seq<Octet>, blocks: seq<Block>) {
    forall b, i :: 0 <= b < |blocks| && 0 <= i < blocks[b].total - blocks[b].data ==>
      RS.Eval(ReceivedBlock(stream, blocks, b), Alpha(i)) == ZERO
  }

  ghost function ReadStream(stream: seq<Octet>, version: nat): Option<seq<Octet>>
    requires IsVersion(version)
  {
    var blocks := BlocksOf(version);
    if !Clean(stream, blocks) then None else Parse(Unpack(ReadData(stream, blocks, |blocks|)), version)
  }

  /**
   * Reads a symbol of error correction level L: the three finders by their runs; version from the size and,
   * in the larger symbols, from the version information; mask from the two format words, data bits along the zigzag,
   * codewords, blocks, and the byte segment in them.
   */
  ghost function Decode(size: nat, grid: Grid): Option<seq<Octet>> {
    if size < 21 || size > 57 || (size - 17) % 4 != 0 || !S.HasFinders(grid, size) then None
    else
      var version := (size - 17) / 4;
      if version >= 7 && ReadVersion(grid, size) != Some(version) then None
      else match ReadMask(grid, version, 0)
        case None => None
        case Some(mask) =>
          if mask >= 8 then None
          else
            var bits := ReadStrips(grid, version, mask, Strips(version));
            if |bits| < 8 * TotalCapacity(version) then None
            else
              EightTimes(TotalCapacity(version));
              ReadStream(Pack(bits[..8 * TotalCapacity(version)]), version)
  }

  /* ---- What the encoder draws is read back ---- */

  lemma FormatCellIndex(version: nat, copy: nat, i: nat)
    requires IsVersion(version) && copy < 2 && i < 15
    ensures var (x, y) := FormatCell(version, copy, i);
            && 0 <= x < Size(version) && 0 <= y < Size(version)
            && FormatIndex(version, x, y) == i && VersionIndex(version, x, y) < 0
  {
  }

  lemma VersionCellIndex(version: nat, copy: nat, i: nat)
    requires 7 <= version <= 10 && copy < 2 && i < 18
    ensures var (x, y) := VersionCell(Size(version), copy, i);
            && 0 <= x < Size(version) && 0 <= y < Size(version) && VersionIndex(version, x, y) == i
  {
  }

  lemma FunctionColour(version: nat, x: nat, y: nat, codewords: seq<Octet>)
    requires IsVersion(version) && x < Size(version) && y < Size(version)
    ensures 0 <= VersionIndex(version, x, y) < 18 ==>
              Module(version, codewords, x, y) == InfoBits(version)[VersionIndex(version, x, y)]
    ensures VersionIndex(version, x, y) < 0 && 0 <= FormatIndex(version, x, y) < 15 ==>
              Module(version, codewords, x, y) == FormatBits()[FormatIndex(version, x, y)]
  {
    hide InfoBits, FormatBits, FormatIndex, VersionIndex, DataBit, OnTiming, AtFinder, InAlignment, AlignDark, FinderDark, MaskBit;
  }

  lemma FormatShown(version: nat, codewords: seq<Octet>, grid: Grid)
    requires IsVersion(version) && Shows(grid, version, codewords)
    ensures ShowsFormat(grid, version, FormatBits())
  {
    hide FormatBits, FormatIndex, VersionIndex, Module, FormatCell;
    forall copy, i | 0 <= copy < 2 && 0 <= i < 15
      ensures var cell := FormatCell(version, copy, i); grid(cell.0, cell.1) == FormatBits()[i]
    {
      var cell := FormatCell(version, copy, i);
      FormatCellIndex(version, copy, i);
      FunctionColour(version, cell.0, cell.1, codewords);
    }
  }

  /** Both copies of the version information show the version. */
  lemma VersionShown(version: nat, codewords: seq<Octet>, grid: Grid, copy: nat)
    requires 7 <= version <= 10 && copy < 2 && Shows(grid, version, codewords)
    ensures VersionBlock(grid, Size(version), copy) == InfoBits(version)
  {
    hide InfoBits, FormatIndex, VersionIndex, Module, VersionCell;
    forall i | 0 <= i < 18 ensures VersionBlock(grid, Size(version), copy)[i] == InfoBits(version)[i] {
      var cell := VersionCell(Size(version), copy, i);
      VersionCellIndex(version, copy, i);
      FunctionColour(version, cell.0, cell.1, codewords);
    }
  }

  lemma VersionRead(version: nat, codewords: seq<Octet>, grid: Grid)
    requires 7 <= version <= 10 && Shows(grid, version, codewords)
    ensures ReadVersion(grid, Size(version)) == Some(version)
  {
    hide InfoBits, VersionBlock, NearVersion, Shows, RS.Distance, Size;
    VersionShown(version, codewords, grid, 0);
    RS.DistanceSelf(InfoBits(version));
    DamagedVersionRead(InfoBits(version), version);
  }

  /** The first n bits of the stream the data modules carry. */
  function StreamBits(codewords: seq<Octet>, n: nat): (bits: seq<bool>)
    ensures |bits| == n
    ensures forall i :: 0 <= i < n ==> bits[i] == StreamBit(codewords, i)
  {
    seq(n, i requires 0 <= i < n => StreamBit(codewords, i))
  }

  lemma DataModuleShown(version: nat, codewords: seq<Octet>, grid: Grid, c: nat, k: nat)
    requires IsVersion(version) && Shows(grid, version, codewords)
    requires c < Strips(version) && k < 2 * Size(version)
    ensures var (x, y) := (CellX(version, c, k), CellY(version, c, k));
            && 0 <= x < Size(version) && 0 <= y < Size(version)
            && (IsFree(version, x, y) ==>
                 (grid(x, y) != MaskBit(0, x, y)) == StreamBit(codewords, FreeBefore(version, c) + FreeIn(version, c, k)))
  {
    hide IsFunction, FreeBefore, FreeIn, StreamBit, CellX, CellY, StripOf, TurnOf, MaskBit, Strips;
    ZigzagOnce(version, c, k);
  }

  lemma {:induction false} StripRead(version: nat, codewords: seq<Octet>, grid: Grid, c: nat, k: nat)
    requires IsVersion(version) && Shows(grid, version, codewords)
    requires c < Strips(version) && k <= 2 * Size(version)
    ensures StreamBits(codewords, FreeBefore(version, c)) + ReadIn(grid, version, 0, c, k)
         == StreamBits(codewords, FreeBefore(version, c) + FreeIn(version, c, k))
  {
    hide FreeBefore, IsFree, StreamBit, CellX, CellY, MaskBit, Strips, Shows;
    if k > 0 {
      StripRead(version, codewords, grid, c, k - 1);
      DataModuleShown(version, codewords, grid, c, k - 1);
      var n := FreeBefore(version, c) + FreeIn(version, c, k - 1);
      assert StreamBits(codewords, n + 1) == StreamBits(codewords, n) + [StreamBit(codewords, n)];
    }
  }

  /** Reading the zigzag returns the stream in order. */
  lemma {:induction false} StripsRead(version: nat, codewords: seq<Octet>, grid: Grid, c: nat)
    requires IsVersion(version) && Shows(grid, version, codewords) && c <= Strips(version)
    ensures ReadStrips(grid, version, 0, c) == StreamBits(codewords, FreeBefore(version, c))
  {
    hide StreamBit, Strips, Shows, ReadIn, FreeIn;
    if c > 0 {
      StripsRead(version, codewords, grid, c - 1);
      StripRead(version, codewords, grid, c - 1, 2 * Size(version));
    }
  }

  /** Every codeword bit is drawn, so the reader gets all codewords. */
  lemma CodewordsRead(version: nat, codewords: seq<Octet>, grid: Grid)
    requires IsVersion(version) && Shows(grid, version, codewords) && |codewords| == TotalCapacity(version)
    ensures var bits := ReadStrips(grid, version, 0, Strips(version));
            && |bits| >= 8 * |codewords| && bits[..8 * |codewords|] == Unpack(codewords)
  {
    hide FreeBefore, Shows, TotalCapacity, Unpack, OctetBits, ReadStrips;
    StripsRead(version, codewords, grid, Strips(version));
    DataModulesCount(version);
    var bits := StreamBits(codewords, DataModules(version));
    forall i | 0 <= i < 8 * |codewords| ensures bits[i] == Unpack(codewords)[i] {
      UnpackAt(codewords, i);
    }
  }

  lemma StreamRead(bytes: seq<Octet>, version: nat)
    requires IsVersion(version) && Fits(version, |bytes|)
    ensures ReadStream(Interleaved(Pack(DataBits(bytes, version)), version), version) == Some(bytes)
  {
    hide Interleaved, ReadData, ReceivedBlock, DataBits, Parse, BlocksOf, RS.Eval, Alpha, Pack, Unpack, Fits;
    var data := Pack(DataBits(bytes, version));
    var stream, blocks := Interleaved(data, version), BlocksOf(version);
    forall b, i | 0 <= b < |blocks| && 0 <= i < blocks[b].total - blocks[b].data
      ensures RS.Eval(ReceivedBlock(stream, blocks, b), Alpha(i)) == ZERO
    {
      InterleavedReadBack(data, version, b, i);
    }
    FirstBlock(version);
    InterleavedReadBack(data, version, 0, 0);
    UnpackPack(DataBits(bytes, version));
    ParseDataBits(bytes, version);
  }

  lemma FirstBlock(version: nat)
    requires IsVersion(version)
    ensures |BlocksOf(version)| > 0 && BlocksOf(version)[0].total > BlocksOf(version)[0].data
  {
    hide BlocksOf;
    BlocksListed(version);
  }

  lemma MaskRead(version: nat, codewords: seq<Octet>, grid: Grid)
    requires IsVersion(version) && Shows(grid, version, codewords)
    ensures ReadMask(grid, version, 0) == Some(0)
  {
    hide FormatWord, WordBits, ShowsFormat, Shows;
    FormatShown(version, codewords, grid);
  }

  /** A symbol drawn for a byte string reads as that byte string. */
  lemma DecodeDrawn(bytes: seq<Octet>, version: nat, grid: Grid)
    requires IsVersion(version) && Fits(version, |bytes|)
    requires Shows(grid, version, Interleaved(Pack(DataBits(bytes, version)), version))
    ensures Decode(Size(version), grid) == Some(bytes)
  {
    hide Interleaved, ReadStream, DataBits, Pack, Unpack, Fits, Shows, S.HasFinders, ReadStrips, ReadMask, ReadVersion, InfoBits, TotalCapacity, DataCapacity;
    var data := Pack(DataBits(bytes, version));
    var codewords := Interleaved(data, version);
    InterleavedLength(data, version);
    if version >= 7 {
      VersionRead(version, codewords, grid);
    }
    FindersFound(grid, version, codewords);
    MaskRead(version, codewords, grid);
    CodewordsRead(version, codewords, grid);
    PackUnpack(codewords);
    StreamRead(bytes, version);
  }

  /** The whole symbol, from finders to pad octets, is the standard's but for its skipped alignment patterns. */
  lemma SymbolIs(bytes: seq<Octet>, version: nat, grid: Grid)
    requires IsVersion(version) && Fits(version, |bytes|)
    requires S.ShowsSymbol(grid, version, Interleaved(Pack(DataBits(bytes, version)), version))
    ensures S.IsSymbol(Size(version), grid, bytes)
  {
    hide Interleaved, DataBits, Pack, Fits, DataCapacity, TotalCapacity, S.ShowsSymbol, S.IsMessage, S.IsStream, S.HasRoom;
    var message := Pack(DataBits(bytes, version));
    QrCodewords.MessageConforms(bytes, version);
    QrCodewords.StreamConforms(message, version);
    InterleavedLength(message, version);
    RoomFor(version, Interleaved(message, version));
  }

  /* ---- The encoder ---- */

  /** The colours of a drawn matrix; outside it, light. */
  ghost function GridOf(m: Matrix): Grid
    requires m.Valid()
    reads m.modules
  {
    var size := m.size;
    var dark := set x, y | 0 <= x < size && 0 <= y < size && m.modules[y, x] :: (x, y);
    (x, y) => (x, y) in dark
  }

  /** Draws a symbol for the codewords. */
  method MakeMatrix(version: nat, codewords: seq<Octet>) returns (m: Matrix)
    requires IsVersion(version)
    ensures m.Valid() && m.size == Size(version) && fresh(m) && fresh(m.modules) && fresh(m.func)
    ensures forall y, x :: 0 <= y < m.size && 0 <= x < m.size ==> m.func[y, x] == IsFunction(version, x, y)
    ensures forall y, x :: 0 <= y < m.size && 0 <= x < m.size ==> m.modules[y, x] == Module(version, codewords, x, y)
    ensures S.ShowsSymbol(GridOf(m), version, codewords)
  {
    m := DrawFunctions(version);
    StageSix(version, FormatBits(), InfoBits(version));
    StageSeven(version, FormatBits(), InfoBits(version));
    TimingClaimed(version);
    hide InfoBits, Dark, FormatIndex, VersionIndex, Claimed, WordBits, FormatWord, MaskBit, DataBit, S.ShowsSymbol;
    m.Place(version, codewords);
    m.Apply(version, 0);
    m.Format(version, 0);
    hide Module;
    assert Shows(GridOf(m), version, codewords);
    SymbolShown(GridOf(m), version, codewords);
  }

  lemma SmallestVersion(version: nat, n: nat)
    requires IsVersion(version) && Fits(version, n) && forall v :: 1 <= v < version ==> !Fits(v, n)
    ensures forall v :: 1 <= v <= 10 ==> (Size(version) <= S.SizeOf(v) <==> n <= S.ByteCount(v))
  {
    hide Fits;
    QrCodewords.FitsWhen(version, n);
    forall v: nat | 1 <= v <= 10 ensures Size(version) <= S.SizeOf(v) <==> n <= S.ByteCount(v) {
      QrCodewords.FitsWhen(v, n);
      if version <= v {
        CountsGrow(version, v);
      }
    }
  }

  lemma CountsGrow(v: nat, w: nat)
    requires IsVersion(v) && IsVersion(w) && v <= w
    ensures S.ByteCount(v) <= S.ByteCount(w)
  {
  }

  /** Draws the smallest symbol that holds the bytes; reading it returns exactly them. */
  method Encode(bytes: seq<Octet>) returns (r: Result<Matrix>)
    ensures r.Ok? <==> 1 <= |bytes| <= 271
    ensures |bytes| == 0 ==> r == Err("QR_DATA_INVALID")
    ensures |bytes| > 271 ==> r == Err("QR_DATA_TOO_LONG")
    ensures r.Ok? ==> fresh(r.value) && r.value.Valid() && Decode(r.value.size, GridOf(r.value)) == Some(bytes)
    ensures r.Ok? ==> S.IsSymbol(r.value.size, GridOf(r.value), bytes)
    ensures r.Ok? ==> forall v :: 1 <= v <= 10 ==> (r.value.size <= S.SizeOf(v) <==> |bytes| <= S.ByteCount(v))
  {
    hide Interleaved, DataBits, Pack, Fits, DataCapacity, Decode, Module, IsFunction, S.ShowsSymbol, S.IsSymbol;
    if |bytes| == 0 {
      return Err("QR_DATA_INVALID");
    }
    var selected := SelectVersion(|bytes|);
    if selected.Err? {
      return Err(selected.code);
    }
    var version := selected.value;
    SmallestVersion(version, |bytes|);
    var tables := new Tables();
    var data := DataCodewords(bytes, version);
    var codewords := AllCodewords(tables, data.value, version);
    var m := MakeMatrix(version, codewords);
    assert Shows(GridOf(m), version, codewords);
    DecodeDrawn(bytes, version, GridOf(m));
    SymbolIs(bytes, version, GridOf(m));
    r := Ok(m);
  }
}
