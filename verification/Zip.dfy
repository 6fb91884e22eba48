/** The evidence archive: a deterministic ZIP file with stored entries. */
module Zip {
  import opened Results
  import opened Bytes
  import opened Text
  import opened Ordering
  import opened Platform
  import C = Crc32

  const LOCAL_SIGNATURE := 0x0403_4b50
  const CENTRAL_SIGNATURE := 0x0201_4b50
  const END_SIGNATURE := 0x0605_4b50
  const UTF8_FLAG := 0x0800
  const STORE_METHOD := 0
  const MAX_ARCHIVE_BYTES := 250 * 1024 * 1024
  const MAX_FILE_COUNT := 2000
  const MAX_FILE_BYTES := 100 * 1024 * 1024
  const FIXED_DOS_DATE := 0x0021
  const FIXED_DOS_TIME := 0x0000
  const MODE_AND_TYPE := 0x81a4_0000

  const PATH_INVALID := "EVIDENCE_ZIP_PATH_INVALID"
  const FILE_COUNT_INVALID := "EVIDENCE_ZIP_FILE_COUNT_INVALID"
  const DUPLICATE_PATH := "EVIDENCE_ZIP_DUPLICATE_PATH"
  const FILE_TOO_LARGE := "EVIDENCE_ZIP_FILE_TOO_LARGE"
  const TOO_LARGE := "EVIDENCE_ZIP_TOO_LARGE"

  datatype File = File(path: Text, bytes: Bytes)

  /* ---- Paths ---- */

  const SLASH: Unit := '/' as int

  /** split('/') */
  function Segments(path: Text): (r: seq<Text>)
    ensures |r| > 0
  {
    if path == [] then [[]]
    else
      var others := Segments(path[1..]);
      if path[0] == SLASH then [[]] + others else [[path[0]] + others[0]] + others[1..]
  }

  predicate IsPath(path: Text) {
    && 1 <= |path| <= 512
    && path[0] != SLASH && path[|path| - 1] != SLASH
    && '\\' as int !in path && 0 !in path
    && forall s :: s in Segments(path) ==> s != [] && s != Lit(".") && s != Lit("..")
  }

  function ValidatePath(p: Platform, path: Text): Result<Text> {
    if IsPath(path) then Ok(p.normalize(path)) else Err(PATH_INVALID)
  }

  predicate DistinctPaths(files: seq<File>) {
    forall i, j :: 0 <= i < j < |files| ==> files[i].path != files[j].path
  }

  /* ---- The layout, section 4.3 of PKWARE APPNOTE 6.3 ---- */

  function LocalStart(): (h: Bytes)
    ensures |h| == 14
  {
    Le32(LOCAL_SIGNATURE) + Le16(20) + Le16(UTF8_FLAG) + Le16(STORE_METHOD) + Le16(FIXED_DOS_TIME) + Le16(FIXED_DOS_DATE)
  }

  function CentralStart(): (h: Bytes)
    ensures |h| == 16
  {
    Le32(CENTRAL_SIGNATURE) + Le16(0x0314) + Le16(20) + Le16(UTF8_FLAG) + Le16(STORE_METHOD)
    + Le16(FIXED_DOS_TIME) + Le16(FIXED_DOS_DATE)
  }

  /** Checksum, both sizes and the length of the name, as both headers hold them. */
  function Sizes(crc: nat, size: nat, nameLength: nat): (h: Bytes)
    ensures |h| == 14
  {
    Le32(crc) + Le32(size) + Le32(size) + Le16(nameLength)
  }

  /** No extra field, no comment, first disk, a regular file. */
  function CentralMiddle(): (h: Bytes)
    ensures |h| == 12
  {
    Le16(0) + Le16(0) + Le16(0) + Le16(0) + Le32(MODE_AND_TYPE)
  }

  function LocalHeader(name: Bytes, crc: nat, size: nat): (h: Bytes)
    ensures |h| == 30 + |name|
  {
    LocalStart() + Sizes(crc, size, |name|) + Le16(0) + name
  }

  function CentralHeader(name: Bytes, crc: nat, size: nat, offset: nat): (h: Bytes)
    ensures |h| == 46 + |name|
  {
    CentralStart() + Sizes(crc, size, |name|) + CentralMiddle() + Le32(offset) + name
  }

  function EndRecord(count: nat, centralSize: nat, offset: nat): (h: Bytes)
    ensures |h| == 22
  {
    Le32(END_SIGNATURE) + Le16(0) + Le16(0) + Le16(count) + Le16(count) + Le32(centralSize) + Le32(offset) + Le16(0)
  }

  function Crc(bytes: Bytes): (n: nat)
    ensures n < 0x1_0000_0000
  {
    C.Number(C.Checksum(bytes))
  }

  function Local(p: Platform, f: File): Bytes {
    LocalHeader(p.encode(f.path), Crc(f.bytes), |f.bytes|) + f.bytes
  }

  function Central(p: Platform, f: File, offset: nat): Bytes {
    CentralHeader(p.encode(f.path), Crc(f.bytes), |f.bytes|, offset)
  }

  function Locals(p: Platform, files: seq<File>): Bytes {
    if files == [] then [] else Locals(p, files[..|files| - 1]) + Local(p, files[|files| - 1])
  }

  /** Each file's central header, holding the position of its local header. */
  function Centrals(p: Platform, files: seq<File>): Bytes {
    if files == [] then []
    else
      var front := files[..|files| - 1];
      Centrals(p, front) + Central(p, files[|files| - 1], |Locals(p, front)|)
  }

  function Archive(p: Platform, files: seq<File>): Bytes {
    Locals(p, files) + Centrals(p, files) + EndRecord(|files|, |Centrals(p, files)|, |Locals(p, files)|)
  }

  /* ---- Creating an archive ---- */

  function ByPath(p: Platform): (File, File) -> bool {
    (a: File, b: File) => p.pathAtMost(a.path, b.path)
  }

  /** The files with their paths validated. */
  function Validated(p: Platform, files: seq<File>): (r: Result<seq<File>>)
    ensures r.Ok? ==> |r.value| == |files|
    ensures r.Ok? ==> forall i :: 0 <= i < |files| ==>
              ValidatePath(p, files[i].path) == Ok(r.value[i].path) && r.value[i].bytes == files[i].bytes
  {
    if files == [] then Ok([])
    else match ValidatePath(p, files[0].path)
      case Err(e) => Err(e)
      case Ok(path) =>
        match Validated(p, files[1..])
        case Err(e) => Err(e)
        case Ok(others) => Ok([File(path, files[0].bytes)] + others)
  }

  predicate HasTooLarge(files: seq<File>) {
    exists f :: f in files && |f.bytes| > MAX_FILE_BYTES
  }

  /** What createEvidenceZip returns or throws. */
  function Created(p: Platform, files: seq<File>): Result<Bytes> {
    if |files| == 0 || |files| > MAX_FILE_COUNT then Err(FILE_COUNT_INVALID)
    else match Validated(p, files)
      case Err(e) => Err(e)
      case Ok(validated) =>
        Assembled(p, Sort(validated, ByPath(p)))
  }

  function Assembled(p: Platform, ordered: seq<File>): Result<Bytes> {
    if !DistinctPaths(ordered) then Err(DUPLICATE_PATH)
    else if HasTooLarge(ordered) then Err(FILE_TOO_LARGE)
    else if |Archive(p, ordered)| > MAX_ARCHIVE_BYTES then Err(TOO_LARGE)
    else Ok(Archive(p, ordered))
  }

  method SetSizes(header: array<bv8>, at: nat, crc: nat, size: nat, nameLength: nat)
    requires at + 14 <= header.Length
    modifies header
    ensures header[..at + 14] == old(header[..at]) + Sizes(crc, size, nameLength)
  {
    hide Le16, Le32;
    SetUint32(header, at, crc);
    SetUint32(header, at + 4, size);
    SetUint32(header, at + 8, size);
    SetUint16(header, at + 12, nameLength);
  }

  method SetLocalStart(header: array<bv8>)
    requires header.Length >= 14
    modifies header
    ensures header[..14] == LocalStart()
  {
    hide Le16, Le32;
    SetUint32(header, 0, LOCAL_SIGNATURE);
    SetUint16(header, 4, 20);
    SetUint16(header, 6, UTF8_FLAG);
    SetUint16(header, 8, STORE_METHOD);
    SetUint16(header, 10, FIXED_DOS_TIME);
    SetUint16(header, 12, FIXED_DOS_DATE);
  }

  method SetCentralStart(header: array<bv8>)
    requires header.Length >= 16
    modifies header
    ensures header[..16] == CentralStart()
  {
    hide Le16, Le32;
    SetUint32(header, 0, CENTRAL_SIGNATURE);
    SetUint16(header, 4, 0x0314);
    SetUint16(header, 6, 20);
    SetUint16(header, 8, UTF8_FLAG);
    SetUint16(header, 10, STORE_METHOD);
    SetUint16(header, 12, FIXED_DOS_TIME);
    SetUint16(header, 14, FIXED_DOS_DATE);
  }

  method SetCentralMiddle(header: array<bv8>, at: nat)
    requires at + 12 <= header.Length
    modifies header
    ensures header[..at + 12] == old(header[..at]) + CentralMiddle()
  {
    hide Le16, Le32;
    SetUint16(header, at, 0);
    SetUint16(header, at + 2, 0);
    SetUint16(header, at + 4, 0);
    SetUint16(header, at + 6, 0);
    SetUint32(header, at + 8, MODE_AND_TYPE);
  }

  method WriteLocalHeader(name: Bytes, crc: nat, size: nat) returns (header: array<bv8>)
    ensures fresh(header) && header[..] == LocalHeader(name, crc, size)
  {
    hide LocalStart, Sizes, Le16;
    header := new bv8[30 + |name|](_ => 0);
    SetLocalStart(header);
    SetSizes(header, 14, crc, size, |name|);
    SetUint16(header, 28, 0);
    SetBytes(header, name, 30);
    assert header[..] == header[..30 + |name|];
  }

  method WriteCentralHeader(name: Bytes, crc: nat, size: nat, offset: nat) returns (header: array<bv8>)
    ensures fresh(header) && header[..] == CentralHeader(name, crc, size, offset)
  {
    hide CentralStart, Sizes, CentralMiddle, Le32;
    header := new bv8[46 + |name|](_ => 0);
    SetCentralStart(header);
    SetSizes(header, 16, crc, size, |name|);
    SetCentralMiddle(header, 30);
    SetUint32(header, 42, offset);
    SetBytes(header, name, 46);
    assert header[..] == header[..46 + |name|];
  }

  method WriteEndRecord(count: nat, centralSize: nat, offset: nat) returns (end: array<bv8>)
    ensures fresh(end) && end[..] == EndRecord(count, centralSize, offset)
  {
    hide Le16, Le32;
    end := new bv8[22](_ => 0);
    SetUint32(end, 0, END_SIGNATURE);
    SetUint16(end, 4, 0);
    SetUint16(end, 6, 0);
    SetUint16(end, 8, count);
    SetUint16(end, 10, count);
    SetUint32(end, 12, centralSize);
    SetUint32(end, 16, offset);
    SetUint16(end, 20, 0);
    assert end[..] == end[..22];
  }

  lemma JoinNext(parts: seq<Bytes>, a: Bytes, b: Bytes)
    ensures Join(parts + [a, b]) == Join(parts) + (a + b)
  {
    assert parts + [a, b] == (parts + [a]) + [b];
    JoinAppend(parts, a);
    JoinAppend(parts + [a], b);
  }

  /** One file's parts, and where the next file begins. */
  method WriteEntry(p: Platform, file: File, offset: nat)
    returns (localHeader: Bytes, centralHeader: Bytes, next: nat)
    ensures localHeader + file.bytes == Local(p, file)
    ensures centralHeader == Central(p, file, offset)
    ensures next == offset + |Local(p, file)|
  {
    hide LocalHeader, CentralHeader;
    var name := p.encode(file.path);
    var checksum := C.Crc32(file.bytes);
    var crc := C.Number(checksum);
    var local := WriteLocalHeader(name, crc, |file.bytes|);
    var central := WriteCentralHeader(name, crc, |file.bytes|, offset);
    localHeader, centralHeader := local[..], central[..];
    next := offset + |localHeader| + |file.bytes|;
  }

  method CreateEvidenceZip(p: Platform, files: seq<File>) returns (r: Result<Bytes>)
    ensures r == Created(p, files)
  {
    hide Local, Central, EndRecord, Sort, ByPath, Validated, DistinctPaths;
    if |files| == 0 || |files| > MAX_FILE_COUNT {
      return Err(FILE_COUNT_INVALID);
    }
    var validated := Validated(p, files);
    if validated.Err? {
      return Err(validated.code);
    }
    var ordered := Sort(validated.value, ByPath(p));
    if !DistinctPaths(ordered) {
      return Err(DUPLICATE_PATH);
    }
    var localParts: seq<Bytes>, centralParts: seq<Bytes>, offset := [], [], 0;
    for i := 0 to |ordered|
      invariant forall f :: f in ordered[..i] ==> |f.bytes| <= MAX_FILE_BYTES
      invariant Join(localParts) == Locals(p, ordered[..i]) && Join(centralParts) == Centrals(p, ordered[..i])
      invariant offset == |Locals(p, ordered[..i])|
    {
      var file := ordered[i];
      if |file.bytes| > MAX_FILE_BYTES {
        return Err(FILE_TOO_LARGE);
      }
      assert ordered[..i + 1][..i] == ordered[..i] && ordered[..i + 1] == ordered[..i] + [file];
      var localHeader, centralHeader, next := WriteEntry(p, file, offset);
      JoinNext(localParts, localHeader, file.bytes);
      JoinAppend(centralParts, centralHeader);
      localParts := localParts + [localHeader, file.bytes];
      centralParts := centralParts + [centralHeader];
      offset := next;
    }
    assert ordered[..|ordered|] == ordered;
    var centralDirectory := Concat(centralParts);
    var end := WriteEndRecord(|ordered|, centralDirectory.Length, offset);
    JoinNext(localParts, centralDirectory[..], end[..]);
    var archive := Concat(localParts + [centralDirectory[..], end[..]]);
    assert archive[..] == Archive(p, ordered);
    if archive.Length > MAX_ARCHIVE_BYTES {
      return Err(TOO_LARGE);
    }
    r := Ok(archive[..]);
  }
}
