/** Reading an evidence archive from arbitrary bytes. */
module ZipParser {
  import opened Results
  import opened Bytes
  import opened Text
  import opened Platform
  import opened Zip

  const SIZE_INVALID := "EVIDENCE_ZIP_SIZE_INVALID"
  const END_NOT_FOUND := "EVIDENCE_ZIP_END_NOT_FOUND"
  const MULTIDISK := "EVIDENCE_ZIP_MULTIDISK_UNSUPPORTED"
  const TRAILING_DATA := "EVIDENCE_ZIP_TRAILING_DATA"
  const CENTRAL_INVALID := "EVIDENCE_ZIP_CENTRAL_DIRECTORY_INVALID"
  const CENTRAL_TRUNCATED := "EVIDENCE_ZIP_CENTRAL_ENTRY_TRUNCATED"
  const CENTRAL_SIGNATURE_INVALID := "EVIDENCE_ZIP_CENTRAL_SIGNATURE_INVALID"
  const ENCRYPTED := "EVIDENCE_ZIP_ENCRYPTED_UNSUPPORTED"
  const DATA_DESCRIPTOR := "EVIDENCE_ZIP_DATA_DESCRIPTOR_UNSUPPORTED"
  const COMPRESSION := "EVIDENCE_ZIP_COMPRESSION_UNSUPPORTED"
  const LOCAL_INVALID := "EVIDENCE_ZIP_LOCAL_ENTRY_INVALID"
  const LOCAL_SIGNATURE_INVALID := "EVIDENCE_ZIP_LOCAL_SIGNATURE_INVALID"
  const HEADER_MISMATCH := "EVIDENCE_ZIP_HEADER_MISMATCH"
  const NAME_MISMATCH := "EVIDENCE_ZIP_NAME_MISMATCH"
  const FILE_TRUNCATED := "EVIDENCE_ZIP_FILE_TRUNCATED"
  const CRC_MISMATCH := "CRC mismatch"
  const DECODE_FAILED := "The encoded data was not valid for encoding utf-8"

  /** subarray(from, to): both bounds are clamped to the buffer. */
  function Subarray(b: Bytes, from: nat, to: nat): Bytes {
    var hi := if to < |b| then to else |b|;
    if from <= hi then b[from..hi] else []
  }

  /** The last end-of-directory signature at or before offset. */
  function FindEndFrom(bytes: Bytes, offset: int, minimum: nat): (r: Option<nat>)
    requires offset + 22 <= |bytes|
    ensures r.Some? ==> minimum <= r.value <= offset
    decreases offset
  {
    if offset < minimum then None
    else if U32(bytes, offset) == END_SIGNATURE then Some(offset)
    else FindEndFrom(bytes, offset - 1, minimum)
  }

  function Minimum(length: nat): nat {
    if length < 22 + 65535 then 0 else length - 22 - 65535
  }

  function FindEnd(bytes: Bytes): (r: Option<nat>)
    requires |bytes| >= 22
    ensures r.Some? ==> r.value + 22 <= |bytes|
  {
    FindEndFrom(bytes, |bytes| - 22, Minimum(|bytes|))
  }

  lemma {:induction false} FindEndIsLast(bytes: Bytes, offset: int, minimum: nat)
    requires offset + 22 <= |bytes|
    ensures match FindEndFrom(bytes, offset, minimum)
            case Some(r) =>
              && U32(bytes, r) == END_SIGNATURE
              && forall o :: r < o <= offset ==> U32(bytes, o) != END_SIGNATURE
            case None => forall o :: minimum <= o <= offset ==> U32(bytes, o) != END_SIGNATURE
    decreases offset
  {
    hide U32;
    if offset >= minimum && U32(bytes, offset) != END_SIGNATURE {
      FindEndIsLast(bytes, offset - 1, minimum);
    }
  }

  method FindEndOfCentralDirectory(bytes: Bytes) returns (r: Option<nat>)
    requires |bytes| >= 22
    ensures r == FindEnd(bytes)
  {
    hide U32;
    var minimum := Minimum(|bytes|);
    var offset: int := |bytes| - 22;
    while offset >= minimum
      invariant offset <= |bytes| - 22
      invariant FindEnd(bytes) == FindEndFrom(bytes, offset, minimum)
      decreases offset
    {
      if U32(bytes, offset) == END_SIGNATURE {
        return Some(offset);
      }
      offset := offset - 1;
    }
    r := None;
  }

  /** Bit 0 marks encryption and bit 3 a data descriptor. */
  function CheckFlags(flags: nat, method_: nat, compressed: nat, uncompressed: nat, disk: nat): Option<string> {
    if flags % 2 != 0 then Some(ENCRYPTED)
    else if flags / 8 % 2 != 0 then Some(DATA_DESCRIPTOR)
    else if method_ != STORE_METHOD || compressed != uncompressed then Some(COMPRESSION)
    else if uncompressed > MAX_FILE_BYTES then Some(FILE_TOO_LARGE)
    else if disk != 0 then Some(MULTIDISK)
    else None
  }

  /** The decoded and validated name of an entry. */
  function ReadName(p: Platform, name: Bytes): Result<Text> {
    match p.decode(name)
    case None => Err(DECODE_FAILED)
    case Some(text) => ValidatePath(p, text)
  }

  /** The entry's local header and data, checked against its central header. */
  function ReadLocal(p: Platform, bytes: Bytes, cursor: nat, centralOffset: nat, path: Text): Result<File>
    requires cursor + 46 <= |bytes| && centralOffset <= |bytes|
  {
    var local := U32(bytes, cursor + 42);
    if local + 30 > centralOffset then Err(LOCAL_INVALID)
    else if U32(bytes, local) != LOCAL_SIGNATURE then Err(LOCAL_SIGNATURE_INVALID)
    else if U16(bytes, local + 6) != U16(bytes, cursor + 8) || U16(bytes, local + 8) != U16(bytes, cursor + 10) then
      Err(HEADER_MISMATCH)
    else if || U32(bytes, local + 14) != U32(bytes, cursor + 16) || U32(bytes, local + 18) != U32(bytes, cursor + 20)
            || U32(bytes, local + 22) != U32(bytes, cursor + 24) then Err(HEADER_MISMATCH)
    else
      var nameStart, nameLength := local + 30, U16(bytes, local + 26);
      match p.decode(Subarray(bytes, nameStart, nameStart + nameLength))
      case None => Err(DECODE_FAILED)
      case Some(name) =>
        var dataStart := nameStart + nameLength + U16(bytes, local + 28);
        var dataEnd := dataStart + U32(bytes, cursor + 20);
        if name != path then Err(NAME_MISMATCH)
        else if dataEnd > centralOffset then Err(FILE_TRUNCATED)
        else if Crc(bytes[dataStart..dataEnd]) != U32(bytes, cursor + 16) then Err(CRC_MISMATCH)
        else Ok(File(path, bytes[dataStart..dataEnd]))
  }

  /** One central entry: the file it describes, and where the next entry begins. */
  function ReadEntry(p: Platform, bytes: Bytes, cursor: nat, centralOffset: nat, endOffset: nat): (r: Result<(File, nat)>)
    requires centralOffset <= endOffset <= |bytes|
    ensures r.Ok? ==> r.value.1 <= endOffset
  {
    if cursor + 46 > endOffset then Err(CENTRAL_TRUNCATED)
    else if U32(bytes, cursor) != CENTRAL_SIGNATURE then Err(CENTRAL_SIGNATURE_INVALID)
    else match CheckFlags(U16(bytes, cursor + 8), U16(bytes, cursor + 10), U32(bytes, cursor + 20), U32(bytes, cursor + 24), U16(bytes, cursor + 34))
      case Some(e) => Err(e)
      case None =>
        var nameLength := U16(bytes, cursor + 28);
        var centralEnd := cursor + 46 + nameLength + U16(bytes, cursor + 30) + U16(bytes, cursor + 32);
        if centralEnd > endOffset then Err(CENTRAL_TRUNCATED)
        else match ReadName(p, Subarray(bytes, cursor + 46, cursor + 46 + nameLength))
          case Err(e) => Err(e)
          case Ok(path) =>
            match ReadLocal(p, bytes, cursor, centralOffset, path)
            case Err(e) => Err(e)
            case Ok(file) => Ok((file, centralEnd))
  }

  /** The next count entries, and where they end. */
  function ReadEntries(p: Platform, bytes: Bytes, cursor: nat, count: nat, centralOffset: nat, endOffset: nat): Result<(seq<File>, nat)>
    requires centralOffset <= endOffset <= |bytes|
    decreases count
  {
    if count == 0 then Ok(([], cursor))
    else match ReadEntry(p, bytes, cursor, centralOffset, endOffset)
      case Err(e) => Err(e)
      case Ok((file, next)) =>
        match ReadEntries(p, bytes, next, count - 1, centralOffset, endOffset)
        case Err(e) => Err(e)
        case Ok((files, last)) => Ok(([file] + files, last))
  }

  /** The fields of the end record at endOffset. */
  function CheckEnd(bytes: Bytes, endOffset: nat): (r: Option<string>)
    requires endOffset + 22 <= |bytes|
    ensures r.None? ==> U32(bytes, endOffset + 16) <= endOffset
  {
    if U16(bytes, endOffset + 4) != 0 || U16(bytes, endOffset + 6) != 0 then Some(MULTIDISK)
    else if U16(bytes, endOffset + 10) == 0 || U16(bytes, endOffset + 10) > MAX_FILE_COUNT then Some(FILE_COUNT_INVALID)
    else if endOffset + 22 + U16(bytes, endOffset + 20) != |bytes| then Some(TRAILING_DATA)
    else if U32(bytes, endOffset + 16) + U32(bytes, endOffset + 12) != endOffset then Some(CENTRAL_INVALID)
    else None
  }

  /** The directory's entries, which must end exactly at the end record. */
  function ParsedDirectory(p: Platform, bytes: Bytes, centralOffset: nat, count: nat, endOffset: nat): Result<seq<File>>
    requires centralOffset <= endOffset <= |bytes|
  {
    match ReadEntries(p, bytes, centralOffset, count, centralOffset, endOffset)
    case Err(e) => Err(e)
    case Ok((files, cursor)) =>
      if cursor != endOffset then Err(CENTRAL_INVALID)
      else if !DistinctPaths(files) then Err(DUPLICATE_PATH)
      else Ok(files)
  }

  /** The rest of the parse, once the end record is found. */
  function ParsedAt(p: Platform, bytes: Bytes, endOffset: nat): Result<seq<File>>
    requires endOffset + 22 <= |bytes|
  {
    match CheckEnd(bytes, endOffset)
    case Some(e) => Err(e)
    case None => ParsedDirectory(p, bytes, U32(bytes, endOffset + 16), U16(bytes, endOffset + 10), endOffset)
  }

  /** What parseEvidenceZip returns or throws. */
  function Parsed(p: Platform, bytes: Bytes): Result<seq<File>> {
    if |bytes| < 22 || |bytes| > MAX_ARCHIVE_BYTES then Err(SIZE_INVALID)
    else match FindEnd(bytes)
      case None => Err(END_NOT_FOUND)
      case Some(endOffset) => ParsedAt(p, bytes, endOffset)
  }

  method ParseEvidenceZip(p: Platform, bytes: Bytes) returns (r: Result<seq<File>>)
    ensures r == Parsed(p, bytes)
  {
    hide U16, U32, ReadEntry, FindEnd, ParsedDirectory;
    if |bytes| < 22 || |bytes| > MAX_ARCHIVE_BYTES {
      return Err(SIZE_INVALID);
    }
    var end := FindEndOfCentralDirectory(bytes);
    if end.None? {
      return Err(END_NOT_FOUND);
    }
    var endOffset := end.value;
    var problem := CheckEnd(bytes, endOffset);
    if problem.Some? {
      return Err(problem.value);
    }
    r := ParseDirectory(p, bytes, U32(bytes, endOffset + 16), U16(bytes, endOffset + 10), endOffset);
  }

  method ParseDirectory(p: Platform, bytes: Bytes, centralOffset: nat, entryCount: nat, endOffset: nat) returns (r: Result<seq<File>>)
    requires centralOffset <= endOffset <= |bytes|
    ensures r == ParsedDirectory(p, bytes, centralOffset, entryCount, endOffset)
  {
    hide ReadEntry, DistinctPaths;
    var files: seq<File>, cursor := [], centralOffset;
    ghost var all := ReadEntries(p, bytes, centralOffset, entryCount, centralOffset, endOffset);
    PrependNothing(all);
    for index := 0 to entryCount
      invariant all == Prepend(files, ReadEntries(p, bytes, cursor, entryCount - index, centralOffset, endOffset))
    {
      var entry := ReadEntry(p, bytes, cursor, centralOffset, endOffset);
      if entry.Err? {
        return Err(entry.code);
      }
      ReadEntriesNext(p, bytes, cursor, entryCount - index, centralOffset, endOffset, files);
      files := files + [entry.value.0];
      cursor := entry.value.1;
    }
    assert files + [] == files;
    if cursor != endOffset {
      return Err(CENTRAL_INVALID);
    }
    if !DistinctPaths(files) {
      return Err(DUPLICATE_PATH);
    }
    r := Ok(files);
  }

  ghost function Prepend(files: seq<File>, r: Result<(seq<File>, nat)>): Result<(seq<File>, nat)> {
    match r
    case Err(e) => Err(e)
    case Ok((others, last)) => Ok((files + others, last))
  }

  lemma PrependNothing(r: Result<(seq<File>, nat)>)
    ensures Prepend([], r) == r
  {
    if r.Ok? {
      assert [] + r.value.0 == r.value.0;
    }
  }

  lemma ReadEntriesNext(p: Platform, bytes: Bytes, cursor: nat, count: nat, centralOffset: nat, endOffset: nat, files: seq<File>)
    requires count > 0 && centralOffset <= endOffset <= |bytes|
    requires ReadEntry(p, bytes, cursor, centralOffset, endOffset).Ok?
    ensures var (file, next) := ReadEntry(p, bytes, cursor, centralOffset, endOffset).value;
            Prepend(files, ReadEntries(p, bytes, cursor, count, centralOffset, endOffset))
            == Prepend(files + [file], ReadEntries(p, bytes, next, count - 1, centralOffset, endOffset))
  {
    hide ReadEntry;
    var (file, next) := ReadEntry(p, bytes, cursor, centralOffset, endOffset).value;
    match ReadEntries(p, bytes, next, count - 1, centralOffset, endOffset)
    case Err(_) =>
    case Ok((others, last)) =>
      assert files + ([file] + others) == files + [file] + others;
  }
}
