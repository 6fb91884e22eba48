/** Which error the archive parser reports, check by check and in order. */
module ZipErrors {
  import opened Results
  import opened Bytes
  import opened Text
  import opened Platform
  import opened Zip
  import opened ZipParser
  import opened ZipFormat
  import opened ZipSoundness
  import opened PathRules

  /** What reading a central header's name must give. */
  ghost predicate NameErrs(p: Platform, name: Bytes, r: Result<(File, nat)>) {
    match p.decode(name)
    case None => r == Err(DECODE_FAILED)
    case Some(t) => !IsSafe(t) ==> r == Err("EVIDENCE_ZIP_PATH_INVALID")
  }

  /** The checks of a central header, in order. */
  lemma CentralErrors(p: Platform, b: Bytes, cursor: nat, centralOffset: nat, endOffset: nat)
    requires centralOffset <= endOffset <= |b|
    ensures var r := ReadEntry(p, b, cursor, centralOffset, endOffset);
            if cursor + 46 > endOffset then r == Err("EVIDENCE_ZIP_CENTRAL_ENTRY_TRUNCATED")
            else if Field(b, cursor, 4) != 0x0201_4b50 then r == Err("EVIDENCE_ZIP_CENTRAL_SIGNATURE_INVALID")
            else if Field(b, cursor + 8, 2) % 2 != 0 then r == Err("EVIDENCE_ZIP_ENCRYPTED_UNSUPPORTED")
            else if Field(b, cursor + 8, 2) / 8 % 2 != 0 then r == Err("EVIDENCE_ZIP_DATA_DESCRIPTOR_UNSUPPORTED")
            else if Field(b, cursor + 10, 2) != 0 || Field(b, cursor + 20, 4) != Field(b, cursor + 24, 4) then
              r == Err("EVIDENCE_ZIP_COMPRESSION_UNSUPPORTED")
            else if Field(b, cursor + 24, 4) > 104_857_600 then r == Err("EVIDENCE_ZIP_FILE_TOO_LARGE")
            else if Field(b, cursor + 34, 2) != 0 then r == Err("EVIDENCE_ZIP_MULTIDISK_UNSUPPORTED")
            else if cursor + 46 + Field(b, cursor + 28, 2) + Field(b, cursor + 30, 2) + Field(b, cursor + 32, 2) > endOffset then
              r == Err("EVIDENCE_ZIP_CENTRAL_ENTRY_TRUNCATED")
            else NameErrs(p, b[cursor + 46..cursor + 46 + Field(b, cursor + 28, 2)], r)
  {
    hide U16, U32, Field, ReadLocal, IsSafe, IsPath;
    if cursor + 46 <= endOffset {
      CentralFields(b, cursor);
      var nameEnd := cursor + 46 + U16(b, cursor + 28);
      if nameEnd <= endOffset {
        assert Subarray(b, cursor + 46, nameEnd) == b[cursor + 46..nameEnd];
        if p.decode(b[cursor + 46..nameEnd]).Some? {
          ValidIsSafe(p, p.decode(b[cursor + 46..nameEnd]).value);
        }
      }
    }
  }

  lemma CentralFields(b: Bytes, cursor: nat)
    requires cursor + 46 <= |b|
    ensures Field(b, cursor, 4) == U32(b, cursor)
    ensures Field(b, cursor + 8, 2) == U16(b, cursor + 8) && Field(b, cursor + 10, 2) == U16(b, cursor + 10)
    ensures Field(b, cursor + 16, 4) == U32(b, cursor + 16) && Field(b, cursor + 20, 4) == U32(b, cursor + 20)
    ensures Field(b, cursor + 24, 4) == U32(b, cursor + 24) && Field(b, cursor + 42, 4) == U32(b, cursor + 42)
    ensures Field(b, cursor + 28, 2) == U16(b, cursor + 28) && Field(b, cursor + 30, 2) == U16(b, cursor + 30)
    ensures Field(b, cursor + 32, 2) == U16(b, cursor + 32) && Field(b, cursor + 34, 2) == U16(b, cursor + 34)
  {
    hide U16, U32, Field;
    FourByteField(b, cursor);
    TwoByteField(b, cursor + 8);
    TwoByteField(b, cursor + 10);
    FourByteField(b, cursor + 16);
    FourByteField(b, cursor + 20);
    FourByteField(b, cursor + 24);
    TwoByteField(b, cursor + 28);
    TwoByteField(b, cursor + 30);
    TwoByteField(b, cursor + 32);
    TwoByteField(b, cursor + 34);
    FourByteField(b, cursor + 42);
  }

  lemma LocalFieldsRead(b: Bytes, local: nat)
    requires local + 30 <= |b|
    ensures Field(b, local, 4) == U32(b, local)
    ensures Field(b, local + 6, 2) == U16(b, local + 6) && Field(b, local + 8, 2) == U16(b, local + 8)
    ensures Field(b, local + 14, 4) == U32(b, local + 14) && Field(b, local + 18, 4) == U32(b, local + 18)
    ensures Field(b, local + 22, 4) == U32(b, local + 22)
    ensures Field(b, local + 26, 2) == U16(b, local + 26) && Field(b, local + 28, 2) == U16(b, local + 28)
  {
    hide U16, U32, Field;
    FourByteField(b, local);
    TwoByteField(b, local + 6);
    TwoByteField(b, local + 8);
    FourByteField(b, local + 14);
    FourByteField(b, local + 18);
    FourByteField(b, local + 22);
    TwoByteField(b, local + 26);
    TwoByteField(b, local + 28);
  }

  /** The checks of a local header and its data, in order, for a central header whose name is this path. */
  lemma LocalErrors(p: Platform, b: Bytes, cursor: nat, centralOffset: nat, path: Text)
    requires cursor + 46 <= |b| && centralOffset <= |b|
    ensures var (r, local) := (ReadLocal(p, b, cursor, centralOffset, path), Field(b, cursor + 42, 4));
            if local + 30 > centralOffset then r == Err("EVIDENCE_ZIP_LOCAL_ENTRY_INVALID")
            else if Field(b, local, 4) != 0x0403_4b50 then r == Err("EVIDENCE_ZIP_LOCAL_SIGNATURE_INVALID")
            else if Field(b, local + 6, 2) != Field(b, cursor + 8, 2) || Field(b, local + 8, 2) != Field(b, cursor + 10, 2)
                    || Field(b, local + 14, 4) != Field(b, cursor + 16, 4) || Field(b, local + 18, 4) != Field(b, cursor + 20, 4)
                    || Field(b, local + 22, 4) != Field(b, cursor + 24, 4) then
              r == Err("EVIDENCE_ZIP_HEADER_MISMATCH")
            else DataErrs(p, b, cursor, centralOffset, path, local + 30, r)
  {
    hide U16, U32, Field, Crc;
    CentralFields(b, cursor);
    var local := U32(b, cursor + 42);
    if local + 30 <= centralOffset {
      LocalFieldsRead(b, local);
    }
  }

  /** Name and data after a local header; a name that runs over the end of the bytes is cut there. */
  ghost predicate DataErrs(p: Platform, b: Bytes, cursor: nat, centralOffset: nat, path: Text, nameStart: nat, r: Result<File>)
    requires cursor + 46 <= |b| && 30 <= nameStart <= centralOffset <= |b|
  {
    var nameEnd := nameStart + Field(b, nameStart - 4, 2);
    var dataStart := nameEnd + Field(b, nameStart - 2, 2);
    var dataEnd := dataStart + Field(b, cursor + 20, 4);
    match p.decode(b[nameStart..if nameEnd < |b| then nameEnd else |b|])
    case None => r == Err(DECODE_FAILED)
    case Some(name) =>
      if name != path then r == Err("EVIDENCE_ZIP_NAME_MISMATCH")
      else if dataEnd > centralOffset then r == Err("EVIDENCE_ZIP_FILE_TRUNCATED")
      else if Crc(b[dataStart..dataEnd]) != Field(b, cursor + 16, 4) then r == Err(CRC_MISMATCH)
      else r == Ok(File(path, b[dataStart..dataEnd]))
  }

  /** An entry passes its central checks and then fails or succeeds as its local header does. */
  lemma EntryEndsAsLocal(p: Platform, b: Bytes, cursor: nat, centralOffset: nat, endOffset: nat, path: Text)
    requires centralOffset <= endOffset <= |b| && cursor + 46 <= endOffset
    requires Field(b, cursor, 4) == 0x0201_4b50 && Field(b, cursor + 8, 2) % 2 == 0 && Field(b, cursor + 8, 2) / 8 % 2 == 0
    requires Field(b, cursor + 10, 2) == 0 && Field(b, cursor + 20, 4) == Field(b, cursor + 24, 4) <= 104_857_600
    requires Field(b, cursor + 34, 2) == 0
    requires cursor + 46 + Field(b, cursor + 28, 2) + Field(b, cursor + 30, 2) + Field(b, cursor + 32, 2) <= endOffset
    requires IsName(p, b[cursor + 46..cursor + 46 + Field(b, cursor + 28, 2)], path)
    ensures match ReadLocal(p, b, cursor, centralOffset, path)
            case Err(e) => ReadEntry(p, b, cursor, centralOffset, endOffset) == Err(e)
            case Ok(file) =>
              (ReadEntry(p, b, cursor, centralOffset, endOffset)
               == Ok((file, cursor + 46 + Field(b, cursor + 28, 2) + Field(b, cursor + 30, 2) + Field(b, cursor + 32, 2))))
  {
    hide U16, U32, Field, ReadLocal, IsName, ReadName;
    CentralFields(b, cursor);
    var nameEnd := cursor + 46 + U16(b, cursor + 28);
    assert Subarray(b, cursor + 46, nameEnd) == b[cursor + 46..nameEnd];
    NameRead(p, b[cursor + 46..nameEnd], path);
  }

  /** The offset holds the last end signature of the window that is searched. */
  ghost predicate IsLastEnd(b: Bytes, endOffset: nat) {
    && endOffset + 22 <= |b| <= endOffset + 22 + 65535
    && Field(b, endOffset, 4) == 0x0605_4b50
    && forall o :: endOffset < o <= |b| - 22 ==> Field(b, o, 4) != 0x0605_4b50
  }

  lemma EndErrors(p: Platform, b: Bytes)
    ensures |b| < 22 || |b| > 262_144_000 ==> Parsed(p, b) == Err("EVIDENCE_ZIP_SIZE_INVALID")
    ensures 22 <= |b| <= 262_144_000 && (forall o :: 0 <= o <= |b| - 22 <= o + 65535 ==> Field(b, o, 4) != 0x0605_4b50) ==>
              Parsed(p, b) == Err("EVIDENCE_ZIP_END_NOT_FOUND")
  {
    hide U16, U32, Field, ParsedAt;
    if 22 <= |b| <= 262_144_000 {
      FindEndIsLast(b, |b| - 22, Minimum(|b|));
      if FindEnd(b).Some? {
        FourByteField(b, FindEnd(b).value);
      }
    }
  }

  /** The checks of the end record, in order; what remains is the directory. */
  lemma RecordErrors(p: Platform, b: Bytes, endOffset: nat)
    requires |b| <= 262_144_000 && IsLastEnd(b, endOffset)
    ensures var r := Parsed(p, b);
            if Field(b, endOffset + 4, 2) != 0 || Field(b, endOffset + 6, 2) != 0 then r == Err("EVIDENCE_ZIP_MULTIDISK_UNSUPPORTED")
            else if Field(b, endOffset + 10, 2) == 0 || Field(b, endOffset + 10, 2) > 2000 then r == Err("EVIDENCE_ZIP_FILE_COUNT_INVALID")
            else if endOffset + 22 + Field(b, endOffset + 20, 2) != |b| then r == Err("EVIDENCE_ZIP_TRAILING_DATA")
            else if Field(b, endOffset + 16, 4) + Field(b, endOffset + 12, 4) != endOffset then
              r == Err("EVIDENCE_ZIP_CENTRAL_DIRECTORY_INVALID")
            else r == ParsedDirectory(p, b, Field(b, endOffset + 16, 4), Field(b, endOffset + 10, 2), endOffset)
  {
    hide U16, U32, Field, ParsedDirectory;
    LastEndFound(b, endOffset);
    TwoByteField(b, endOffset + 4);
    TwoByteField(b, endOffset + 6);
    TwoByteField(b, endOffset + 10);
    FourByteField(b, endOffset + 12);
    FourByteField(b, endOffset + 16);
    TwoByteField(b, endOffset + 20);
  }

  lemma LastEndFound(b: Bytes, endOffset: nat)
    requires IsLastEnd(b, endOffset)
    ensures FindEnd(b) == Some(endOffset)
  {
    hide U32, Field;
    FindEndIsLast(b, |b| - 22, Minimum(|b|));
    forall o: int | endOffset <= o <= |b| - 22 ensures Field(b, o, 4) == U32(b, o) {
      FourByteField(b, o);
    }
  }

  /** The first entry that fails decides; entries that all pass must fill the directory under different paths. */
  lemma DirectoryErrors(p: Platform, b: Bytes, centralOffset: nat, count: nat, endOffset: nat, passed: seq<File>, cursors: seq<nat>)
    requires centralOffset <= endOffset <= |b| && |passed| <= count
    requires |cursors| == |passed| + 1 && cursors[0] == centralOffset
    requires forall i :: 0 <= i < |passed| ==> EntryAt(p, b, cursors[i], cursors[i + 1], centralOffset, endOffset, passed[i])
    ensures var r := ParsedDirectory(p, b, centralOffset, count, endOffset);
            if |passed| < count then
              (match ReadEntry(p, b, cursors[|passed|], centralOffset, endOffset)
               case Err(e) => r == Err(e)
               case Ok(_) => true)
            else if cursors[count] != endOffset then r == Err("EVIDENCE_ZIP_CENTRAL_DIRECTORY_INVALID")
            else if exists i, j :: 0 <= i < j < count && passed[i].path == passed[j].path then r == Err("EVIDENCE_ZIP_DUPLICATE_PATH")
            else r == Ok(passed)
  {
    hide EntryAt, EntryParsed, ReadEntry;
    EntriesBefore(p, b, centralOffset, count, endOffset, passed, cursors, 0);
    assert passed[0..] == passed;
  }

  lemma {:induction false} EntriesBefore(p: Platform, b: Bytes, centralOffset: nat, count: nat, endOffset: nat, passed: seq<File>, cursors: seq<nat>, i: nat)
    requires centralOffset <= endOffset <= |b| && i <= |passed| <= count
    requires |cursors| == |passed| + 1
    requires forall k :: 0 <= k < |passed| ==> EntryAt(p, b, cursors[k], cursors[k + 1], centralOffset, endOffset, passed[k])
    ensures var r := ReadEntries(p, b, cursors[i], count - i, centralOffset, endOffset);
            if |passed| < count then
              (match ReadEntry(p, b, cursors[|passed|], centralOffset, endOffset)
               case Err(e) => r == Err(e)
               case Ok(_) => true)
            else r == Ok((passed[i..], cursors[count]))
    decreases |passed| - i
  {
    hide EntryAt, EntryParsed, ReadEntry;
    if i < |passed| {
      EntrySame(p, b, cursors[i], cursors[i + 1], centralOffset, endOffset, passed[i]);
      EntryExact(p, b, cursors[i], cursors[i + 1], centralOffset, endOffset, passed[i]);
      EntriesBefore(p, b, centralOffset, count, endOffset, passed, cursors, i + 1);
      if |passed| == count {
        assert passed[i..] == [passed[i]] + passed[i + 1..];
      }
    }
  }
}
