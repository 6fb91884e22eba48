/** What the parser accepts, on arbitrary bytes: exactly the well-formed archives. */
module ZipSoundness {
  import opened Results
  import opened Bytes
  import opened Text
  import opened Platform
  import opened Zip
  import opened ZipParser
  import opened ZipFormat
  import opened PathRules

  /* ---- In the parser's terms ---- */

  /**
   * The central header at cursor describes the file and ends at next; its local header, name and
   * data lie before the central directory, agree with it, and carry the file's checksum.
   */
  ghost predicate EntryParsed(p: Platform, bytes: Bytes, cursor: nat, next: nat, centralOffset: nat, endOffset: nat, file: File)
    requires centralOffset <= endOffset <= |bytes|
  {
    && cursor + 46 <= next <= endOffset
    && U32(bytes, cursor) == CENTRAL_SIGNATURE
    && next == cursor + 46 + U16(bytes, cursor + 28) + U16(bytes, cursor + 30) + U16(bytes, cursor + 32)
    && U16(bytes, cursor + 34) == 0
    && U16(bytes, cursor + 8) % 2 == 0 && U16(bytes, cursor + 8) / 8 % 2 == 0
    && U16(bytes, cursor + 10) == STORE_METHOD
    && U32(bytes, cursor + 24) == U32(bytes, cursor + 20) == |file.bytes| <= MAX_FILE_BYTES
    && U32(bytes, cursor + 16) == Crc(file.bytes)
    && ReadName(p, bytes[cursor + 46..cursor + 46 + U16(bytes, cursor + 28)]) == Ok(file.path)
    && LocalParsed(p, bytes, cursor, U32(bytes, cursor + 42), centralOffset, file)
  }

  ghost predicate LocalParsed(p: Platform, bytes: Bytes, cursor: nat, local: nat, centralOffset: nat, file: File)
    requires centralOffset <= |bytes| && cursor + 46 <= |bytes|
  {
    && local + 30 <= centralOffset
    && U32(bytes, local) == LOCAL_SIGNATURE
    && U16(bytes, local + 6) == U16(bytes, cursor + 8) && U16(bytes, local + 8) == U16(bytes, cursor + 10)
    && U32(bytes, local + 14) == U32(bytes, cursor + 16)
    && U32(bytes, local + 18) == U32(bytes, cursor + 20) && U32(bytes, local + 22) == U32(bytes, cursor + 24)
    && var nameEnd := local + 30 + U16(bytes, local + 26);
       var dataStart := nameEnd + U16(bytes, local + 28);
       && dataStart + |file.bytes| <= centralOffset
       && p.decode(bytes[local + 30..nameEnd]) == Some(file.path)
       && file.bytes == bytes[dataStart..dataStart + |file.bytes|]
  }

  /** The end record at endOffset closes the bytes, and the entries tile the directory before it. */
  ghost predicate DirectoryParsed(p: Platform, bytes: Bytes, endOffset: nat, cursors: seq<nat>, files: seq<File>) {
    && endOffset + 22 <= |bytes| && U32(bytes, endOffset) == END_SIGNATURE
    && (forall o :: endOffset < o <= |bytes| - 22 ==> U32(bytes, o) != END_SIGNATURE)
    && U16(bytes, endOffset + 4) == 0 && U16(bytes, endOffset + 6) == 0
    && endOffset + 22 + U16(bytes, endOffset + 20) == |bytes|
    && U16(bytes, endOffset + 10) == |files| && 1 <= |files| <= MAX_FILE_COUNT
    && U32(bytes, endOffset + 16) + U32(bytes, endOffset + 12) == endOffset
    && TilesParsed(p, bytes, U32(bytes, endOffset + 16), endOffset, cursors, files)
    && DistinctPaths(files)
  }

  /** Entry i runs from cursor i to cursor i + 1, from the directory's first byte to its last. */
  ghost predicate TilesParsed(p: Platform, bytes: Bytes, centralOffset: nat, endOffset: nat, cursors: seq<nat>, files: seq<File>)
    requires centralOffset <= endOffset <= |bytes|
  {
    && |cursors| == |files| + 1 && cursors[0] == centralOffset && cursors[|files|] == endOffset
    && forall i :: 0 <= i < |files| ==>
         EntryParsed(p, bytes, cursors[i], cursors[i + 1], centralOffset, endOffset, files[i])
  }

  lemma LocalExact(p: Platform, bytes: Bytes, cursor: nat, centralOffset: nat, file: File)
    requires cursor + 46 <= |bytes| && centralOffset <= |bytes|
    requires U32(bytes, cursor + 20) == U32(bytes, cursor + 24)
    ensures ReadLocal(p, bytes, cursor, centralOffset, file.path) == Ok(file)
       <==> && LocalParsed(p, bytes, cursor, U32(bytes, cursor + 42), centralOffset, file)
            && |file.bytes| == U32(bytes, cursor + 20) && Crc(file.bytes) == U32(bytes, cursor + 16)
  {
    hide U16, U32, Crc;
    var local := U32(bytes, cursor + 42);
    if local + 30 <= centralOffset {
      var nameEnd := local + 30 + U16(bytes, local + 26);
      if nameEnd <= centralOffset {
        assert Subarray(bytes, local + 30, nameEnd) == bytes[local + 30..nameEnd];
      }
    }
  }

  lemma ReadLocalPath(p: Platform, bytes: Bytes, cursor: nat, centralOffset: nat, path: Text)
    requires cursor + 46 <= |bytes| && centralOffset <= |bytes|
    ensures ReadLocal(p, bytes, cursor, centralOffset, path).Ok? ==>
              ReadLocal(p, bytes, cursor, centralOffset, path).value.path == path
  {
    hide U16, U32, Crc;
  }

  /** One step of the parser accepts exactly the entries described above. */
  lemma EntryExact(p: Platform, bytes: Bytes, cursor: nat, next: nat, centralOffset: nat, endOffset: nat, file: File)
    requires centralOffset <= endOffset <= |bytes|
    ensures ReadEntry(p, bytes, cursor, centralOffset, endOffset) == Ok((file, next))
       <==> EntryParsed(p, bytes, cursor, next, centralOffset, endOffset, file)
  {
    hide U16, U32, Crc, LocalParsed, ReadLocal, ReadName;
    if cursor + 46 <= endOffset {
      if U32(bytes, cursor + 20) == U32(bytes, cursor + 24) {
        LocalExact(p, bytes, cursor, centralOffset, file);
      }
      var nameEnd := cursor + 46 + U16(bytes, cursor + 28);
      if nameEnd <= endOffset {
        assert Subarray(bytes, cursor + 46, nameEnd) == bytes[cursor + 46..nameEnd];
        match ReadName(p, bytes[cursor + 46..nameEnd])
        case Err(_) =>
        case Ok(path) => ReadLocalPath(p, bytes, cursor, centralOffset, path);
      }
    }
  }

  lemma {:induction false} EntriesTile(p: Platform, bytes: Bytes, cursor: nat, count: nat, centralOffset: nat, endOffset: nat)
    returns (cursors: seq<nat>)
    requires centralOffset <= endOffset <= |bytes|
    requires ReadEntries(p, bytes, cursor, count, centralOffset, endOffset).Ok?
    ensures var (files, last) := ReadEntries(p, bytes, cursor, count, centralOffset, endOffset).value;
            && |files| == count && |cursors| == count + 1 && cursors[0] == cursor && cursors[count] == last
            && forall i :: 0 <= i < count ==>
                 EntryParsed(p, bytes, cursors[i], cursors[i + 1], centralOffset, endOffset, files[i])
    decreases count
  {
    hide EntryParsed, ReadEntry;
    cursors := [cursor];
    if count > 0 {
      var (file, next) := ReadEntry(p, bytes, cursor, centralOffset, endOffset).value;
      EntryExact(p, bytes, cursor, next, centralOffset, endOffset, file);
      var others := EntriesTile(p, bytes, next, count - 1, centralOffset, endOffset);
      cursors := cursors + others;
    }
  }

  lemma {:induction false} TilesRead(p: Platform, bytes: Bytes, centralOffset: nat, endOffset: nat, cursors: seq<nat>, files: seq<File>, i: nat)
    requires centralOffset <= endOffset <= |bytes| && i <= |files|
    requires TilesParsed(p, bytes, centralOffset, endOffset, cursors, files)
    ensures ReadEntries(p, bytes, cursors[i], |files| - i, centralOffset, endOffset) == Ok((files[i..], endOffset))
    decreases |files| - i
  {
    hide EntryParsed, ReadEntry;
    if i < |files| {
      EntryExact(p, bytes, cursors[i], cursors[i + 1], centralOffset, endOffset, files[i]);
      TilesRead(p, bytes, centralOffset, endOffset, cursors, files, i + 1);
      assert files[i..] == [files[i]] + files[i + 1..];
    } else {
      assert files[i..] == [];
    }
  }

  lemma EndExact(bytes: Bytes, endOffset: nat)
    requires 22 <= |bytes| && endOffset + 22 <= |bytes|
    requires endOffset + 22 + U16(bytes, endOffset + 20) == |bytes|
    ensures FindEnd(bytes) == Some(endOffset)
       <==> && U32(bytes, endOffset) == END_SIGNATURE
            && forall o :: endOffset < o <= |bytes| - 22 ==> U32(bytes, o) != END_SIGNATURE
  {
    hide U16, U32;
    FindEndIsLast(bytes, |bytes| - 22, Minimum(|bytes|));
    assert endOffset >= Minimum(|bytes|);
  }

  /** Every accepted archive is well-formed: its entries tile the directory and stay in bounds. */
  lemma SoundRead(p: Platform, bytes: Bytes) returns (endOffset: nat, cursors: seq<nat>)
    requires Parsed(p, bytes).Ok?
    ensures |bytes| <= MAX_ARCHIVE_BYTES && DirectoryParsed(p, bytes, endOffset, cursors, Parsed(p, bytes).value)
  {
    hide U16, U32, EntryParsed, ReadEntry, FindEnd;
    endOffset := FindEnd(bytes).value;
    var centralOffset := U32(bytes, endOffset + 16);
    cursors := EntriesTile(p, bytes, centralOffset, U16(bytes, endOffset + 10), centralOffset, endOffset);
    EndExact(bytes, endOffset);
  }

  /** And every well-formed archive of an allowed size is accepted. */
  lemma CompleteRead(p: Platform, bytes: Bytes, endOffset: nat, cursors: seq<nat>, files: seq<File>)
    requires |bytes| <= MAX_ARCHIVE_BYTES && DirectoryParsed(p, bytes, endOffset, cursors, files)
    ensures Parsed(p, bytes) == Ok(files)
  {
    hide U16, U32, EntryParsed, ReadEntry, FindEnd;
    EndExact(bytes, endOffset);
    TilesRead(p, bytes, U32(bytes, endOffset + 16), endOffset, cursors, files, 0);
    assert files[0..] == files;
  }

  /* ---- In the format's terms ---- */

  /** What these bytes are as a path: UTF-8, safe, and put in normal form. */
  ghost predicate IsName(p: Platform, name: Bytes, path: Text) {
    p.decode(name).Some? && IsSafe(p.decode(name).value) && path == p.normalize(p.decode(name).value)
  }

  /**
   * The central header at cursor describes the file and ends at next: a stored file of at most 100 MiB
   * on the first disk, neither encrypted nor followed by a data descriptor, with its checksum.
   */
  ghost predicate EntryAt(p: Platform, b: Bytes, cursor: nat, next: nat, centralOffset: nat, endOffset: nat, file: File)
    requires centralOffset <= endOffset <= |b|
  {
    && cursor + 46 <= next <= endOffset
    && Field(b, cursor, 4) == 0x0201_4b50
    && Field(b, cursor + 8, 2) % 2 == 0 && Field(b, cursor + 8, 2) / 8 % 2 == 0
    && Field(b, cursor + 10, 2) == 0
    && Field(b, cursor + 16, 4) == Crc(file.bytes)
    && Field(b, cursor + 20, 4) == Field(b, cursor + 24, 4) == |file.bytes| <= 104_857_600
    && Field(b, cursor + 34, 2) == 0
    && next == cursor + 46 + Field(b, cursor + 28, 2) + Field(b, cursor + 30, 2) + Field(b, cursor + 32, 2)
    && IsName(p, b[cursor + 46..cursor + 46 + Field(b, cursor + 28, 2)], file.path)
    && LocalAt(p, b, cursor, Field(b, cursor + 42, 4), centralOffset, file)
  }

  /** The local header, name and data lie before the directory and agree with the central header. */
  ghost predicate LocalAt(p: Platform, b: Bytes, cursor: nat, local: nat, centralOffset: nat, file: File)
    requires centralOffset <= |b| && cursor + 46 <= |b|
  {
    && local + 30 <= centralOffset
    && Field(b, local, 4) == 0x0403_4b50
    && Field(b, local + 6, 2) == Field(b, cursor + 8, 2) && Field(b, local + 8, 2) == Field(b, cursor + 10, 2)
    && Field(b, local + 14, 4) == Field(b, cursor + 16, 4)
    && Field(b, local + 18, 4) == Field(b, cursor + 20, 4) && Field(b, local + 22, 4) == Field(b, cursor + 24, 4)
    && var nameEnd := local + 30 + Field(b, local + 26, 2);
       var dataStart := nameEnd + Field(b, local + 28, 2);
       && dataStart + |file.bytes| <= centralOffset
       && p.decode(b[local + 30..nameEnd]) == Some(file.path)
       && file.bytes == b[dataStart..dataStart + |file.bytes|]
  }

  ghost predicate Tiles(p: Platform, b: Bytes, centralOffset: nat, endOffset: nat, cursors: seq<nat>, files: seq<File>)
    requires centralOffset <= endOffset <= |b|
  {
    && |cursors| == |files| + 1 && cursors[0] == centralOffset && cursors[|files|] == endOffset
    && forall i :: 0 <= i < |files| ==> EntryAt(p, b, cursors[i], cursors[i + 1], centralOffset, endOffset, files[i])
  }

  /** The last end record lies at endOffset and closes the bytes, and the entries tile the directory before it. */
  ghost predicate IsDirectory(p: Platform, b: Bytes, endOffset: nat, cursors: seq<nat>, files: seq<File>) {
    && endOffset + 22 <= |b| && Field(b, endOffset, 4) == 0x0605_4b50
    && (forall o :: endOffset < o <= |b| - 22 ==> Field(b, o, 4) != 0x0605_4b50)
    && Field(b, endOffset + 4, 2) == 0 && Field(b, endOffset + 6, 2) == 0
    && Field(b, endOffset + 10, 2) == |files| && 1 <= |files| <= 2000
    && endOffset + 22 + Field(b, endOffset + 20, 2) == |b|
    && Field(b, endOffset + 16, 4) + Field(b, endOffset + 12, 4) == endOffset
    && Tiles(p, b, Field(b, endOffset + 16, 4), endOffset, cursors, files)
    && forall i, j :: 0 <= i < j < |files| ==> files[i].path != files[j].path
  }

  lemma NameRead(p: Platform, name: Bytes, path: Text)
    ensures ReadName(p, name) == Ok(path) <==> IsName(p, name, path)
  {
    hide IsPath, IsSafe;
    if p.decode(name).Some? {
      ValidIsSafe(p, p.decode(name).value);
    }
  }

  lemma LocalSame(p: Platform, b: Bytes, cursor: nat, local: nat, centralOffset: nat, file: File)
    requires centralOffset <= |b| && cursor + 46 <= |b|
    ensures LocalAt(p, b, cursor, local, centralOffset, file) <==> LocalParsed(p, b, cursor, local, centralOffset, file)
  {
    hide U16, U32, Field;
    if local + 30 <= centralOffset {
      FourByteField(b, local);
      TwoByteField(b, local + 6);
      TwoByteField(b, local + 8);
      FourByteField(b, local + 14);
      FourByteField(b, local + 18);
      FourByteField(b, local + 22);
      TwoByteField(b, local + 26);
      TwoByteField(b, local + 28);
    }
    TwoByteField(b, cursor + 8);
    TwoByteField(b, cursor + 10);
    FourByteField(b, cursor + 16);
    FourByteField(b, cursor + 20);
    FourByteField(b, cursor + 24);
  }

  lemma EntrySame(p: Platform, b: Bytes, cursor: nat, next: nat, centralOffset: nat, endOffset: nat, file: File)
    requires centralOffset <= endOffset <= |b|
    ensures EntryAt(p, b, cursor, next, centralOffset, endOffset, file)
       <==> EntryParsed(p, b, cursor, next, centralOffset, endOffset, file)
  {
    hide U16, U32, Field, LocalAt, LocalParsed, ReadName, IsName, Crc;
    if cursor + 46 <= endOffset {
      FourByteField(b, cursor);
      TwoByteField(b, cursor + 8);
      TwoByteField(b, cursor + 10);
      FourByteField(b, cursor + 16);
      FourByteField(b, cursor + 20);
      FourByteField(b, cursor + 24);
      TwoByteField(b, cursor + 28);
      TwoByteField(b, cursor + 30);
      TwoByteField(b, cursor + 32);
      TwoByteField(b, cursor + 34);
      FourByteField(b, cursor + 42);
      LocalSame(p, b, cursor, U32(b, cursor + 42), centralOffset, file);
      var nameEnd := cursor + 46 + U16(b, cursor + 28);
      if nameEnd <= |b| {
        NameRead(p, b[cursor + 46..nameEnd], file.path);
      }
    }
  }

  lemma TilesSame(p: Platform, b: Bytes, centralOffset: nat, endOffset: nat, cursors: seq<nat>, files: seq<File>)
    requires centralOffset <= endOffset <= |b|
    ensures Tiles(p, b, centralOffset, endOffset, cursors, files) <==> TilesParsed(p, b, centralOffset, endOffset, cursors, files)
  {
    hide EntryAt, EntryParsed;
    if |cursors| == |files| + 1 {
      forall i | 0 <= i < |files|
        ensures EntryAt(p, b, cursors[i], cursors[i + 1], centralOffset, endOffset, files[i])
           <==> EntryParsed(p, b, cursors[i], cursors[i + 1], centralOffset, endOffset, files[i])
      {
        EntrySame(p, b, cursors[i], cursors[i + 1], centralOffset, endOffset, files[i]);
      }
    }
  }

  lemma DirectorySame(p: Platform, b: Bytes, endOffset: nat, cursors: seq<nat>, files: seq<File>)
    ensures IsDirectory(p, b, endOffset, cursors, files) <==> DirectoryParsed(p, b, endOffset, cursors, files)
  {
    hide U16, U32, Field, Tiles, TilesParsed;
    if endOffset + 22 <= |b| {
      FourByteField(b, endOffset);
      TwoByteField(b, endOffset + 4);
      TwoByteField(b, endOffset + 6);
      TwoByteField(b, endOffset + 10);
      FourByteField(b, endOffset + 12);
      FourByteField(b, endOffset + 16);
      TwoByteField(b, endOffset + 20);
      forall o: int | endOffset < o <= |b| - 22 ensures Field(b, o, 4) == U32(b, o) {
        FourByteField(b, o);
      }
      if U32(b, endOffset + 16) <= endOffset {
        TilesSame(p, b, U32(b, endOffset + 16), endOffset, cursors, files);
      }
    }
  }

  /** Every accepted archive is well-formed: its entries tile the directory and stay in bounds. */
  lemma ParsedSound(p: Platform, bytes: Bytes) returns (endOffset: nat, cursors: seq<nat>)
    requires Parsed(p, bytes).Ok?
    ensures |bytes| <= 262_144_000 && IsDirectory(p, bytes, endOffset, cursors, Parsed(p, bytes).value)
  {
    hide IsDirectory, DirectoryParsed, Parsed;
    endOffset, cursors := SoundRead(p, bytes);
    DirectorySame(p, bytes, endOffset, cursors, Parsed(p, bytes).value);
  }

  /** And every well-formed archive of an allowed size is accepted. */
  lemma ParsedComplete(p: Platform, bytes: Bytes, endOffset: nat, cursors: seq<nat>, files: seq<File>)
    requires |bytes| <= 262_144_000 && IsDirectory(p, bytes, endOffset, cursors, files)
    ensures Parsed(p, bytes) == Ok(files)
  {
    hide IsDirectory, DirectoryParsed, Parsed;
    DirectorySame(p, bytes, endOffset, cursors, files);
    CompleteRead(p, bytes, endOffset, cursors, files);
  }

  /** No accepted path can leave its folder: each is the normal form of a safe name that the archive holds. */
  lemma ParsedPathsSafe(p: Platform, bytes: Bytes, f: File)
    requires Parsed(p, bytes).Ok? && f in Parsed(p, bytes).value
    ensures exists from, to :: 0 <= from <= to <= |bytes| && IsName(p, bytes[from..to], f.path)
  {
    hide Parsed, IsName, LocalAt, Field;
    var endOffset, cursors := ParsedSound(p, bytes);
    var files := Parsed(p, bytes).value;
    var i :| 0 <= i < |files| && files[i] == f;
    var central := Field(bytes, endOffset + 16, 4);
    assert EntryAt(p, bytes, cursors[i], cursors[i + 1], central, endOffset, f);
  }
}
