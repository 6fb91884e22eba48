/** The archive writer and parser undo each other, and no field of a written archive wraps. */
module ZipLaws {
  import opened Results
  import opened Bytes
  import opened Text
  import opened Ordering
  import opened Platform
  import opened Zip
  import opened ZipParser
  import opened ZipFormat
  import opened PathRules

  /* ---- What Created returns ---- */

  /** The archive of files that passed every check of the writer. */
  ghost predicate IsCreated(p: Platform, files: seq<File>) {
    && 1 <= |files| <= MAX_FILE_COUNT
    && DistinctPaths(files)
    && !HasTooLarge(files)
    && |Archive(p, files)| <= MAX_ARCHIVE_BYTES
    && forall f :: f in files ==> |p.encode(f.path)| <= 4608
  }

  lemma CreatedIsArchive(p: Platform, files: seq<File>) returns (ordered: seq<File>)
    requires p.Lawful() && Created(p, files).Ok?
    ensures Validated(p, files).Ok? && ordered == Sort(Validated(p, files).value, ByPath(p))
    ensures Created(p, files) == Ok(Archive(p, ordered)) && IsCreated(p, ordered)
  {
    hide Archive, Sort, IsPath;
    var validated := Validated(p, files).value;
    ordered := Sort(validated, ByPath(p));
    SortMembers(validated, ByPath(p));
    forall f | f in ordered ensures |p.encode(f.path)| <= 4608 {
      assert f in validated;
      var i :| 0 <= i < |validated| && validated[i] == f;
      NameLength(p, files[i].path);
    }
  }

  lemma NameLength(p: Platform, path: Text)
    requires p.Lawful() && ValidatePath(p, path).Ok?
    ensures |p.encode(ValidatePath(p, path).value)| <= 4608
  {
  }

  /* ---- Where everything lies ---- */

  /** Bytes b hold part at position at. */
  predicate Holds(b: Bytes, at: nat, part: Bytes) {
    at + |part| <= |b| && b[at..at + |part|] == part
  }

  lemma HoldsInside(b: Bytes, at: nat, part: Bytes, from: nat, inner: Bytes)
    requires Holds(b, at, part) && Holds(part, from, inner)
    ensures Holds(b, at + from, inner)
  {
    forall k | 0 <= k < |inner| ensures b[at + from + k] == inner[k] {
      assert b[at..at + |part|][from + k] == part[from + k];
      assert part[from..from + |inner|][k] == inner[k];
    }
  }

  lemma HoldsFirst(a: Bytes, b: Bytes)
    ensures Holds(a + b, 0, a) && Holds(a + b, |a|, b)
  {
  }

  lemma {:induction false} LocalsHold(p: Platform, files: seq<File>, i: nat)
    requires i < |files|
    ensures |Locals(p, files[..i])| + |Local(p, files[i])| <= |Locals(p, files)|
    ensures Holds(Locals(p, files), |Locals(p, files[..i])|, Local(p, files[i]))
    ensures |Locals(p, files[..i + 1])| == |Locals(p, files[..i])| + |Local(p, files[i])|
  {
    hide Local;
    var front, last := files[..|files| - 1], files[|files| - 1];
    HoldsFirst(Locals(p, front), Local(p, last));
    assert files[..i + 1][..i] == files[..i];
    if i < |front| {
      LocalsHold(p, front, i);
      assert front[..i] == files[..i];
      HoldsInside(Locals(p, files), 0, Locals(p, front), |Locals(p, files[..i])|, Local(p, files[i]));
    } else {
      assert front == files[..i];
    }
  }

  lemma {:induction false} CentralsHold(p: Platform, files: seq<File>, i: nat)
    requires i < |files|
    ensures var central := Central(p, files[i], |Locals(p, files[..i])|);
            && Holds(Centrals(p, files), |Centrals(p, files[..i])|, central)
            && |Centrals(p, files[..i + 1])| == |Centrals(p, files[..i])| + |central|
  {
    hide Central, Locals;
    var front, last := files[..|files| - 1], files[|files| - 1];
    HoldsFirst(Centrals(p, front), Central(p, last, |Locals(p, front)|));
    assert files[..i + 1][..i] == files[..i];
    if i < |front| {
      CentralsHold(p, front, i);
      assert front[..i] == files[..i] && front[..i + 1] == files[..i + 1];
      HoldsInside(Centrals(p, files), 0, Centrals(p, front), |Centrals(p, files[..i])|, Central(p, files[i], |Locals(p, files[..i])|));
    } else {
      assert front == files[..i];
    }
  }

  /** Where central header i begins. */
  function CentralAt(p: Platform, files: seq<File>, i: nat): nat
    requires i <= |files|
  {
    |Locals(p, files)| + |Centrals(p, files[..i])|
  }

  lemma ArchiveHolds(p: Platform, files: seq<File>, i: nat)
    requires i < |files|
    ensures var a := Archive(p, files);
            && Holds(a, |Locals(p, files[..i])|, Local(p, files[i]))
            && Holds(a, CentralAt(p, files, i), Central(p, files[i], |Locals(p, files[..i])|))
            && |Locals(p, files[..i])| + |Local(p, files[i])| <= |Locals(p, files)|
            && CentralAt(p, files, i + 1) == CentralAt(p, files, i) + |Central(p, files[i], |Locals(p, files[..i])|)|
  {
    hide Local, Central, Locals, Centrals, EndRecord;
    LocalsHold(p, files, i);
    CentralsHold(p, files, i);
    var l, c, e := Locals(p, files), Centrals(p, files), EndRecord(|files|, |Centrals(p, files)|, |Locals(p, files)|);
    assert l + c + e == l + (c + e);
    HoldsFirst(l, c + e);
    HoldsFirst(c, e);
    HoldsInside(l + (c + e), |l|, c + e, 0, c);
    HoldsInside(l + (c + e), 0, l, |Locals(p, files[..i])|, Local(p, files[i]));
    HoldsInside(l + (c + e), |l|, c, |Centrals(p, files[..i])|, Central(p, files[i], |Locals(p, files[..i])|));
  }

  lemma ArchiveEnds(p: Platform, files: seq<File>)
    ensures var (a, centralOffset, centralSize) := (Archive(p, files), |Locals(p, files)|, |Centrals(p, files)|);
            && |a| == centralOffset + centralSize + 22
            && Holds(a, centralOffset + centralSize, EndRecord(|files|, centralSize, centralOffset))
  {
    hide Locals, Centrals, EndRecord;
  }

  /* ---- The fields as a reader finds them ---- */

  lemma Read16(b: Bytes, at: nat, n: nat)
    requires Holds(b, at, Le16(n)) && n < 0x1_0000
    ensures U16(b, at) == n
  {
    hide U16, Le16;
    ReadLe16(b, at, n);
  }

  lemma Read32(b: Bytes, at: nat, n: nat)
    requires Holds(b, at, Le32(n)) && n < 0x1_0000_0000
    ensures U32(b, at) == n
  {
    hide U32, Le32;
    ReadLe32(b, at, n);
  }

  lemma SizesFields(b: Bytes, at: nat, crc: nat, size: nat, nameLength: nat)
    requires Holds(b, at, Sizes(crc, size, nameLength))
    requires crc < 0x1_0000_0000 && size < 0x1_0000_0000 && nameLength < 0x1_0000
    ensures U32(b, at) == crc && U32(b, at + 4) == size && U32(b, at + 8) == size && U16(b, at + 12) == nameLength
  {
    hide U16, U32, Le16, Le32;
    var h := Sizes(crc, size, nameLength);
    HoldsInside(b, at, h, 0, Le32(crc));
    HoldsInside(b, at, h, 4, Le32(size));
    HoldsInside(b, at, h, 8, Le32(size));
    HoldsInside(b, at, h, 12, Le16(nameLength));
    Read32(b, at, crc);
    Read32(b, at + 4, size);
    Read32(b, at + 8, size);
    Read16(b, at + 12, nameLength);
  }

  lemma LocalStartFields(b: Bytes, at: nat)
    requires Holds(b, at, LocalStart())
    ensures U32(b, at) == LOCAL_SIGNATURE && U16(b, at + 4) == 20 && U16(b, at + 6) == UTF8_FLAG && U16(b, at + 8) == STORE_METHOD
    ensures U16(b, at + 10) == FIXED_DOS_TIME && U16(b, at + 12) == FIXED_DOS_DATE
  {
    hide U16, U32, Le16, Le32;
    var h := LocalStart();
    HoldsInside(b, at, h, 0, Le32(LOCAL_SIGNATURE));
    HoldsInside(b, at, h, 4, Le16(20));
    HoldsInside(b, at, h, 6, Le16(UTF8_FLAG));
    HoldsInside(b, at, h, 8, Le16(STORE_METHOD));
    HoldsInside(b, at, h, 10, Le16(FIXED_DOS_TIME));
    HoldsInside(b, at, h, 12, Le16(FIXED_DOS_DATE));
    Read32(b, at, LOCAL_SIGNATURE);
    Read16(b, at + 4, 20);
    Read16(b, at + 6, UTF8_FLAG);
    Read16(b, at + 8, STORE_METHOD);
    Read16(b, at + 10, FIXED_DOS_TIME);
    Read16(b, at + 12, FIXED_DOS_DATE);
  }

  lemma CentralStartFields(b: Bytes, at: nat)
    requires Holds(b, at, CentralStart())
    ensures U32(b, at) == CENTRAL_SIGNATURE && U16(b, at + 4) == 0x0314 && U16(b, at + 6) == 20
    ensures U16(b, at + 8) == UTF8_FLAG && U16(b, at + 10) == STORE_METHOD
    ensures U16(b, at + 12) == FIXED_DOS_TIME && U16(b, at + 14) == FIXED_DOS_DATE
  {
    hide U16, U32, Le16, Le32;
    var h := CentralStart();
    HoldsInside(b, at, h, 0, Le32(CENTRAL_SIGNATURE));
    HoldsInside(b, at, h, 4, Le16(0x0314));
    HoldsInside(b, at, h, 6, Le16(20));
    HoldsInside(b, at, h, 8, Le16(UTF8_FLAG));
    HoldsInside(b, at, h, 10, Le16(STORE_METHOD));
    HoldsInside(b, at, h, 12, Le16(FIXED_DOS_TIME));
    HoldsInside(b, at, h, 14, Le16(FIXED_DOS_DATE));
    Read32(b, at, CENTRAL_SIGNATURE);
    Read16(b, at + 4, 0x0314);
    Read16(b, at + 6, 20);
    Read16(b, at + 8, UTF8_FLAG);
    Read16(b, at + 10, STORE_METHOD);
    Read16(b, at + 12, FIXED_DOS_TIME);
    Read16(b, at + 14, FIXED_DOS_DATE);
  }

  lemma CentralMiddleFields(b: Bytes, at: nat)
    requires Holds(b, at, CentralMiddle())
    ensures U16(b, at) == 0 && U16(b, at + 2) == 0 && U16(b, at + 4) == 0 && U16(b, at + 6) == 0
    ensures U32(b, at + 8) == MODE_AND_TYPE
  {
    hide U16, U32, Le16, Le32;
    var h := CentralMiddle();
    HoldsInside(b, at, h, 0, Le16(0));
    HoldsInside(b, at, h, 2, Le16(0));
    HoldsInside(b, at, h, 4, Le16(0));
    HoldsInside(b, at, h, 6, Le16(0));
    HoldsInside(b, at, h, 8, Le32(MODE_AND_TYPE));
    Read16(b, at, 0);
    Read16(b, at + 2, 0);
    Read16(b, at + 4, 0);
    Read16(b, at + 6, 0);
    Read32(b, at + 8, MODE_AND_TYPE);
  }

  /** Every field of a local header holds the value it was given, and the name and data follow. */
  lemma LocalFields(p: Platform, b: Bytes, at: nat, f: File)
    requires Holds(b, at, Local(p, f)) && |p.encode(f.path)| < 0x1_0000 && |f.bytes| < 0x1_0000_0000
    ensures var n := |p.encode(f.path)|;
            && U32(b, at) == LOCAL_SIGNATURE && U16(b, at + 4) == 20 && U16(b, at + 6) == UTF8_FLAG && U16(b, at + 8) == STORE_METHOD
            && U16(b, at + 10) == FIXED_DOS_TIME && U16(b, at + 12) == FIXED_DOS_DATE
            && U32(b, at + 14) == Crc(f.bytes) && U32(b, at + 18) == |f.bytes| && U32(b, at + 22) == |f.bytes|
            && U16(b, at + 26) == n && U16(b, at + 28) == 0
            && at + 30 + n + |f.bytes| <= |b|
            && b[at + 30..at + 30 + n] == p.encode(f.path)
            && b[at + 30 + n..at + 30 + n + |f.bytes|] == f.bytes
  {
    hide U16, U32, Le16, Le32, LocalStart, Sizes, Crc;
    var name, crc, size := p.encode(f.path), Crc(f.bytes), |f.bytes|;
    var part := Local(p, f);
    HoldsInside(b, at, part, 0, LocalStart());
    HoldsInside(b, at, part, 14, Sizes(crc, size, |name|));
    HoldsInside(b, at, part, 28, Le16(0));
    HoldsInside(b, at, part, 30, name);
    HoldsInside(b, at, part, 30 + |name|, f.bytes);
    LocalStartFields(b, at);
    SizesFields(b, at + 14, crc, size, |name|);
    Read16(b, at + 28, 0);
  }

  lemma CentralFields(p: Platform, b: Bytes, at: nat, f: File, offset: nat)
    requires Holds(b, at, Central(p, f, offset))
    requires |p.encode(f.path)| < 0x1_0000 && |f.bytes| < 0x1_0000_0000 && offset < 0x1_0000_0000
    ensures var n := |p.encode(f.path)|;
            && U32(b, at) == CENTRAL_SIGNATURE && U16(b, at + 4) == 0x0314 && U16(b, at + 6) == 20
            && U16(b, at + 8) == UTF8_FLAG && U16(b, at + 10) == STORE_METHOD
            && U16(b, at + 12) == FIXED_DOS_TIME && U16(b, at + 14) == FIXED_DOS_DATE
            && U16(b, at + 36) == 0 && U32(b, at + 38) == MODE_AND_TYPE
            && U32(b, at + 16) == Crc(f.bytes) && U32(b, at + 20) == |f.bytes| && U32(b, at + 24) == |f.bytes|
            && U16(b, at + 28) == n && U16(b, at + 30) == 0 && U16(b, at + 32) == 0 && U16(b, at + 34) == 0
            && U32(b, at + 42) == offset
            && at + 46 + n <= |b|
            && b[at + 46..at + 46 + n] == p.encode(f.path)
  {
    hide U16, U32, Le16, Le32, CentralStart, CentralMiddle, Sizes, Crc;
    var name, crc, size := p.encode(f.path), Crc(f.bytes), |f.bytes|;
    var part := Central(p, f, offset);
    HoldsInside(b, at, part, 0, CentralStart());
    HoldsInside(b, at, part, 16, Sizes(crc, size, |name|));
    HoldsInside(b, at, part, 30, CentralMiddle());
    HoldsInside(b, at, part, 42, Le32(offset));
    HoldsInside(b, at, part, 46, name);
    CentralStartFields(b, at);
    SizesFields(b, at + 16, crc, size, |name|);
    CentralMiddleFields(b, at + 30);
    Read32(b, at + 42, offset);
  }

  lemma EndFields(b: Bytes, at: nat, count: nat, centralSize: nat, offset: nat)
    requires Holds(b, at, EndRecord(count, centralSize, offset))
    requires count < 0x1_0000 && centralSize < 0x1_0000_0000 && offset < 0x1_0000_0000
    ensures U32(b, at) == END_SIGNATURE && U16(b, at + 4) == 0 && U16(b, at + 6) == 0
    ensures U16(b, at + 8) == count && U16(b, at + 10) == count
    ensures U32(b, at + 12) == centralSize && U32(b, at + 16) == offset && U16(b, at + 20) == 0
  {
    hide U16, U32, Le16, Le32;
    var h := EndRecord(count, centralSize, offset);
    HoldsInside(b, at, h, 0, Le32(END_SIGNATURE));
    HoldsInside(b, at, h, 4, Le16(0));
    HoldsInside(b, at, h, 6, Le16(0));
    HoldsInside(b, at, h, 8, Le16(count));
    HoldsInside(b, at, h, 10, Le16(count));
    HoldsInside(b, at, h, 12, Le32(centralSize));
    HoldsInside(b, at, h, 16, Le32(offset));
    HoldsInside(b, at, h, 20, Le16(0));
    Read32(b, at, END_SIGNATURE);
    Read16(b, at + 4, 0);
    Read16(b, at + 6, 0);
    Read16(b, at + 8, count);
    Read16(b, at + 10, count);
    Read32(b, at + 12, centralSize);
    Read32(b, at + 16, offset);
    Read16(b, at + 20, 0);
  }

  /* ---- No field wraps ---- */

  /** Where file i's local header begins: behind the headers, names and data of the files before it. */
  function LocalStartOf(p: Platform, files: seq<File>, i: nat): nat
    requires i <= |files|
  {
    if i == 0 then 0 else LocalStartOf(p, files, i - 1) + 30 + |p.encode(files[i - 1].path)| + |files[i - 1].bytes|
  }

  /** Where its central header begins: behind all local parts and the central headers before it. */
  function CentralStartOf(p: Platform, files: seq<File>, i: nat): nat
    requires i <= |files|
  {
    if i == 0 then LocalStartOf(p, files, |files|) else CentralStartOf(p, files, i - 1) + 46 + |p.encode(files[i - 1].path)|
  }

  /** The local header, name and data of a file, every field with its value. */
  ghost predicate LocalWritten(a: Bytes, at: nat, name: Bytes, f: File) {
    && at + 30 + |name| + |f.bytes| <= |a|
    && Field(a, at, 4) == 0x0403_4b50 && Field(a, at + 4, 2) == 20 && Field(a, at + 6, 2) == 0x0800
    && Field(a, at + 8, 2) == 0 && Field(a, at + 10, 2) == 0 && Field(a, at + 12, 2) == 0x0021
    && Field(a, at + 14, 4) == Crc(f.bytes) && Field(a, at + 18, 4) == |f.bytes| && Field(a, at + 22, 4) == |f.bytes|
    && Field(a, at + 26, 2) == |name| && Field(a, at + 28, 2) == 0
    && a[at + 30..at + 30 + |name|] == name
    && a[at + 30 + |name|..at + 30 + |name| + |f.bytes|] == f.bytes
  }

  /** Its central header, every field with its value, for a local header at this offset. */
  ghost predicate CentralWritten(a: Bytes, at: nat, name: Bytes, f: File, offset: nat) {
    && at + 46 + |name| <= |a|
    && Field(a, at, 4) == 0x0201_4b50 && Field(a, at + 4, 2) == 0x0314 && Field(a, at + 6, 2) == 20
    && Field(a, at + 8, 2) == 0x0800 && Field(a, at + 10, 2) == 0 && Field(a, at + 12, 2) == 0 && Field(a, at + 14, 2) == 0x0021
    && Field(a, at + 16, 4) == Crc(f.bytes) && Field(a, at + 20, 4) == |f.bytes| && Field(a, at + 24, 4) == |f.bytes|
    && Field(a, at + 28, 2) == |name| && Field(a, at + 30, 2) == 0 && Field(a, at + 32, 2) == 0
    && Field(a, at + 34, 2) == 0 && Field(a, at + 36, 2) == 0 && Field(a, at + 38, 4) == 0x81a4_0000
    && Field(a, at + 42, 4) == offset
    && a[at + 46..at + 46 + |name|] == name
  }

  /** The end record closes the archive. */
  ghost predicate EndWritten(a: Bytes, at: nat, count: nat, centralSize: nat, centralOffset: nat) {
    && |a| == at + 22
    && Field(a, at, 4) == 0x0605_4b50 && Field(a, at + 4, 2) == 0 && Field(a, at + 6, 2) == 0
    && Field(a, at + 8, 2) == count && Field(a, at + 10, 2) == count
    && Field(a, at + 12, 4) == centralSize && Field(a, at + 16, 4) == centralOffset && Field(a, at + 20, 2) == 0
  }

  /** Every byte of the archive: local parts, central headers and the end record, one behind the other. */
  ghost predicate IsWritten(p: Platform, a: Bytes, files: seq<File>) {
    var (centralOffset, end) := (LocalStartOf(p, files, |files|), CentralStartOf(p, files, |files|));
    && (forall i :: 0 <= i < |files| ==>
          && LocalWritten(a, LocalStartOf(p, files, i), p.encode(files[i].path), files[i])
          && CentralWritten(a, CentralStartOf(p, files, i), p.encode(files[i].path), files[i], LocalStartOf(p, files, i)))
    && centralOffset <= end && EndWritten(a, end, |files|, end - centralOffset, centralOffset)
  }

  lemma PrefixNext(p: Platform, files: seq<File>, i: nat)
    requires 0 < i <= |files|
    ensures |Locals(p, files[..i])| == |Locals(p, files[..i - 1])| + 30 + |p.encode(files[i - 1].path)| + |files[i - 1].bytes|
    ensures |Centrals(p, files[..i])| == |Centrals(p, files[..i - 1])| + 46 + |p.encode(files[i - 1].path)|
  {
    hide Local, Central;
    var front := files[..i];
    assert front[..i - 1] == files[..i - 1] && front[i - 1] == files[i - 1];
    SizesOf(p, files[i - 1], |Locals(p, files[..i - 1])|);
  }

  lemma {:induction false} LocalStartIs(p: Platform, files: seq<File>, i: nat)
    requires i <= |files|
    ensures LocalStartOf(p, files, i) == |Locals(p, files[..i])|
  {
    hide Locals;
    if i > 0 {
      LocalStartIs(p, files, i - 1);
      PrefixNext(p, files, i);
    } else {
      NoParts(p, files);
    }
  }

  lemma NoParts(p: Platform, files: seq<File>)
    ensures Locals(p, files[..0]) == [] && Centrals(p, files[..0]) == []
  {
  }

  lemma {:induction false} CentralStartIs(p: Platform, files: seq<File>, i: nat)
    requires i <= |files|
    ensures CentralStartOf(p, files, i) == CentralAt(p, files, i) && CentralStartOf(p, files, i) >= LocalStartOf(p, files, |files|)
  {
    hide Locals, Centrals, LocalStartOf;
    if i > 0 {
      CentralStartIs(p, files, i - 1);
      PrefixNext(p, files, i);
    } else {
      LocalStartIs(p, files, |files|);
      assert files[..|files|] == files;
      NoParts(p, files);
    }
  }

  lemma LocalIsWritten(p: Platform, a: Bytes, at: nat, f: File)
    requires Holds(a, at, Local(p, f)) && |p.encode(f.path)| < 0x1_0000 && |f.bytes| < 0x1_0000_0000
    ensures LocalWritten(a, at, p.encode(f.path), f)
  {
    hide U16, U32, Field, Local, Crc;
    LocalFields(p, a, at, f);
    FourByteField(a, at);
    TwoByteField(a, at + 4);
    TwoByteField(a, at + 6);
    TwoByteField(a, at + 8);
    TwoByteField(a, at + 10);
    TwoByteField(a, at + 12);
    FourByteField(a, at + 14);
    FourByteField(a, at + 18);
    FourByteField(a, at + 22);
    TwoByteField(a, at + 26);
    TwoByteField(a, at + 28);
  }

  lemma CentralIsWritten(p: Platform, a: Bytes, at: nat, f: File, offset: nat)
    requires Holds(a, at, Central(p, f, offset))
    requires |p.encode(f.path)| < 0x1_0000 && |f.bytes| < 0x1_0000_0000 && offset < 0x1_0000_0000
    ensures CentralWritten(a, at, p.encode(f.path), f, offset)
  {
    hide U16, U32, Field, Central, Crc;
    CentralFields(p, a, at, f, offset);
    FourByteField(a, at);
    TwoByteField(a, at + 4);
    TwoByteField(a, at + 6);
    TwoByteField(a, at + 8);
    TwoByteField(a, at + 10);
    TwoByteField(a, at + 12);
    TwoByteField(a, at + 14);
    FourByteField(a, at + 16);
    FourByteField(a, at + 20);
    FourByteField(a, at + 24);
    TwoByteField(a, at + 28);
    TwoByteField(a, at + 30);
    TwoByteField(a, at + 32);
    TwoByteField(a, at + 34);
    TwoByteField(a, at + 36);
    FourByteField(a, at + 38);
    FourByteField(a, at + 42);
  }

  lemma EndIsWritten(a: Bytes, at: nat, count: nat, centralSize: nat, offset: nat)
    requires |a| == at + 22 && Holds(a, at, EndRecord(count, centralSize, offset))
    requires count < 0x1_0000 && centralSize < 0x1_0000_0000 && offset < 0x1_0000_0000
    ensures EndWritten(a, at, count, centralSize, offset)
  {
    hide U16, U32, Field, EndRecord;
    EndFields(a, at, count, centralSize, offset);
    FourByteField(a, at);
    TwoByteField(a, at + 4);
    TwoByteField(a, at + 6);
    TwoByteField(a, at + 8);
    TwoByteField(a, at + 10);
    FourByteField(a, at + 12);
    FourByteField(a, at + 16);
    TwoByteField(a, at + 20);
  }

  lemma EntryWritten(p: Platform, files: seq<File>, i: nat)
    requires IsCreated(p, files) && i < |files|
    ensures var a := Archive(p, files);
            && LocalWritten(a, LocalStartOf(p, files, i), p.encode(files[i].path), files[i])
            && CentralWritten(a, CentralStartOf(p, files, i), p.encode(files[i].path), files[i], LocalStartOf(p, files, i))
  {
    hide Local, Central, Locals, Centrals, Archive, LocalWritten, CentralWritten, LocalStartOf, CentralStartOf;
    var a := Archive(p, files);
    assert files[i] in files;
    ArchiveHolds(p, files, i);
    ArchiveEnds(p, files);
    LocalStartIs(p, files, i);
    CentralStartIs(p, files, i);
    LocalIsWritten(p, a, LocalStartOf(p, files, i), files[i]);
    CentralIsWritten(p, a, CentralStartOf(p, files, i), files[i], LocalStartOf(p, files, i));
  }

  /** Field by field and byte by byte, the archive is what the layout asks for. */
  lemma ArchiveWritten(p: Platform, files: seq<File>)
    requires IsCreated(p, files)
    ensures IsWritten(p, Archive(p, files), files)
  {
    hide Locals, Centrals, Archive, EndRecord, LocalWritten, CentralWritten, EndWritten, LocalStartOf, CentralStartOf;
    var a, n := Archive(p, files), |files|;
    forall i | 0 <= i < n
      ensures LocalWritten(a, LocalStartOf(p, files, i), p.encode(files[i].path), files[i])
      ensures CentralWritten(a, CentralStartOf(p, files, i), p.encode(files[i].path), files[i], LocalStartOf(p, files, i))
    {
      EntryWritten(p, files, i);
    }
    assert files[..n] == files;
    LocalStartIs(p, files, n);
    CentralStartIs(p, files, n);
    ArchiveEnds(p, files);
    EndIsWritten(a, CentralStartOf(p, files, n), n, |Centrals(p, files)|, LocalStartOf(p, files, n));
  }

  /**
   * No 16- or 32-bit field of a returned archive wraps, although its size is checked last: each holds
   * its unbounded value, each central offset is its local header's position, and no byte is left open.
   */
  lemma NoFieldWraps(p: Platform, files: seq<File>) returns (ordered: seq<File>)
    requires p.Lawful() && Created(p, files).Ok?
    ensures Validated(p, files).Ok? && ordered == Sort(Validated(p, files).value, ByPath(p))
    ensures forall i, j :: 0 <= i < j < |ordered| ==> p.pathAtMost(ordered[i].path, ordered[j].path)
    ensures IsWritten(p, Created(p, files).value, ordered)
  {
    hide Archive, Sort, IsWritten, Platform.Lawful, IsCreated;
    ordered := CreatedIsArchive(p, files);
    ByPathCompares(p);
    SortSorts(Validated(p, files).value, ByPath(p));
    forall i, j | 0 <= i < j < |ordered| ensures p.pathAtMost(ordered[i].path, ordered[j].path) {
      assert ByPath(p)(ordered[i], ordered[j]);
    }
    ArchiveWritten(p, ordered);
  }

  /* ---- When an archive is created ---- */

  /** The file under the normal form of its path. */
  function Normalised(p: Platform, f: File): File {
    File(p.normalize(f.path), f.bytes)
  }

  function AllNormalised(p: Platform, files: seq<File>): (r: seq<File>)
    ensures |r| == |files| && forall i :: 0 <= i < |r| ==> r[i] == Normalised(p, files[i])
  {
    seq(|files|, i requires 0 <= i < |files| => Normalised(p, files[i]))
  }

  lemma ValidatedNormalised(p: Platform, files: seq<File>)
    ensures Validated(p, files) == if forall f :: f in files ==> IsSafe(f.path) then Ok(AllNormalised(p, files))
                                   else Err("EVIDENCE_ZIP_PATH_INVALID")
  {
    hide IsSafe, ValidatePath, Validated;
    ValidatedMember(p, files);
    ValidatedErr(p, files);
    forall f | f in files
      ensures ValidatePath(p, f.path) == if IsSafe(f.path) then Ok(p.normalize(f.path)) else Err("EVIDENCE_ZIP_PATH_INVALID")
    {
      ValidIsSafe(p, f.path);
    }
    if Validated(p, files).Ok? {
      var r := Validated(p, files).value;
      forall i | 0 <= i < |files| ensures r[i] == Normalised(p, files[i]) {
        assert files[i] in files;
      }
      assert r == AllNormalised(p, files);
    }
  }

  /** The size of the archive of these files. */
  function ArchiveSize(p: Platform, files: seq<File>): nat {
    CentralStartOf(p, files, |files|) + 22
  }

  /** The checks of the writer, in order, for files in any order; and what it returns if all pass. */
  lemma CreatedWhen(p: Platform, files: seq<File>)
    ensures var (r, named) := (Created(p, files), AllNormalised(p, files));
            var ordered := Sort(named, ByPath(p));
            if |files| == 0 || |files| > 2000 then r == Err("EVIDENCE_ZIP_FILE_COUNT_INVALID")
            else if exists f :: f in files && !IsSafe(f.path) then r == Err("EVIDENCE_ZIP_PATH_INVALID")
            else if exists i, j :: 0 <= i < j < |named| && named[i].path == named[j].path then r == Err("EVIDENCE_ZIP_DUPLICATE_PATH")
            else if exists f :: f in files && |f.bytes| > 104_857_600 then r == Err("EVIDENCE_ZIP_FILE_TOO_LARGE")
            else if ArchiveSize(p, ordered) > 262_144_000 then r == Err("EVIDENCE_ZIP_TOO_LARGE")
            else r == Ok(Archive(p, ordered))
  {
    hide IsSafe, ValidatePath, Archive, Sort, Validated, CentralStartOf, Locals, Centrals;
    var named := AllNormalised(p, files);
    var ordered := Sort(named, ByPath(p));
    ValidatedNormalised(p, files);
    SortPermutes(named, ByPath(p));
    SortMembers(named, ByPath(p));
    if DistinctPaths(named) {
      DistinctPermutes(named, ordered, (f: File) => f.path);
    }
    if DistinctPaths(ordered) {
      DistinctPermutes(ordered, named, (f: File) => f.path);
    }
    TooLargeKept(p, files, ordered);
    CentralStartIs(p, ordered, |ordered|);
    assert ordered[..|ordered|] == ordered;
    ArchiveEnds(p, ordered);
  }

  lemma TooLargeKept(p: Platform, files: seq<File>, ordered: seq<File>)
    requires forall f :: f in ordered <==> f in AllNormalised(p, files)
    ensures HasTooLarge(ordered) <==> exists f :: f in files && |f.bytes| > 104_857_600
  {
    if f :| f in files && |f.bytes| > 104_857_600 {
      var i :| 0 <= i < |files| && files[i] == f;
      assert AllNormalised(p, files)[i] in ordered;
    }
    if f :| f in ordered && |f.bytes| > 104_857_600 {
      var i :| 0 <= i < |files| && AllNormalised(p, files)[i] == f;
      assert files[i] in files;
    }
  }

  /* ---- Parsing a created archive ---- */

  /** What reading a written name gives: decoded, validated, and unchanged by both. */
  function Reread(p: Platform, path: Text): Result<Text> {
    match ReadName(p, p.encode(path))
    case Err(e) => Err(e)
    case Ok(read) => if p.decode(p.encode(path)) == Some(read) then Ok(read) else Err(NAME_MISMATCH)
  }

  /** The path comes back from its own encoding, and is its own validated form. */
  predicate Survives(p: Platform, path: Text) {
    p.decode(p.encode(path)) == Some(path) && ValidatePath(p, path) == Ok(path)
  }

  lemma RereadSurvives(p: Platform, path: Text)
    ensures Reread(p, path) == Ok(path) <==> Survives(p, path)
  {
    hide IsPath;
  }

  /** The parser's step over entry i: everything matches but, perhaps, the name. */
  lemma EntryRead(p: Platform, files: seq<File>, i: nat)
    requires IsCreated(p, files) && i < |files|
    ensures var a, centralOffset := Archive(p, files), |Locals(p, files)|;
            var endOffset := centralOffset + |Centrals(p, files)|;
            var entry := ReadEntry(p, a, CentralAt(p, files, i), centralOffset, endOffset);
            && endOffset <= |a|
            && match Reread(p, files[i].path)
               case Err(e) => entry == Err(e)
               case Ok(path) => entry == Ok((File(path, files[i].bytes), CentralAt(p, files, i + 1)))
  {
    hide U16, U32, Local, Central, Locals, Centrals, Archive, EndRecord, Crc, ReadName, ReadEntry, ReadLocal;
    var a, local, central := Archive(p, files), |Locals(p, files[..i])|, CentralAt(p, files, i);
    var f, centralOffset := files[i], |Locals(p, files)|;
    var n := |p.encode(f.path)|;
    assert f in files;
    ArchiveHolds(p, files, i);
    ArchiveEnds(p, files);
    LocalFields(p, a, local, f);
    CentralFields(p, a, central, f, local);
    CentralsBound(p, files, i + 1);
    SizesOf(p, f, local);
    EntryReadFields(p, a, central, local, f, centralOffset, centralOffset + |Centrals(p, files)|);
  }

  lemma SizesOf(p: Platform, f: File, offset: nat)
    ensures |Local(p, f)| == 30 + |p.encode(f.path)| + |f.bytes|
    ensures |Central(p, f, offset)| == 46 + |p.encode(f.path)|
  {
    hide LocalHeader, CentralHeader;
  }

  lemma CentralsBound(p: Platform, files: seq<File>, i: nat)
    requires i <= |files|
    ensures |Centrals(p, files[..i])| <= |Centrals(p, files)|
    decreases |files| - i
  {
    hide Central, Locals;
    if i < |files| {
      CentralsHold(p, files, i);
      CentralsBound(p, files, i + 1);
    } else {
      assert files[..i] == files;
    }
  }

  /** The parser's step over an entry whose fields are as written. */
  lemma EntryReadFields(p: Platform, b: Bytes, central: nat, local: nat, f: File, centralOffset: nat, endOffset: nat)
    requires var n := |p.encode(f.path)|;
             && centralOffset <= endOffset <= |b| && central + 46 + n <= endOffset && local + 30 + n + |f.bytes| <= centralOffset
             && U32(b, local) == LOCAL_SIGNATURE && U16(b, local + 6) == UTF8_FLAG && U16(b, local + 8) == STORE_METHOD
             && U32(b, local + 14) == Crc(f.bytes) && U32(b, local + 18) == |f.bytes| && U32(b, local + 22) == |f.bytes|
             && U16(b, local + 26) == n && U16(b, local + 28) == 0
             && b[local + 30..local + 30 + n] == p.encode(f.path)
             && b[local + 30 + n..local + 30 + n + |f.bytes|] == f.bytes
             && U32(b, central) == CENTRAL_SIGNATURE && U16(b, central + 8) == UTF8_FLAG && U16(b, central + 10) == STORE_METHOD
             && U32(b, central + 16) == Crc(f.bytes) && U32(b, central + 20) == |f.bytes| && U32(b, central + 24) == |f.bytes|
             && U16(b, central + 28) == n && U16(b, central + 30) == 0 && U16(b, central + 32) == 0 && U16(b, central + 34) == 0
             && U32(b, central + 42) == local
             && b[central + 46..central + 46 + n] == p.encode(f.path)
             && |f.bytes| <= MAX_FILE_BYTES
    ensures match Reread(p, f.path)
            case Err(e) => ReadEntry(p, b, central, centralOffset, endOffset) == Err(e)
            case Ok(path) =>
              (ReadEntry(p, b, central, centralOffset, endOffset) == Ok((File(path, f.bytes), central + 46 + |p.encode(f.path)|)))
  {
    hide U16, U32, Crc, ReadName;
    var n := |p.encode(f.path)|;
    assert Subarray(b, central + 46, central + 46 + n) == p.encode(f.path);
    assert Subarray(b, local + 30, local + 30 + n) == p.encode(f.path);
    ReadNameDecodes(p, p.encode(f.path));
  }

  lemma ReadNameDecodes(p: Platform, name: Bytes)
    ensures ReadName(p, name).Ok? ==> p.decode(name).Some?
  {
  }

  /** The files as the parser reads them back, or the first error of a name. */
  function RereadAll(p: Platform, files: seq<File>): (r: Result<seq<File>>)
    ensures r.Ok? ==> |r.value| == |files|
    ensures r.Ok? ==> forall i :: 0 <= i < |files| ==>
              Reread(p, files[i].path) == Ok(r.value[i].path) && r.value[i].bytes == files[i].bytes
  {
    if files == [] then Ok([])
    else match Reread(p, files[0].path)
      case Err(e) => Err(e)
      case Ok(path) =>
        match RereadAll(p, files[1..])
        case Err(e) => Err(e)
        case Ok(others) => Ok([File(path, files[0].bytes)] + others)
  }

  lemma {:induction false} RereadsSurvive(p: Platform, files: seq<File>)
    ensures RereadAll(p, files) == Ok(files) <==> forall f :: f in files ==> Survives(p, f.path)
  {
    hide Survives, Reread;
    if files != [] {
      RereadsSurvive(p, files[1..]);
      RereadSurvives(p, files[0].path);
      assert files == [files[0]] + files[1..];
    }
  }

  /** From entry i on, the parser returns the reread files, and ends at the end record. */
  lemma {:induction false} EntriesRead(p: Platform, files: seq<File>, i: nat)
    requires IsCreated(p, files) && i <= |files|
    ensures |Locals(p, files)| + |Centrals(p, files)| <= |Archive(p, files)|
    ensures var (a, centralOffset) := (Archive(p, files), |Locals(p, files)|);
            var endOffset := centralOffset + |Centrals(p, files)|;
            var r := ReadEntries(p, a, CentralAt(p, files, i), |files| - i, centralOffset, endOffset);
            match RereadAll(p, files[i..])
            case Err(e) => r == Err(e)
            case Ok(read) => r == Ok((read, endOffset))
    decreases |files| - i
  {
    hide Locals, Centrals, Archive, ReadEntry, Reread, IsCreated;
    ArchiveEnds(p, files);
    if i < |files| {
      EntryRead(p, files, i);
      EntriesRead(p, files, i + 1);
      assert files[i..][1..] == files[i + 1..];
    } else {
      assert files[..i] == files && files[i..] == [];
    }
  }

  lemma EndFound(p: Platform, files: seq<File>)
    requires IsCreated(p, files)
    ensures var a, end := Archive(p, files), |Locals(p, files)| + |Centrals(p, files)|;
            && 22 <= |a| && FindEnd(a) == Some(end) && CheckEnd(a, end) == None
            && U32(a, end + 16) == |Locals(p, files)| && U16(a, end + 10) == |files|
  {
    hide U16, U32, Locals, Centrals, Archive, EndRecord;
    ArchiveEnds(p, files);
    EndFields(Archive(p, files), |Locals(p, files)| + |Centrals(p, files)|, |files|, |Centrals(p, files)|, |Locals(p, files)|);
  }

  /** What the parser makes of an archive whose names are reread so. */
  function Reparsed(reread: Result<seq<File>>): Result<seq<File>> {
    match reread
    case Err(e) => Err(e)
    case Ok(files) => if DistinctPaths(files) then Ok(files) else Err(DUPLICATE_PATH)
  }

  lemma ArchiveReparsed(p: Platform, files: seq<File>)
    requires IsCreated(p, files)
    ensures Parsed(p, Archive(p, files)) == Reparsed(RereadAll(p, files))
  {
    hide U16, U32, Locals, Centrals, Archive, FindEnd, CheckEnd, ReadEntries, RereadAll;
    EndFound(p, files);
    EntriesRead(p, files, 0);
    assert files[..0] == [] && files[0..] == files;
    NoCentrals(p);
  }

  /** The files in order of their validated paths. */
  function OrderedFiles(p: Platform, files: seq<File>): seq<File>
    requires Validated(p, files).Ok?
  {
    Sort(Validated(p, files).value, ByPath(p))
  }

  /** For every returned archive, the parser's result or error: each path decoded and validated once more. */
  lemma CreatedReparsed(p: Platform, files: seq<File>)
    requires p.Lawful() && Created(p, files).Ok?
    ensures Validated(p, files).Ok?
    ensures Parsed(p, Created(p, files).value) == Reparsed(RereadAll(p, OrderedFiles(p, files)))
  {
    hide Parsed, Created, RereadAll, Reparsed, Sort;
    var ordered := CreatedIsArchive(p, files);
    ArchiveReparsed(p, ordered);
  }

  lemma NoCentrals(p: Platform)
    ensures Centrals(p, []) == []
  {
  }

  /**
   * Parsing a returned archive gives back the path-sorted files exactly when every validated path
   * survives its own encoding and a second validation.
   */
  lemma RoundTrip(p: Platform, files: seq<File>) returns (ordered: seq<File>)
    requires p.Lawful() && Created(p, files).Ok?
    ensures Validated(p, files).Ok? && ordered == Sort(Validated(p, files).value, ByPath(p))
    ensures Parsed(p, Created(p, files).value) == Ok(ordered)
       <==> forall f :: f in Validated(p, files).value ==> Survives(p, f.path)
  {
    hide Parsed, Created, Survives, Sort, RereadAll;
    ordered := CreatedIsArchive(p, files);
    CreatedReparsed(p, files);
    RereadsSurvive(p, ordered);
    SortMembers(Validated(p, files).value, ByPath(p));
  }

  /* ---- Input order ---- */

  /** The path order ties no two different paths of these files. */
  ghost predicate PathsSeparated(p: Platform, files: seq<File>) {
    forall f, g :: f in files && g in files && p.pathAtMost(f.path, g.path) && p.pathAtMost(g.path, f.path) ==> f.path == g.path
  }

  lemma ByPathCompares(p: Platform)
    requires p.Lawful()
    ensures Comparator(ByPath(p))
  {
    var atMost := ByPath(p);
    forall a: File, b: File ensures atMost(a, b) || atMost(b, a) {
      assert p.pathAtMost(a.path, b.path) || p.pathAtMost(b.path, a.path);
    }
    forall a: File, b: File, c: File | atMost(a, b) && atMost(b, c) ensures atMost(a, c) {
      assert p.pathAtMost(a.path, b.path) && p.pathAtMost(b.path, c.path);
    }
  }

  ghost predicate PathsOnce(files: seq<File>) {
    forall f, g :: f in files && g in files && f.path == g.path ==> f == g
  }

  lemma DistinctOnce(files: seq<File>)
    requires DistinctPaths(files)
    ensures PathsOnce(files)
  {
  }

  /** The same files in another order are validated to the same files in another order. */
  lemma {:induction false} ValidatedMember(p: Platform, files: seq<File>)
    ensures Validated(p, files).Ok? <==> forall f :: f in files ==> ValidatePath(p, f.path).Ok?
  {
    hide ValidatePath;
    if files != [] {
      ValidatedMember(p, files[1..]);
      assert files == [files[0]] + files[1..];
    }
  }

  function ValidFile(p: Platform, f: File): File
    requires ValidatePath(p, f.path).Ok?
  {
    File(ValidatePath(p, f.path).value, f.bytes)
  }

  lemma {:induction false} ValidatedPermutes(p: Platform, a: seq<File>, b: seq<File>)
    requires multiset(a) == multiset(b) && Validated(p, a).Ok? && Validated(p, b).Ok?
    ensures multiset(Validated(p, a).value) == multiset(Validated(p, b).value)
  {
    hide ValidatePath;
    SameMembers(a, b);
    if a != [] {
      assert a[0] in b;
      var k :| 0 <= k < |b| && b[k] == a[0];
      var rest := b[..k] + b[k + 1..];
      RemoveOne(a, b, k);
      ValidatedWithout(p, b, k);
      ValidatedWithout(p, a, 0);
      assert a[..0] + a[1..] == a[1..];
      ValidatedPermutes(p, a[1..], rest);
    }
  }

  lemma {:induction false} ValidatedWithout(p: Platform, files: seq<File>, k: nat)
    requires k < |files| && Validated(p, files).Ok?
    ensures ValidatePath(p, files[k].path).Ok?
    ensures Validated(p, files[..k] + files[k + 1..]).Ok?
    ensures multiset(Validated(p, files).value)
         == multiset{ValidFile(p, files[k])} + multiset(Validated(p, files[..k] + files[k + 1..]).value)
  {
    hide ValidatePath, Validated, ValidFile;
    var rest := files[..k] + files[k + 1..];
    ValidatedNext(p, files);
    if k == 0 {
      assert rest == files[1..];
    } else {
      ValidatedWithout(p, files[1..], k - 1);
      assert rest[1..] == files[1..][..k - 1] + files[1..][k..];
      ValidatedNext(p, rest);
    }
  }

  lemma ValidatedNext(p: Platform, files: seq<File>)
    requires files != [] && ValidatePath(p, files[0].path).Ok?
    ensures Validated(p, files).Ok? <==> Validated(p, files[1..]).Ok?
    ensures Validated(p, files).Ok? ==>
              Validated(p, files).value == [ValidFile(p, files[0])] + Validated(p, files[1..]).value
  {
    hide ValidatePath;
  }

  /** The archive, or the error, does not depend on the order in which the files are given. */
  lemma InputOrderForgotten(p: Platform, a: seq<File>, b: seq<File>)
    requires p.Lawful() && multiset(a) == multiset(b)
    requires Validated(p, a).Ok? ==> PathsSeparated(p, Validated(p, a).value)
    ensures Created(p, a) == Created(p, b)
  {
    hide Archive, ValidatePath, Sort, Assembled;
    SameMembers(a, b);
    ValidatedMember(p, a);
    ValidatedMember(p, b);
    ValidatedErr(p, a);
    ValidatedErr(p, b);
    if Validated(p, a).Ok? {
      ValidatedPermutes(p, a, b);
      OrderedSame(p, Validated(p, a).value, Validated(p, b).value);
    }
  }

  lemma {:induction false} ValidatedErr(p: Platform, files: seq<File>)
    ensures Validated(p, files).Err? ==> Validated(p, files).code == PATH_INVALID
  {
    hide IsPath;
    if files != [] {
      ValidatedErr(p, files[1..]);
    }
  }

  lemma OrderedSame(p: Platform, a: seq<File>, b: seq<File>)
    requires p.Lawful() && multiset(a) == multiset(b) && PathsSeparated(p, a)
    ensures var (x, y) := (Sort(a, ByPath(p)), Sort(b, ByPath(p)));
            Assembled(p, x) == Assembled(p, y)
  {
    hide Sort, Archive, HasTooLarge;
    var x, y := Sort(a, ByPath(p)), Sort(b, ByPath(p));
    SortMembers(a, ByPath(p));
    SortMembers(b, ByPath(p));
    SameMembers(a, b);
    if DistinctPaths(x) || DistinctPaths(y) {
      if DistinctPaths(x) {
        DistinctOnce(x);
      } else {
        DistinctOnce(y);
      }
      assert PathsOnce(a);
      ByPathCompares(p);
      SortForgetsOrder(a, b, ByPath(p));
    }
  }
}
