/** The package the worker builds from good paths, read back by the verifier. */
module EvidenceRoundTrip {
  import opened Results
  import opened Bytes
  import opened Text
  import opened Ordering
  import opened Platform
  import opened JsonNumber
  import opened CanonicalJson
  import opened Evidence
  import opened EvidenceVerifier
  import opened EvidenceMeaning
  import CanonicalJsonLaws
  import JsonParser
  import Zip
  import ZipLaws
  import ZipParser

  /* ---- The manifest reads back ---- */

  lemma {:induction false} MemberValueIs(members: seq<Member>, i: nat)
    requires DistinctKeys(members) && i < |members|
    ensures MemberValue(members, members[i].key) == members[i].value
  {
    if i > 0 {
      MemberValueIs(members[1..], i - 1);
    }
  }

  /** Canonical form keeps every property, itself in canonical form. */
  lemma PropertyOfCanon(members: seq<Member>, i: nat)
    requires DistinctKeys(members) && i < |members|
    ensures Canon(Obj(members)).Obj? && Property(Canon(Obj(members)), members[i].key) == Canon(members[i].value)
  {
    hide Canon, Sort;
    CanonObj(members);
    var sorted := Sort(members, KeyAtMost);
    JsonParser.SortDistinct(members);
    SortMembers(members, KeyAtMost);
    assert members[i] in sorted;
    var j :| 0 <= j < |sorted| && sorted[j] == members[i];
    assert DistinctKeys(CanonMembers(sorted));
    MemberValueIs(CanonMembers(sorted), j);
  }

  /** An entry's JSON has exactly these four properties. */
  lemma EntryProperties(e: Entry)
    ensures var v := Canon(EntryJson(e));
            && v.Obj? && |v.members| == 4
            && Property(v, Lit("path")) == Str(e.path) && Property(v, Lit("sha256")) == Str(e.sha256)
            && Property(v, Lit("bytes")) == Number(NatNumber(e.bytes)) && Property(v, Lit("mediaType")) == Str(e.mediaType)
  {
    hide Property, NatNumber, Sort;
    var members := EntryJson(e).members;
    assert DistinctKeys(members);
    CanonObj(members);
    PropertyOfCanon(members, 0);
    PropertyOfCanon(members, 1);
    PropertyOfCanon(members, 2);
    PropertyOfCanon(members, 3);
    NatNumberPositive(e.bytes);
  }

  lemma NatNumberPositive(n: nat)
    ensures Canon(Number(NatNumber(n))) == Number(NatNumber(n))
  {
  }

  /** The manifest's JSON has exactly these five properties. */
  lemma ManifestProperties(m: Manifest)
    ensures var v := Canon(ManifestJson(m));
            && v.Obj? && |v.members| == 5
            && Property(v, Lit("schema")) == Str(Lit("kommunsign.evidence-package.v1")) && Property(v, Lit("createdAt")) == Str(m.createdAt)
            && Property(v, Lit("signatureCaseId")) == Str(m.signatureCaseId)
            && Property(v, Lit("entries")) == Canon(Arr(EntryJsons(m.entries)))
            && Property(v, Lit("metadata")) == Canon(m.metadata)
  {
    hide Property, Sort, EntryJsons;
    var members := ManifestJson(m).members;
    assert DistinctKeys(members);
    CanonObj(members);
    PropertyOfCanon(members, 0);
    PropertyOfCanon(members, 1);
    PropertyOfCanon(members, 2);
    PropertyOfCanon(members, 3);
    PropertyOfCanon(members, 4);
  }

  /** The manifest of a package: what it is told, and each file's path, hash, size and type once, in path order. */
  lemma ManifestContents(p: Platform, caseId: Text, files: seq<EvidenceFile>, metadata: Json, createdAt: Text)
    requires p.Lawful()
    ensures var m := ManifestOf(p, caseId, files, metadata, createdAt);
            && m.createdAt == createdAt && m.signatureCaseId == caseId && m.metadata == metadata
            && |m.entries| == |files|
            && (forall i, j :: 0 <= i < j < |m.entries| ==> p.pathAtMost(m.entries[i].path, m.entries[j].path))
            && forall e :: e in m.entries <==>
                 exists f :: f in files && e == Entry(f.path, p.sha256(f.bytes), |f.bytes|, f.mediaType)
  {
    hide Sort, Platform.Lawful;
    var entries := EntriesOf(p, files);
    PathOrder(p);
    SortSorts(entries, ByEntryPath(p));
    SortMembers(entries, ByEntryPath(p));
    var m := ManifestOf(p, caseId, files, metadata, createdAt);
    forall i, j | 0 <= i < j < |m.entries| ensures p.pathAtMost(m.entries[i].path, m.entries[j].path) {
      assert ByEntryPath(p)(m.entries[i], m.entries[j]);
    }
    forall e ensures e in m.entries <==> exists f :: f in files && e == Entry(f.path, p.sha256(f.bytes), |f.bytes|, f.mediaType) {
      if e in m.entries {
        var i :| 0 <= i < |entries| && entries[i] == e;
        assert files[i] in files;
      }
      if f :| f in files && e == Entry(f.path, p.sha256(f.bytes), |f.bytes|, f.mediaType) {
        var i :| 0 <= i < |files| && files[i] == f;
        assert entries[i] == e;
      }
    }
  }

  lemma PathOrder(p: Platform)
    requires p.Lawful()
    ensures Comparator(ByEntryPath(p))
  {
    var atMost := ByEntryPath(p);
    forall a, b ensures atMost(a, b) || atMost(b, a) {
      assert p.pathAtMost(a.path, b.path) || p.pathAtMost(b.path, a.path);
    }
    forall a, b, c | atMost(a, b) && atMost(b, c) ensures atMost(a, c) {
      assert p.pathAtMost(a.path, b.path) && p.pathAtMost(b.path, c.path);
    }
  }

  function ReadOf(e: Entry): ReadEntry {
    ReadEntry(e.path, Str(e.sha256), e.bytes)
  }

  function ReadsOf(entries: seq<Entry>): (r: seq<ReadEntry>)
    ensures |r| == |entries| && forall i :: 0 <= i < |r| ==> r[i] == ReadOf(entries[i])
  {
    seq(|entries|, i requires 0 <= i < |entries| => ReadOf(entries[i]))
  }

  predicate PathFixed(p: Platform, path: Text) {
    Zip.IsPath(path) && p.normalize(path) == path
  }

  predicate GoodEntry(p: Platform, e: Entry) {
    PathFixed(p, e.path) && IsDigest(e.sha256) && e.bytes <= MAX_SAFE_INTEGER
  }

  lemma EntryReads(p: Platform, e: Entry)
    requires GoodEntry(p, e)
    ensures ReadManifestEntry(p, Canon(EntryJson(e))) == Ok(ReadOf(e))
  {
    hide Canon, EntryJson, Property, Zip.IsPath, NatNumber;
    EntryProperties(e);
    NatNumberValue(e.bytes);
  }

  lemma {:induction false} EntriesRead(p: Platform, entries: seq<Entry>, items: seq<Json>)
    requires forall i :: 0 <= i < |entries| ==> GoodEntry(p, entries[i])
    requires |items| == |entries| && forall i :: 0 <= i < |entries| ==> items[i] == Canon(EntryJson(entries[i]))
    ensures ReadManifestEntries(p, items) == Ok(ReadsOf(entries))
  {
    hide GoodEntry, ReadManifestEntry, Canon, EntryJson;
    if entries != [] {
      EntryReads(p, entries[0]);
      EntriesRead(p, entries[1..], items[1..]);
      assert ReadsOf(entries) == [ReadOf(entries[0])] + ReadsOf(entries[1..]);
    }
  }

  lemma ManifestEncodable(m: Manifest)
    requires Encode(ManifestJson(m)).Ok? && IsValue(m.metadata)
    ensures Encodable(ManifestJson(m)) && IsValue(ManifestJson(m))
  {
    EncodePrintsCanon(ManifestJson(m));
    hide Encode, Canon;
    EntriesAreValues(m.entries);
  }

  lemma EntriesAreValues(entries: seq<Entry>)
    ensures IsValue(Arr(EntryJsons(entries)))
  {
    forall i | 0 <= i < |entries| ensures IsValue(EntryJsons(entries)[i]) {
      EntryIsValue(entries[i]);
    }
  }

  lemma EntryIsValue(e: Entry)
    ensures IsValue(EntryJson(e))
  {
  }

  /** The manifest's UTF-8 canonical JSON is parsed back to its entries. */
  lemma ManifestReads(p: Platform, m: Manifest)
    requires p.Lawful() && Encode(ManifestJson(m)).Ok? && IsValue(m.metadata)
    requires forall i :: 0 <= i < |m.entries| ==> GoodEntry(p, m.entries[i])
    requires DistinctEntries(ReadsOf(m.entries))
    ensures ReadManifest(p, p.encode(Encode(ManifestJson(m)).value)) == Ok(ReadsOf(m.entries))
  {
    hide Encode, Canon, GoodEntry, JsonParser.Parse, ManifestJson, EntryJson, Property, WellFormed, EntryJsons;
    var text := Encode(ManifestJson(m)).value;
    ManifestEncodable(m);
    CanonicalJsonLaws.EncodedWellFormed(ManifestJson(m));
    assert p.decode(p.encode(text)) == Some(text);
    CanonicalJsonLaws.ParseEncoded(ManifestJson(m));
    ManifestProperties(m);
    var items := CanonArr(EntryJsons(m.entries));
    EntriesRead(p, m.entries, items);
  }

  /* ---- The checksum file reads back ---- */

  lemma SplitUnit(text: Text, u: Unit)
    requires u != NEWLINE
    ensures var lines := SplitLines(text);
            SplitLines(text + [u]) == lines[..|lines| - 1] + [lines[|lines| - 1] + [u]]
  {
    assert (text + [u])[..|text|] == text;
  }

  lemma {:induction false} SplitAppend(text: Text, line: Text)
    requires NEWLINE !in line
    ensures var lines := SplitLines(text);
            SplitLines(text + line) == lines[..|lines| - 1] + [lines[|lines| - 1] + line]
  {
    hide SplitLines;
    var lines := SplitLines(text);
    if line == [] {
      assert text + line == text;
      assert lines[|lines| - 1] + line == lines[|lines| - 1];
    } else {
      var front, u := line[..|line| - 1], line[|line| - 1];
      SplitAppend(text, front);
      SplitUnit(text + front, u);
      assert text + line == text + front + [u];
      assert lines[|lines| - 1] + line == lines[|lines| - 1] + front + [u];
    }
  }

  lemma SplitNewline(text: Text)
    ensures SplitLines(text + [NEWLINE]) == SplitLines(text) + [[]]
  {
    assert (text + [NEWLINE])[..|text|] == text;
  }

  function ChecksumLines(entries: seq<Entry>): (lines: seq<Text>)
    ensures |lines| == |entries| && forall i :: 0 <= i < |lines| ==> lines[i] == ChecksumLine(entries[i])
  {
    seq(|entries|, i requires 0 <= i < |entries| => ChecksumLine(entries[i]))
  }

  lemma {:induction false} LinesSplit(entries: seq<Entry>)
    requires forall e :: e in entries ==> NEWLINE !in ChecksumLine(e)
    ensures SplitLines(Lines(entries)) == ChecksumLines(entries) + [[]]
  {
    hide ChecksumLine, SplitLines;
    if entries == [] {
      SplitNothing();
    } else {
      var front, last := entries[..|entries| - 1], entries[|entries| - 1];
      LinesSplit(front);
      SplitAppend(Lines(front), ChecksumLine(last));
      SplitNewline(Lines(front) + ChecksumLine(last));
      assert [] + ChecksumLine(last) == ChecksumLine(last);
      assert ChecksumLines(entries) == ChecksumLines(front) + [ChecksumLine(last)];
    }
  }

  lemma SplitNothing()
    ensures SplitLines([]) == [[]]
  {
  }

  lemma LineMatches(p: Platform, e: Entry)
    requires GoodEntry(p, e) && !HasTerminator(e.path)
    ensures ChecksumLine(e) != [] && NEWLINE !in ChecksumLine(e)
    ensures GoodLine(p, ChecksumLine(e)) && LinePath(p, ChecksumLine(e)) == e.path && LineSum(ChecksumLine(e)) == e.sha256
  {
    hide Zip.IsPath;
    var line := ChecksumLine(e);
    PathNotEmpty(e.path);
    assert line[..64] == e.sha256 && line[64..66] == Lit("  ") && line[66..] == e.path;
    assert forall u :: u in e.path ==> !IsTerminator(u);
    assert forall u :: u in line ==> u in e.sha256 || u in Lit("  ") || u in e.path;
  }

  lemma PathNotEmpty(path: Text)
    requires Zip.IsPath(path)
    ensures path != []
  {
  }

  lemma ChecksumSplit(p: Platform, entries: seq<Entry>)
    requires forall e :: e in entries ==> NEWLINE !in ChecksumLine(e)
    ensures var sorted := Sort(entries, ByEntryPath(p));
            SplitLines(ChecksumText(p, entries)) == ChecksumLines(sorted) + (if sorted == [] then [[], []] else [[]])
  {
    hide Sort, ChecksumLine, SplitLines;
    var sorted := Sort(entries, ByEntryPath(p));
    SortMembers(entries, ByEntryPath(p));
    LinesSplit(sorted);
    if sorted == [] {
      SplitNothing();
      SplitNewline([]);
      assert [] + [NEWLINE] == [NEWLINE];
    }
  }

  function SumsOf(entries: seq<Entry>): map<Text, Text> {
    if entries == [] then map[]
    else SumsOf(entries[..|entries| - 1])[entries[|entries| - 1].path := entries[|entries| - 1].sha256]
  }

  predicate DistinctEntryPaths(entries: seq<Entry>) {
    forall i, j :: 0 <= i < j < |entries| ==> entries[i].path != entries[j].path
  }

  lemma {:induction false} SumsOfHold(entries: seq<Entry>)
    requires DistinctEntryPaths(entries)
    ensures forall e :: e in entries ==> e.path in SumsOf(entries) && SumsOf(entries)[e.path] == e.sha256
    ensures forall k :: k in SumsOf(entries) ==> exists e :: e in entries && e.path == k
  {
    if entries != [] {
      var front, last := entries[..|entries| - 1], entries[|entries| - 1];
      SumsOfHold(front);
      assert entries == front + [last];
      assert forall e :: e in front ==> e.path != last.path;
    }
  }

  predicate LineOf(p: Platform, e: Entry, line: Text) {
    line != [] && GoodLine(p, line) && LinePath(p, line) == e.path && LineSum(line) == e.sha256
  }

  /** Line i is entry i's, and the lines after the entries' are empty. */
  ghost predicate LinesOf(p: Platform, entries: seq<Entry>, lines: seq<Text>) {
    && |entries| <= |lines|
    && (forall i :: 0 <= i < |entries| ==> LineOf(p, entries[i], lines[i]))
    && (forall i :: |entries| <= i < |lines| ==> lines[i] == [])
  }

  lemma LinesOfGood(p: Platform, entries: seq<Entry>, lines: seq<Text>)
    requires DistinctEntryPaths(entries) && LinesOf(p, entries, lines)
    ensures GoodLines(p, lines) && DistinctLinePaths(p, lines)
  {
    hide GoodLine, LinePath, LineSum;
  }

  lemma LinesOfSums(p: Platform, entries: seq<Entry>, lines: seq<Text>)
    requires DistinctEntryPaths(entries) && LinesOf(p, entries, lines)
    ensures SumsAre(p, lines, SumsOf(entries))
  {
    hide GoodLine, LinePath, LineSum, SumsOf;
    SumsOfHold(entries);
    forall l | l in lines && l != []
      ensures LinePath(p, l) in SumsOf(entries) && SumsOf(entries)[LinePath(p, l)] == LineSum(l)
    {
      var i :| 0 <= i < |lines| && lines[i] == l;
      assert entries[i] in entries;
    }
    forall k | k in SumsOf(entries) ensures exists l :: l in lines && l != [] && LinePath(p, l) == k {
      var e :| e in entries && e.path == k;
      var i :| 0 <= i < |entries| && entries[i] == e;
      assert lines[i] in lines;
    }
  }

  lemma SplitIsLines(p: Platform, entries: seq<Entry>, lines: seq<Text>)
    requires forall e :: e in entries ==> GoodEntry(p, e) && !HasTerminator(e.path)
    requires lines == ChecksumLines(entries) + [[]] || lines == ChecksumLines(entries) + [[], []]
    ensures LinesOf(p, entries, lines)
  {
    hide GoodEntry, GoodLine, LinePath, LineSum, ChecksumLine, HasTerminator;
    forall i | 0 <= i < |entries|
      ensures LineOf(p, entries[i], lines[i])
    {
      assert entries[i] in entries;
      LineMatches(p, entries[i]);
    }
    assert forall i :: |entries| <= i < |lines| ==> lines[i] == [];
  }

  /** The checksum text lists exactly the manifest's hashes. */
  lemma ChecksumTextMatches(p: Platform, entries: seq<Entry>)
    requires DistinctEntryPaths(entries) && forall e :: e in entries ==> GoodEntry(p, e) && !HasTerminator(e.path)
    ensures ChecksumsMatch(p, ReadsOf(entries), ChecksumText(p, entries), SumsOf(Sort(entries, ByEntryPath(p))))
  {
    hide GoodEntry, ChecksumLine, HasTerminator, Sort, SplitLines, SumsAre, GoodLines, DistinctLinePaths, ChecksumText, LinesOf, SumsOf;
    var sorted := Sort(entries, ByEntryPath(p));
    SortMembers(entries, ByEntryPath(p));
    SortedEntriesDistinct(p, entries);
    forall e | e in entries ensures NEWLINE !in ChecksumLine(e) {
      LineMatches(p, e);
    }
    ChecksumSplit(p, entries);
    SplitIsLines(p, sorted, SplitLines(ChecksumText(p, entries)));
    LinesOfGood(p, sorted, SplitLines(ChecksumText(p, entries)));
    LinesOfSums(p, sorted, SplitLines(ChecksumText(p, entries)));
    SumsOfHold(sorted);
    forall e | e in ReadsOf(entries) ensures e.path in SumsOf(sorted) && Str(SumsOf(sorted)[e.path]) == e.sha256 {
      var i :| 0 <= i < |entries| && ReadsOf(entries)[i] == e;
      assert entries[i] in sorted;
    }
    forall k | k in SumsOf(sorted) ensures Listed(ReadsOf(entries), k) {
      var e :| e in sorted && e.path == k;
      var i :| 0 <= i < |entries| && entries[i] == e;
      assert ReadsOf(entries)[i] in ReadsOf(entries);
    }
  }

  lemma SortedEntriesDistinct(p: Platform, entries: seq<Entry>)
    requires DistinctEntryPaths(entries)
    ensures DistinctEntryPaths(Sort(entries, ByEntryPath(p)))
  {
    hide Sort;
    SortPermutes(entries, ByEntryPath(p));
    DistinctPermutes(entries, Sort(entries, ByEntryPath(p)), (e: Entry) => e.path);
  }

  /* ---- The archive reads back ---- */

  /** A path that every step leaves alone: valid, normalised, and Unicode text without a byte order mark. */
  predicate GoodPath(p: Platform, path: Text) {
    PathFixed(p, path) && WellFormed(path) && !Marked(path)
  }

  lemma {:induction false} OneSegment(path: Text)
    requires Zip.SLASH !in path
    ensures Zip.Segments(path) == [path]
  {
    if path != [] {
      OneSegment(path[1..]);
      assert [path[0]] + path[1..] == path;
    }
  }

  lemma MetadataPathsGood(p: Platform)
    requires p.Lawful()
    ensures GoodPath(p, ManifestPath()) && GoodPath(p, ChecksumPath())
  {
    hide GoodPath, Platform.Lawful, IsPlainName;
    MetadataNames();
    PlainPathGood(p, "manifest.json");
    PlainPathGood(p, "checksums.sha256");
  }

  /** Printable ASCII without separators, too long to be a dot segment. */
  predicate IsPlainName(s: string) {
    3 <= |s| <= 512 && forall c :: c in s ==> 0 < c as int < 0x80 && c != '/' && c != '\\'
  }

  lemma MetadataNames()
    ensures IsPlainName("manifest.json") && IsPlainName("checksums.sha256")
  {
  }

  lemma PlainPathGood(p: Platform, s: string)
    requires p.Lawful() && IsPlainName(s)
    ensures GoodPath(p, Lit(s))
  {
    hide WellFormed;
    var path := Lit(s);
    forall u | u in path ensures u != Zip.SLASH && u != '\\' as int && 0 < u < 0x80 {
      var i :| 0 <= i < |path| && path[i] == u;
      assert s[i] in s;
    }
    OneSegment(path);
    PlainWellFormed(path);
  }

  lemma {:induction false} ValidatedFixed(p: Platform, files: seq<Zip.File>)
    requires forall f :: f in files ==> PathFixed(p, f.path)
    ensures Zip.Validated(p, files) == Ok(files)
  {
    hide Zip.IsPath;
    if files != [] {
      ValidatedFixed(p, files[1..]);
      assert files == [files[0]] + files[1..];
    }
  }

  lemma GoodSurvives(p: Platform, path: Text)
    requires p.Lawful() && GoodPath(p, path)
    ensures ZipLaws.Survives(p, path)
  {
    hide WellFormed;
  }

  /** An archive of files with good paths parses to a rearrangement of them. */
  lemma GoodFilesParse(p: Platform, files: seq<Zip.File>) returns (ordered: seq<Zip.File>)
    requires p.Lawful() && Zip.Created(p, files).Ok? && forall f :: f in files ==> GoodPath(p, f.path)
    ensures ZipParser.Parsed(p, Zip.Created(p, files).value) == Ok(ordered)
    ensures multiset(ordered) == multiset(files) && Zip.DistinctPaths(ordered)
    ensures forall f :: f in files ==> |f.bytes| <= Zip.MAX_FILE_BYTES
  {
    hide Zip.Created, ZipParser.Parsed, GoodPath, ZipLaws.Survives, Sort, Zip.Archive;
    forall f | f in files ensures PathFixed(p, f.path) && ZipLaws.Survives(p, f.path) {
      GoodIsFixed(p, f.path);
      GoodSurvives(p, f.path);
    }
    ValidatedFixed(p, files);
    ordered := ZipLaws.CreatedIsArchive(p, files);
    var again := ZipLaws.RoundTrip(p, files);
    SortPermutes(files, Zip.ByPath(p));
    SortMembers(files, Zip.ByPath(p));
  }

  lemma GoodIsFixed(p: Platform, path: Text)
    requires GoodPath(p, path)
    ensures PathFixed(p, path)
  {
  }

  /** The files of the archive: the evidence and the two metadata files. */
  lemma PackedMembers(p: Platform, files: seq<EvidenceFile>, manifest: Bytes, checksums: Bytes)
    ensures var all := ZipFiles(files) + [Zip.File(ManifestPath(), manifest), Zip.File(ChecksumPath(), checksums)];
            && multiset(Packed(p, files, manifest, checksums)) == multiset(all)
            && forall f :: f in Packed(p, files, manifest, checksums) <==> f in all
  {
    hide Sort;
    var all := ZipFiles(files) + [Zip.File(ManifestPath(), manifest), Zip.File(ChecksumPath(), checksums)];
    SortPermutes(all, Zip.ByPath(p));
    SortMembers(all, Zip.ByPath(p));
  }

  /** What the archive of a package with good paths parses to. */
  ghost predicate Holds(files: seq<EvidenceFile>, manifest: Bytes, checksums: Bytes, ordered: seq<Zip.File>) {
    && Zip.DistinctPaths(ordered)
    && Zip.DistinctPaths(ZipFiles(files) + [Zip.File(ManifestPath(), manifest), Zip.File(ChecksumPath(), checksums)])
    && (forall f :: f in ordered <==>
          f in ZipFiles(files) || f == Zip.File(ManifestPath(), manifest) || f == Zip.File(ChecksumPath(), checksums))
    && (forall f :: f in ordered ==> |f.bytes| <= Zip.MAX_FILE_BYTES)
  }

  lemma PackedParses(p: Platform, files: seq<EvidenceFile>, manifest: Bytes, checksums: Bytes) returns (ordered: seq<Zip.File>)
    requires p.Lawful() && forall f :: f in files ==> GoodPath(p, f.path)
    requires Zip.Created(p, Packed(p, files, manifest, checksums)).Ok?
    ensures ZipParser.Parsed(p, Zip.Created(p, Packed(p, files, manifest, checksums)).value) == Ok(ordered)
    ensures Holds(files, manifest, checksums, ordered)
  {
    hide Zip.Created, ZipParser.Parsed, GoodPath, ManifestPath, ChecksumPath, Packed;
    var all := ZipFiles(files) + [Zip.File(ManifestPath(), manifest), Zip.File(ChecksumPath(), checksums)];
    var packed := Packed(p, files, manifest, checksums);
    MetadataPathsGood(p);
    PackedMembers(p, files, manifest, checksums);
    forall f | f in packed ensures GoodPath(p, f.path) {
      if f in ZipFiles(files) {
        var i :| 0 <= i < |files| && ZipFiles(files)[i] == f;
        assert files[i] in files;
      }
    }
    ordered := GoodFilesParse(p, packed);
    SameMembers(ordered, packed);
    DistinctPermutes(ordered, all, (f: Zip.File) => f.path);
  }

  /* ---- The package verifies ---- */

  lemma ManifestEntries(p: Platform, caseId: Text, files: seq<EvidenceFile>, metadata: Json, createdAt: Text)
    ensures var m := ManifestOf(p, caseId, files, metadata, createdAt);
            && (forall e :: e in m.entries <==> e in EntriesOf(p, files))
            && (Zip.DistinctPaths(ZipFiles(files)) ==> DistinctEntryPaths(m.entries))
  {
    hide Sort;
    SortMembers(EntriesOf(p, files), ByEntryPath(p));
    if Zip.DistinctPaths(ZipFiles(files)) {
      var entries := EntriesOf(p, files);
      forall i, j | 0 <= i < j < |entries| ensures entries[i].path != entries[j].path {
        assert ZipFiles(files)[i].path != ZipFiles(files)[j].path;
      }
      SortedEntriesDistinct(p, entries);
    }
  }

  lemma EntriesGood(p: Platform, files: seq<EvidenceFile>, e: Entry, manifest: Bytes, checksums: Bytes, ordered: seq<Zip.File>)
    requires p.Lawful() && (forall f :: f in files ==> GoodPath(p, f.path)) && Holds(files, manifest, checksums, ordered)
    requires e in EntriesOf(p, files)
    ensures GoodEntry(p, e) && HasFileOf(p, ReadOf(e), ordered) && !IsMetadata(e.path)
    ensures exists f :: f in files && f.path == e.path
  {
    hide GoodPath, PathFixed, ManifestPath, ChecksumPath;
    var i :| 0 <= i < |files| && EntriesOf(p, files)[i] == e;
    var all := ZipFiles(files) + [Zip.File(ManifestPath(), manifest), Zip.File(ChecksumPath(), checksums)];
    assert files[i] in files;
    GoodIsFixed(p, e.path);
    assert ZipFiles(files)[i] in ordered;
    assert all[i].path != all[|files|].path && all[i].path != all[|files| + 1].path;
  }

  lemma PackageMatches(p: Platform, files: seq<EvidenceFile>, m: Manifest, manifest: Bytes, checksums: Bytes, ordered: seq<Zip.File>)
    requires p.Lawful() && (forall f :: f in files ==> GoodPath(p, f.path)) && Holds(files, manifest, checksums, ordered)
    requires forall e :: e in m.entries <==> e in EntriesOf(p, files)
    ensures Matches(p, ReadsOf(m.entries), ordered)
  {
    hide GoodPath, GoodEntry, HasFileOf, ManifestPath, ChecksumPath, Zip.DistinctPaths;
    forall r | r in ReadsOf(m.entries) ensures HasFileOf(p, r, ordered) && !IsMetadata(r.path) {
      var i :| 0 <= i < |m.entries| && ReadsOf(m.entries)[i] == r;
      assert m.entries[i] in m.entries;
      EntriesGood(p, files, m.entries[i], manifest, checksums, ordered);
    }
    forall f | f in ordered && !IsMetadata(f.path) ensures Listed(ReadsOf(m.entries), f.path) {
      assert f in ZipFiles(files);
      var i :| 0 <= i < |files| && ZipFiles(files)[i] == f;
      assert EntriesOf(p, files)[i] in m.entries;
      var j :| 0 <= j < |m.entries| && m.entries[j] == EntriesOf(p, files)[i];
      assert ReadsOf(m.entries)[j] in ReadsOf(m.entries);
    }
  }

  /** The built manifest, as the verifier reads it. */
  lemma PackageManifest(p: Platform, files: seq<EvidenceFile>, m: Manifest, manifest: Bytes, checksums: Bytes, ordered: seq<Zip.File>)
    requires p.Lawful() && (forall f :: f in files ==> GoodPath(p, f.path)) && Holds(files, manifest, checksums, ordered)
    requires (forall e :: e in m.entries <==> e in EntriesOf(p, files)) && DistinctEntryPaths(m.entries)
    requires Encode(ManifestJson(m)).Ok? && IsValue(m.metadata) && manifest == p.encode(Encode(ManifestJson(m)).value)
    ensures ReadManifest(p, manifest) == Ok(ReadsOf(m.entries))
  {
    hide GoodPath, GoodEntry, HasFileOf, ReadManifest, Encode, Holds, ManifestJson;
    forall i | 0 <= i < |m.entries| ensures GoodEntry(p, m.entries[i]) {
      assert m.entries[i] in m.entries;
      EntriesGood(p, files, m.entries[i], manifest, checksums, ordered);
    }
    ManifestReads(p, m);
  }

  lemma ChecksumTextEncodes(p: Platform, entries: seq<Entry>)
    requires p.Lawful() && forall e :: e in entries ==> WellFormed(e.path) && IsDigest(e.sha256)
    ensures p.decode(p.encode(ChecksumText(p, entries))) == Some(ChecksumText(p, entries))
  {
    hide WellFormed, Sort;
    var sorted := Sort(entries, ByEntryPath(p));
    SortMembers(entries, ByEntryPath(p));
    LinesEncodable(sorted);
    PlainWellFormed([NEWLINE]);
  }

  lemma {:induction false} LinesEncodable(entries: seq<Entry>)
    requires forall e :: e in entries ==> WellFormed(e.path) && IsDigest(e.sha256)
    ensures WellFormed(Lines(entries)) && (entries != [] ==> Lines(entries) != [] && Lines(entries)[0] < 0x80)
  {
    hide WellFormed;
    if entries == [] {
      PlainWellFormed([]);
    } else {
      var front, last := entries[..|entries| - 1], entries[|entries| - 1];
      LinesEncodable(front);
      LineWellFormed(last);
      WellFormedConcat(Lines(front), ChecksumLine(last));
      PlainWellFormed([NEWLINE]);
      WellFormedConcat(Lines(front) + ChecksumLine(last), [NEWLINE]);
    }
  }

  lemma LineWellFormed(e: Entry)
    requires WellFormed(e.path) && IsDigest(e.sha256)
    ensures WellFormed(ChecksumLine(e)) && ChecksumLine(e) != [] && ChecksumLine(e)[0] < 0x80
  {
    hide WellFormed;
    PlainWellFormed(e.sha256 + Lit("  "));
    WellFormedConcat(e.sha256 + Lit("  "), e.path);
  }

  /** A package built from files with good paths and no line terminator in them verifies. */
  lemma GoodPackageVerifies(p: Platform, caseId: Text, files: seq<EvidenceFile>, metadata: Json, createdAt: Text)
    requires p.Lawful() && IsValue(metadata) && forall f :: f in files ==> GoodPath(p, f.path) && !HasTerminator(f.path)
    requires Package(p, caseId, files, metadata, createdAt).Ok?
    ensures Failures(p, Package(p, caseId, files, metadata, createdAt).value) == []
  {
    hide Encode, Zip.Created, ZipParser.Parsed, GoodPath, ChecksumText, Packed, ReadManifest, Failures, Matches, Zip.DistinctPaths,
         ManifestJson, ManifestPath, ChecksumPath, ChecksumsMatch, HasTerminator, DistinctEntryPaths, GoodEntry;
    var m := ManifestOf(p, caseId, files, metadata, createdAt);
    var manifest := p.encode(Encode(ManifestJson(m)).value);
    var checksums := p.encode(ChecksumText(p, m.entries));
    var zip := Package(p, caseId, files, metadata, createdAt).value;
    var ordered := PackedParses(p, files, manifest, checksums);
    ManifestEntries(p, caseId, files, metadata, createdAt);
    FirstsDistinct(files, manifest, checksums);
    PackageManifest(p, files, m, manifest, checksums, ordered);
    PackageMatches(p, files, m, manifest, checksums, ordered);
    PackageChecksums(p, files, m, manifest, checksums, ordered);
    var sums := SumsOf(Sort(m.entries, ByEntryPath(p)));
    assert Zip.File(ManifestPath(), manifest) in ordered && Zip.File(ChecksumPath(), checksums) in ordered;
    ConsistentIsVerified(p, zip, ordered, ReadsOf(m.entries), ChecksumText(p, m.entries), sums);
  }

  lemma FirstsDistinct(files: seq<EvidenceFile>, manifest: Bytes, checksums: Bytes)
    requires Zip.DistinctPaths(ZipFiles(files) + [Zip.File(ManifestPath(), manifest), Zip.File(ChecksumPath(), checksums)])
    ensures Zip.DistinctPaths(ZipFiles(files))
  {
    var all := ZipFiles(files) + [Zip.File(ManifestPath(), manifest), Zip.File(ChecksumPath(), checksums)];
    forall i, j | 0 <= i < j < |files| ensures ZipFiles(files)[i].path != ZipFiles(files)[j].path {
      assert all[i].path != all[j].path;
    }
  }

  lemma PackageChecksums(p: Platform, files: seq<EvidenceFile>, m: Manifest, manifest: Bytes, checksums: Bytes, ordered: seq<Zip.File>)
    requires p.Lawful() && (forall f :: f in files ==> GoodPath(p, f.path)) && Holds(files, manifest, checksums, ordered)
    requires (forall e :: e in m.entries <==> e in EntriesOf(p, files)) && DistinctEntryPaths(m.entries)
    requires forall f :: f in files ==> !HasTerminator(f.path)
    ensures p.decode(p.encode(ChecksumText(p, m.entries))) == Some(ChecksumText(p, m.entries))
    ensures ChecksumsMatch(p, ReadsOf(m.entries), ChecksumText(p, m.entries), SumsOf(Sort(m.entries, ByEntryPath(p))))
  {
    hide ChecksumText, ChecksumsMatch, HasTerminator, DistinctEntryPaths, GoodEntry, Holds, WellFormed, Sort, SumsOf, HasFileOf;
    forall e | e in m.entries ensures GoodEntry(p, e) && !HasTerminator(e.path) && WellFormed(e.path) && IsDigest(e.sha256) {
      EntriesGood(p, files, e, manifest, checksums, ordered);
      EntryDigest(p, e);
    }
    ChecksumTextEncodes(p, m.entries);
    ChecksumTextMatches(p, m.entries);
  }

  lemma EntryDigest(p: Platform, e: Entry)
    requires GoodEntry(p, e)
    ensures IsDigest(e.sha256)
  {
  }
}
