/** Exactly which packages that the worker builds its verifier accepts. */
module EvidencePaths {
  import opened Results
  import opened Bytes
  import opened Text
  import opened Ordering
  import opened Platform
  import opened JsonNumber
  import opened CanonicalJson
  import opened Evidence
  import opened EvidenceVerifier
  import opened EvidenceMeaning
  import opened EvidenceRoundTrip
  import CanonicalJsonLaws
  import JsonParser
  import Zip
  import ZipLaws
  import ZipParser

  /* ---- A manifest that reads back names fixed paths only ---- */

  lemma EntryAccepted(p: Platform, e: Entry)
    requires ReadManifestEntry(p, Canon(EntryJson(e))).Ok?
    ensures PathFixed(p, e.path) && ReadManifestEntry(p, Canon(EntryJson(e))).value == ReadOf(e)
  {
    hide Canon, EntryJson, Property, Zip.IsPath, NatNumber;
    EntryProperties(e);
    NatNumberValue(e.bytes);
  }

  lemma {:induction false} EntriesAccepted(p: Platform, entries: seq<Entry>, items: seq<Json>)
    requires |items| == |entries| && forall i :: 0 <= i < |entries| ==> items[i] == Canon(EntryJson(entries[i]))
    requires ReadManifestEntries(p, items).Ok?
    ensures ReadManifestEntries(p, items).value == ReadsOf(entries) && forall e :: e in entries ==> PathFixed(p, e.path)
  {
    hide ReadManifestEntry, Canon, EntryJson, PathFixed;
    if entries != [] {
      EntryAccepted(p, entries[0]);
      EntriesAccepted(p, entries[1..], items[1..]);
      assert ReadsOf(entries) == [ReadOf(entries[0])] + ReadsOf(entries[1..]);
      assert entries == [entries[0]] + entries[1..];
    }
  }

  lemma ManifestAccepted(p: Platform, m: Manifest)
    requires p.Lawful() && Encode(ManifestJson(m)).Ok? && IsValue(m.metadata)
    requires ReadManifest(p, p.encode(Encode(ManifestJson(m)).value)).Ok?
    ensures ReadManifest(p, p.encode(Encode(ManifestJson(m)).value)).value == ReadsOf(m.entries)
    ensures forall e :: e in m.entries ==> PathFixed(p, e.path)
  {
    hide Encode, Canon, JsonParser.Parse, ManifestJson, EntryJson, Property, WellFormed, EntryJsons, PathFixed;
    var text := Encode(ManifestJson(m)).value;
    ManifestEncodable(m);
    CanonicalJsonLaws.EncodedWellFormed(ManifestJson(m));
    assert p.decode(p.encode(text)) == Some(text);
    CanonicalJsonLaws.ParseEncoded(ManifestJson(m));
    ManifestProperties(m);
    var items := CanonArr(EntryJsons(m.entries));
    EntriesAccepted(p, m.entries, items);
  }

  /* ---- Where the parsed files come from ---- */

  /** The path is what decoding the other's encoding gives. */
  predicate DecodedFrom(p: Platform, path: Text, original: Text) {
    p.decode(p.encode(original)) == Some(path)
  }

  lemma RereadDecodes(p: Platform, path: Text)
    requires ZipLaws.Reread(p, path).Ok?
    ensures DecodedFrom(p, ZipLaws.Reread(p, path).value, path)
  {
    hide Zip.IsPath;
  }

  /** A file whose path survives is among the parsed files. */
  lemma SurvivorParsed(p: Platform, files: seq<Zip.File>, f: Zip.File)
    requires p.Lawful() && Zip.Created(p, files).Ok? && f in files && ZipLaws.Survives(p, f.path)
    requires ZipParser.Parsed(p, Zip.Created(p, files).value).Ok?
    ensures f in ZipParser.Parsed(p, Zip.Created(p, files).value).value
  {
    hide ZipParser.Parsed, Zip.Created, Sort, ZipLaws.RereadAll, Zip.Validated, ZipLaws.Reread, Zip.IsPath;
    ZipLaws.CreatedReparsed(p, files);
    var validated, ordered := Zip.Validated(p, files).value, ZipLaws.OrderedFiles(p, files);
    var i :| 0 <= i < |files| && files[i] == f;
    assert validated[i] == f;
    SortMembers(validated, Zip.ByPath(p));
    assert f in validated;
    assert f in ordered;
    var j :| 0 <= j < |ordered| && ordered[j] == f;
    ZipLaws.RereadSurvives(p, f.path);
    assert ZipLaws.RereadAll(p, ordered).value[j] == f;
  }

  /** Every parsed file's path is decoded from the path of a file that was packed. */
  lemma ParsedDecoded(p: Platform, files: seq<Zip.File>, f: Zip.File) returns (original: Zip.File)
    requires p.Lawful() && Zip.Created(p, files).Ok? && forall g :: g in files ==> PathFixed(p, g.path)
    requires ZipParser.Parsed(p, Zip.Created(p, files).value).Ok?
    requires f in ZipParser.Parsed(p, Zip.Created(p, files).value).value
    ensures original in files && DecodedFrom(p, f.path, original.path)
  {
    hide ZipParser.Parsed, Zip.Created, Sort, ZipLaws.RereadAll, Zip.Validated, ZipLaws.Reread, PathFixed, DecodedFrom;
    ZipLaws.CreatedReparsed(p, files);
    ValidatedFixed(p, files);
    var ordered := ZipLaws.OrderedFiles(p, files);
    SortMembers(files, Zip.ByPath(p));
    var read := ZipLaws.RereadAll(p, ordered).value;
    var i :| 0 <= i < |read| && read[i] == f;
    original := ordered[i];
    RereadDecodes(p, original.path);
  }

  /* ---- Byte order marks ---- */

  function PathsOf(files: seq<EvidenceFile>): set<Text> {
    set f | f in files :: f.path
  }

  /** The path is decoded from one of the paths. */
  ghost predicate HasSource(p: Platform, paths: set<Text>, path: Text) {
    exists original :: original in paths && DecodedFrom(p, path, original)
  }

  lemma MarkedSource(p: Platform, path: Text, original: Text)
    requires p.Lawful() && WellFormed(original) && Marked(path) && DecodedFrom(p, path, original)
    ensures Marked(original) && |original| == |path| + 1
  {
    hide WellFormed;
  }

  /** A marked path would be decoded from a longer one, that from a longer one, and none is too long. */
  lemma {:induction false} NoneMarked(p: Platform, paths: set<Text>, path: Text)
    requires p.Lawful() && path in paths
    requires forall t :: t in paths ==> HasSource(p, paths, t) && WellFormed(t) && |t| <= 512
    ensures !Marked(path)
    decreases 512 - |path|
  {
    hide WellFormed, Platform.Lawful, DecodedFrom, Marked;
    if Marked(path) {
      var original :| original in paths && DecodedFrom(p, path, original);
      MarkedSource(p, path, original);
      NoneMarked(p, paths, original);
    }
  }

  lemma FixedShort(p: Platform, path: Text)
    requires PathFixed(p, path)
    ensures |path| <= 512
  {
  }

  lemma SourceWellFormed(p: Platform, paths: set<Text>, path: Text)
    requires p.Lawful() && HasSource(p, paths, path)
    ensures WellFormed(path)
  {
    hide WellFormed;
  }

  /* ---- What acceptance says of the paths ---- */

  lemma PackedHolds(p: Platform, files: seq<EvidenceFile>, manifest: Bytes, checksums: Bytes)
    ensures Zip.File(ManifestPath(), manifest) in Packed(p, files, manifest, checksums)
    ensures forall f :: f in Packed(p, files, manifest, checksums) ==>
              f.path == ManifestPath() || f.path == ChecksumPath() || exists g :: g in files && g.path == f.path
  {
    hide Packed, ManifestPath, ChecksumPath;
    PackedMembers(p, files, manifest, checksums);
    forall f | f in ZipFiles(files) ensures exists g :: g in files && g.path == f.path {
      var i :| 0 <= i < |files| && ZipFiles(files)[i] == f;
      assert files[i] in files;
    }
  }

  /** The manifest inside an accepted package is the one it was built with, and its paths are fixed. */
  lemma AcceptedManifest(p: Platform, files: seq<EvidenceFile>, m: Manifest, checksums: Bytes, zip: Bytes, parsed: seq<Zip.File>, entries: seq<ReadEntry>)
    requires p.Lawful() && Encode(ManifestJson(m)).Ok? && IsValue(m.metadata)
    requires Zip.Created(p, Packed(p, files, p.encode(Encode(ManifestJson(m)).value), checksums)) == Ok(zip)
    requires ZipParser.Parsed(p, zip) == Ok(parsed)
    requires exists f :: f in parsed && f.path == ManifestPath() && ReadManifest(p, f.bytes) == Ok(entries)
    ensures entries == ReadsOf(m.entries) && forall e :: e in m.entries ==> PathFixed(p, e.path)
  {
    hide Encode, Zip.Created, ZipParser.Parsed, ManifestPath, ChecksumPath, Packed, ReadManifest, ManifestJson, PathFixed, Zip.DistinctPaths, ZipLaws.Survives, GoodPath;
    var manifest := p.encode(Encode(ManifestJson(m)).value);
    MetadataPathsGood(p);
    GoodSurvives(p, ManifestPath());
    PackedHolds(p, files, manifest, checksums);
    SurvivorParsed(p, Packed(p, files, manifest, checksums), Zip.File(ManifestPath(), manifest));
    ParsedDistinct(p, zip);
    var f :| f in parsed && f.path == ManifestPath() && ReadManifest(p, f.bytes) == Ok(entries);
    SameFile(parsed, f, Zip.File(ManifestPath(), manifest));
    ManifestAccepted(p, m);
  }

  /** The entry that the manifest reads back for a file. */
  lemma EntryOfFile(p: Platform, files: seq<EvidenceFile>, entries: seq<Entry>, f: EvidenceFile)
    requires f in files && forall e :: e in entries <==> e in EntriesOf(p, files)
    ensures EntryOf(p, f) in entries && ReadOf(EntryOf(p, f)) in ReadsOf(entries)
  {
    hide EntryOf, ReadOf;
    var i :| 0 <= i < |files| && files[i] == f;
    assert EntriesOf(p, files)[i] in entries;
    var j :| 0 <= j < |entries| && entries[j] == EntryOf(p, f);
    assert ReadsOf(entries)[j] in ReadsOf(entries);
  }

  /** A metadata path is decoded to itself alone. */
  lemma MetadataDecodes(p: Platform, path: Text)
    requires p.Lawful()
    ensures DecodedFrom(p, path, ManifestPath()) ==> path == ManifestPath()
    ensures DecodedFrom(p, path, ChecksumPath()) ==> path == ChecksumPath()
  {
    hide ManifestPath, ChecksumPath, PathFixed, WellFormed;
    MetadataPathsGood(p);
  }

  /** Every file's path is decoded from a file's path, if all paths are fixed and the files match the manifest. */
  lemma FilesDecoded(p: Platform, files: seq<EvidenceFile>, m: Manifest, manifest: Bytes, checksums: Bytes, parsed: seq<Zip.File>, f: EvidenceFile)
    requires p.Lawful() && f in files && forall g :: g in files ==> PathFixed(p, g.path)
    requires forall e :: e in m.entries <==> e in EntriesOf(p, files)
    requires Zip.Created(p, Packed(p, files, manifest, checksums)).Ok?
    requires ZipParser.Parsed(p, Zip.Created(p, Packed(p, files, manifest, checksums)).value) == Ok(parsed)
    requires Matches(p, ReadsOf(m.entries), parsed)
    ensures HasSource(p, PathsOf(files), f.path)
  {
    hide Zip.Created, ZipParser.Parsed, ManifestPath, ChecksumPath, Packed, PathFixed, DecodedFrom, GoodPath, ReadsOf;
    EntryOfFile(p, files, m.entries, f);
    var entry := ReadOf(EntryOf(p, f));
    assert HasFileOf(p, entry, parsed) && !IsMetadata(f.path);
    var h :| h in parsed && h.path == f.path;
    MetadataPathsGood(p);
    GoodIsFixed(p, ManifestPath());
    GoodIsFixed(p, ChecksumPath());
    PackedHolds(p, files, manifest, checksums);
    var packed := ParsedDecoded(p, Packed(p, files, manifest, checksums), h);
    MetadataDecodes(p, f.path);
    var original :| original in files && original.path == packed.path;
    assert original.path in PathsOf(files);
  }

  /** Fixed paths that are decoded from one another are good. */
  lemma DecodedGood(p: Platform, files: seq<EvidenceFile>, path: Text)
    requires p.Lawful() && path in PathsOf(files)
    requires forall t :: t in PathsOf(files) ==> PathFixed(p, t) && HasSource(p, PathsOf(files), t)
    ensures GoodPath(p, path)
  {
    hide WellFormed, Platform.Lawful, DecodedFrom, Marked, PathFixed, PathsOf, HasSource;
    forall t | t in PathsOf(files) ensures WellFormed(t) && |t| <= 512 {
      FixedShort(p, t);
      SourceWellFormed(p, PathsOf(files), t);
    }
    NoneMarked(p, PathsOf(files), path);
  }

  /** A path that the checksum file lists has no line terminator. */
  lemma ListedHasNoTerminator(p: Platform, text: Text, sums: map<Text, Text>, path: Text)
    requires p.Lawful() && GoodLines(p, SplitLines(text)) && SumsAre(p, SplitLines(text), sums) && path in sums
    ensures !HasTerminator(path)
  {
    hide Zip.IsPath, SplitLines, HasTerminator;
    var l :| l in SplitLines(text) && l != [] && LinePath(p, l) == path;
    assert GoodLine(p, l);
  }

  lemma PathsPlain(p: Platform, files: seq<EvidenceFile>, m: Manifest, text: Text, sums: map<Text, Text>)
    requires p.Lawful() && forall e :: e in m.entries <==> e in EntriesOf(p, files)
    requires ChecksumsMatch(p, ReadsOf(m.entries), text, sums)
    ensures forall f :: f in files ==> !HasTerminator(f.path)
  {
    hide HasTerminator, SplitLines, GoodLines, DistinctLinePaths, SumsAre, ReadsOf;
    forall f | f in files ensures !HasTerminator(f.path) {
      EntryOfFile(p, files, m.entries, f);
      ListedHasNoTerminator(p, text, sums, f.path);
    }
  }

  /** The paths of an accepted package. */
  lemma AcceptedPaths(p: Platform, caseId: Text, files: seq<EvidenceFile>, metadata: Json, createdAt: Text)
    requires p.Lawful() && IsValue(metadata) && Package(p, caseId, files, metadata, createdAt).Ok?
    requires Failures(p, Package(p, caseId, files, metadata, createdAt).value) == []
    ensures forall f :: f in files ==> GoodPath(p, f.path) && !HasTerminator(f.path)
  {
    hide Encode, Zip.Created, ZipParser.Parsed, GoodPath, ChecksumText, Packed, ReadManifest, Failures, Matches,
         ManifestJson, ManifestPath, ChecksumPath, ChecksumsMatch, HasTerminator, PathFixed, DecodedFrom, ReadsOf, HasSource;
    var m := ManifestOf(p, caseId, files, metadata, createdAt);
    var manifest := p.encode(Encode(ManifestJson(m)).value);
    var checksums := p.encode(ChecksumText(p, m.entries));
    var zip := Package(p, caseId, files, metadata, createdAt).value;
    var parsed, entries, text, sums := VerifiedIsConsistent(p, zip);
    ManifestEntries(p, caseId, files, metadata, createdAt);
    AcceptedManifest(p, files, m, checksums, zip, parsed, entries);
    forall f | f in files ensures PathFixed(p, f.path) {
      EntryOfFile(p, files, m.entries, f);
    }
    forall f | f in files ensures HasSource(p, PathsOf(files), f.path) {
      FilesDecoded(p, files, m, manifest, checksums, parsed, f);
    }
    forall f | f in files ensures GoodPath(p, f.path) {
      assert f.path in PathsOf(files);
      DecodedGood(p, files, f.path);
    }
    PathsPlain(p, files, m, text, sums);
  }

  /**
   * A package that the worker builds verifies exactly when every path is its own normal form, is
   * Unicode text without a leading byte order mark, and holds no line terminator.
   */
  lemma BuiltPackageVerifies(p: Platform, caseId: Text, files: seq<EvidenceFile>, metadata: Json, createdAt: Text)
    requires p.Lawful() && IsValue(metadata) && Package(p, caseId, files, metadata, createdAt).Ok?
    ensures Failures(p, Package(p, caseId, files, metadata, createdAt).value) == []
       <==> forall f :: f in files ==> GoodPath(p, f.path) && !HasTerminator(f.path)
  {
    hide Failures, Package, GoodPath, HasTerminator;
    if forall f :: f in files ==> GoodPath(p, f.path) && !HasTerminator(f.path) {
      GoodPackageVerifies(p, caseId, files, metadata, createdAt);
    }
    if Failures(p, Package(p, caseId, files, metadata, createdAt).value) == [] {
      AcceptedPaths(p, caseId, files, metadata, createdAt);
    }
  }
}
