/** What a verified evidence package is: no failure is reported exactly for consistent packages. */
module EvidenceMeaning {
  import opened Results
  import opened Bytes
  import opened Text
  import opened Platform
  import opened CanonicalJson
  import opened Evidence
  import opened EvidenceVerifier
  import Zip
  import ZipParser

  /* ---- When the lists of failures are empty ---- */

  lemma {:induction false} NoneUnlisted(entries: seq<ReadEntry>, paths: seq<Text>, message: Text)
    ensures Unlisted(entries, paths, message) == [] <==> forall path :: path in paths ==> Listed(entries, path)
  {
    hide Listed;
    if paths != [] {
      var front, last := paths[..|paths| - 1], paths[|paths| - 1];
      NoneUnlisted(entries, front, message);
      assert paths == front + [last];
    }
  }

  /** A file of the entry's path, size and hash is present. */
  ghost predicate HasFileOf(p: Platform, entry: ReadEntry, files: seq<Zip.File>) {
    exists f :: f in files && f.path == entry.path && |f.bytes| == entry.bytes && Str(p.sha256(f.bytes)) == entry.sha256
  }

  lemma SameFile(files: seq<Zip.File>, f: Zip.File, g: Zip.File)
    requires Zip.DistinctPaths(files) && f in files && g in files && f.path == g.path
    ensures f == g
  {
  }

  lemma NoEntryFailure(p: Platform, entry: ReadEntry, files: seq<Zip.File>)
    requires Zip.DistinctPaths(files)
    ensures EntryFailures(p, entry, files) == [] <==> HasFileOf(p, entry, files)
  {
    hide Zip.DistinctPaths;
    match FindFile(files, entry.path)
    case None =>
    case Some(file) =>
      forall f | f in files && f.path == entry.path ensures f == file {
        SameFile(files, f, file);
      }
  }

  lemma {:induction false} NoEntriesFailures(p: Platform, entries: seq<ReadEntry>, files: seq<Zip.File>)
    requires Zip.DistinctPaths(files)
    ensures EntriesFailures(p, entries, files) == [] <==> forall e :: e in entries ==> HasFileOf(p, e, files)
  {
    hide HasFileOf, EntryFailures, Zip.DistinctPaths;
    if entries != [] {
      var front, last := entries[..|entries| - 1], entries[|entries| - 1];
      NoEntriesFailures(p, front, files);
      NoEntryFailure(p, last, files);
      assert entries == front + [last];
    }
  }

  lemma {:induction false} EvidenceFilesAre(files: seq<Zip.File>)
    ensures forall f :: f in EvidenceFiles(files) <==> f in files && !IsMetadata(f.path)
    ensures Zip.DistinctPaths(files) ==> Zip.DistinctPaths(EvidenceFiles(files))
  {
    hide IsMetadata;
    if files != [] {
      var front, last := files[..|files| - 1], files[|files| - 1];
      EvidenceFilesAre(front);
      assert files == front + [last];
      if Zip.DistinctPaths(files) {
        assert Zip.DistinctPaths(front);
        assert forall f :: f in front ==> f.path != last.path;
      }
    }
  }

  /** Every entry has its file, every file its entry, and neither the metadata files an entry. */
  ghost predicate Matches(p: Platform, entries: seq<ReadEntry>, files: seq<Zip.File>) {
    && (forall e :: e in entries ==> HasFileOf(p, e, files) && !IsMetadata(e.path))
    && (forall f :: f in files && !IsMetadata(f.path) ==> Listed(entries, f.path))
  }

  lemma NoFileFailures(p: Platform, entries: seq<ReadEntry>, files: seq<Zip.File>)
    requires Zip.DistinctPaths(files)
    ensures FileFailures(p, entries, EvidenceFiles(files)) == [] && !SelfReferences(entries) <==> Matches(p, entries, files)
  {
    hide Zip.DistinctPaths, EntriesFailures, Unlisted, HasFileOf, EvidenceFiles;
    var evidence := EvidenceFiles(files);
    EvidenceFilesAre(files);
    NoEntriesFailures(p, entries, evidence);
    NoneUnlisted(entries, Paths(evidence), Lit("Unexpected file: "));
    forall e | e in entries && !IsMetadata(e.path) ensures HasFileOf(p, e, files) <==> HasFileOf(p, e, evidence) {
      SameFiles(p, e, files, evidence);
    }
    PathsListed(entries, evidence);
    SelfReferencesAre(entries);
  }

  lemma SameFiles(p: Platform, e: ReadEntry, files: seq<Zip.File>, evidence: seq<Zip.File>)
    requires forall f :: f in evidence <==> f in files && !IsMetadata(f.path)
    requires !IsMetadata(e.path)
    ensures HasFileOf(p, e, files) <==> HasFileOf(p, e, evidence)
  {
    hide IsMetadata;
  }

  lemma PathsListed(entries: seq<ReadEntry>, files: seq<Zip.File>)
    ensures (forall path :: path in Paths(files) ==> Listed(entries, path)) <==> forall f :: f in files ==> Listed(entries, f.path)
  {
    hide Listed;
    if forall path :: path in Paths(files) ==> Listed(entries, path) {
      forall f | f in files ensures Listed(entries, f.path) {
        var i :| 0 <= i < |files| && files[i] == f;
        assert Paths(files)[i] in Paths(files);
      }
    }
  }

  lemma SelfReferencesAre(entries: seq<ReadEntry>)
    ensures SelfReferences(entries) <==> exists e :: e in entries && IsMetadata(e.path)
  {
    hide ManifestPath, ChecksumPath;
  }

  /* ---- The checksum file ---- */

  predicate GoodLine(p: Platform, line: Text) {
    MatchLine(line).Some? && Zip.ValidatePath(p, MatchLine(line).value.1).Ok?
  }

  function LinePath(p: Platform, line: Text): Text {
    if GoodLine(p, line) then Zip.ValidatePath(p, MatchLine(line).value.1).value else []
  }

  function LineSum(line: Text): Text {
    if MatchLine(line).Some? then MatchLine(line).value.0 else []
  }

  /** Every line that is not empty is a checksum of a valid path. */
  ghost predicate GoodLines(p: Platform, lines: seq<Text>) {
    forall l :: l in lines && l != [] ==> GoodLine(p, l)
  }

  ghost predicate DistinctLinePaths(p: Platform, lines: seq<Text>) {
    forall i, j :: 0 <= i < j < |lines| && lines[i] != [] && lines[j] != [] ==>
      LinePath(p, lines[i]) != LinePath(p, lines[j])
  }

  /** The map holds the checksum of every line under its path, and nothing else. */
  ghost predicate SumsAre(p: Platform, lines: seq<Text>, sums: map<Text, Text>) {
    && (forall l :: l in lines && l != [] ==> LinePath(p, l) in sums && sums[LinePath(p, l)] == LineSum(l))
    && (forall k :: k in sums ==> exists l :: l in lines && l != [] && LinePath(p, l) == k)
  }

  ghost predicate CleanRead(p: Platform, lines: seq<Text>) {
    ReadLines(p, lines).Ok? && ReadLines(p, lines).value.failures == []
  }

  lemma AddedClean(p: Platform, c: Checksums, line: Text)
    ensures var r := AddLine(p, c, line);
            r.Ok? && r.value.failures == [] <==>
              c.failures == [] && (line == [] || (GoodLine(p, line) && LinePath(p, line) !in c.sums))
  {
    hide MatchLine, Zip.ValidatePath;
  }

  /** Reading succeeds without a failure exactly when the lines are good and name different paths. */
  lemma {:induction false} CleanReadIff(p: Platform, lines: seq<Text>)
    ensures CleanRead(p, lines) <==> GoodLines(p, lines) && DistinctLinePaths(p, lines)
    ensures CleanRead(p, lines) ==> SumsAre(p, lines, ReadLines(p, lines).value.sums)
    ensures CleanRead(p, lines) ==> forall k :: k in ReadLines(p, lines).value.keys <==> k in ReadLines(p, lines).value.sums
  {
    hide AddLine, MatchLine, Zip.ValidatePath;
    if lines != [] {
      var front, last := lines[..|lines| - 1], lines[|lines| - 1];
      CleanReadIff(p, front);
      assert lines == front + [last];
      if ReadLines(p, front).Ok? {
        var c := ReadLines(p, front).value;
        AddedClean(p, c, last);
        if CleanRead(p, front) {
          LinesExtend(p, front, last, c.sums);
          if last != [] && GoodLine(p, last) && LinePath(p, last) !in c.sums {
            SumsExtend(p, c, front, last);
          } else if last == [] {
            EmptyLineIgnored(p, c);
          }
        }
      }
      if GoodLines(p, lines) && DistinctLinePaths(p, lines) {
        assert GoodLines(p, front) && DistinctLinePaths(p, front);
      }
    }
  }

  lemma EmptyLineIgnored(p: Platform, c: Checksums)
    ensures AddLine(p, c, []) == Ok(c)
  {
  }

  lemma LinesExtend(p: Platform, front: seq<Text>, last: Text, sums: map<Text, Text>)
    requires GoodLines(p, front) && DistinctLinePaths(p, front) && SumsAre(p, front, sums)
    ensures GoodLines(p, front + [last]) && DistinctLinePaths(p, front + [last])
       <==> last == [] || (GoodLine(p, last) && LinePath(p, last) !in sums)
  {
    hide LineSum, LinePath, GoodLine;
    var lines := front + [last];
    if last != [] && GoodLine(p, last) {
      assert forall l :: l in lines <==> l in front || l == last;
      if LinePath(p, last) in sums {
        var l :| l in front && l != [] && LinePath(p, l) == LinePath(p, last);
        var i :| 0 <= i < |front| && front[i] == l;
        assert lines[i] == l && lines[|front|] == last;
      } else {
        assert forall l :: l in front && l != [] ==> LinePath(p, l) != LinePath(p, last);
      }
    }
  }

  lemma SumsExtend(p: Platform, c: Checksums, front: seq<Text>, last: Text)
    requires GoodLines(p, front) && SumsAre(p, front, c.sums) && forall k :: k in c.keys <==> k in c.sums
    requires last != [] && GoodLine(p, last) && LinePath(p, last) !in c.sums
    ensures AddLine(p, c, last).Ok? && GoodLines(p, front + [last])
    ensures var d := AddLine(p, c, last).value;
            SumsAre(p, front + [last], d.sums) && forall k :: k in d.keys <==> k in d.sums
  {
    hide MatchLine, Zip.ValidatePath;
    assert forall l :: l in front + [last] <==> l in front || l == last;
  }

  /** The map from the manifest's paths to their hashes. */
  ghost predicate SumsOfEntries(entries: seq<ReadEntry>, sums: map<Text, Text>) {
    && (forall e :: e in entries ==> e.path in sums && Str(sums[e.path]) == e.sha256)
    && (forall k :: k in sums ==> Listed(entries, k))
  }

  lemma {:induction false} NoSumsFailures(entries: seq<ReadEntry>, sums: map<Text, Text>)
    ensures SumsFailures(entries, sums) == [] <==>
              forall e :: e in entries ==> e.path in sums && Str(sums[e.path]) == e.sha256
  {
    if entries != [] {
      var front, last := entries[..|entries| - 1], entries[|entries| - 1];
      NoSumsFailures(front, sums);
      assert entries == front + [last];
    }
  }

  /** The text lists the manifest's checksums: one good line for each entry, and no other. */
  ghost predicate ChecksumsMatch(p: Platform, entries: seq<ReadEntry>, text: Text, sums: map<Text, Text>) {
    var lines := SplitLines(text);
    GoodLines(p, lines) && DistinctLinePaths(p, lines) && SumsAre(p, lines, sums) && SumsOfEntries(entries, sums)
  }

  lemma SumsUnique(p: Platform, lines: seq<Text>, a: map<Text, Text>, b: map<Text, Text>)
    requires SumsAre(p, lines, a) && SumsAre(p, lines, b)
    ensures a == b
  {
    hide LineSum, LinePath, GoodLine;
    forall k | k in a ensures k in b && b[k] == a[k] {
      var l :| l in lines && l != [] && LinePath(p, l) == k;
    }
    forall k | k in b ensures k in a {
      var l :| l in lines && l != [] && LinePath(p, l) == k;
    }
    assert a.Keys == b.Keys;
  }

  lemma ChecksumsSound(p: Platform, entries: seq<ReadEntry>, bytes: Bytes) returns (text: Text, sums: map<Text, Text>)
    requires ChecksumFailures(p, entries, bytes) == Ok([])
    ensures p.decode(bytes) == Some(text) && ChecksumsMatch(p, entries, text, sums)
  {
    hide ReadLines, SumsFailures, Unlisted, SplitLines, SumsAre, Listed, GoodLines, DistinctLinePaths;
    text := p.decode(bytes).value;
    var c := ReadLines(p, SplitLines(text)).value;
    sums := c.sums;
    assert c.failures == [] && SumsFailures(entries, sums) == [] && Unlisted(entries, c.keys, Lit("Unexpected checksum: ")) == [];
    CleanReadIff(p, SplitLines(text));
    NoSumsFailures(entries, sums);
    NoneUnlisted(entries, c.keys, Lit("Unexpected checksum: "));
  }

  lemma ChecksumsComplete(p: Platform, entries: seq<ReadEntry>, bytes: Bytes, text: Text, sums: map<Text, Text>)
    requires p.decode(bytes) == Some(text) && ChecksumsMatch(p, entries, text, sums)
    ensures ChecksumFailures(p, entries, bytes) == Ok([])
  {
    hide ReadLines, SumsFailures, Unlisted, SplitLines, SumsAre, Listed, GoodLines, DistinctLinePaths;
    CleanReadIff(p, SplitLines(text));
    var c := ReadLines(p, SplitLines(text)).value;
    SumsUnique(p, SplitLines(text), c.sums, sums);
    NoSumsFailures(entries, sums);
    NoneUnlisted(entries, c.keys, Lit("Unexpected checksum: "));
    assert c.failures == [] && SumsFailures(entries, c.sums) == [];
    assert Unlisted(entries, c.keys, Lit("Unexpected checksum: ")) == [];
    assert c.failures + SumsFailures(entries, c.sums) + Unlisted(entries, c.keys, Lit("Unexpected checksum: ")) == [];
  }

  /* ---- The whole package ---- */

  /**
   * The package parses into files; one of them is a manifest whose entries are in one-to-one
   * agreement with the evidence files, in path, size and hash; another lists the same hashes.
   */
  ghost predicate Consistent(p: Platform, bytes: Bytes, files: seq<Zip.File>, entries: seq<ReadEntry>, text: Text, sums: map<Text, Text>) {
    && ZipParser.Parsed(p, bytes) == Ok(files)
    && (exists f :: f in files && f.path == ManifestPath() && ReadManifest(p, f.bytes) == Ok(entries))
    && Matches(p, entries, files)
    && (exists f :: f in files && f.path == ChecksumPath() && p.decode(f.bytes) == Some(text))
    && ChecksumsMatch(p, entries, text, sums)
  }

  lemma ParsedDistinct(p: Platform, bytes: Bytes)
    ensures ZipParser.Parsed(p, bytes).Ok? ==> Zip.DistinctPaths(ZipParser.Parsed(p, bytes).value)
  {
    hide ZipParser.ReadEntries, ZipParser.CheckEnd, ZipParser.FindEnd;
  }

  lemma NoPackageFailures(p: Platform, files: seq<Zip.File>, entries: seq<ReadEntry>)
    ensures PackageFailures(p, files, entries) == [] <==>
              && FileFailures(p, entries, EvidenceFiles(files)) == [] && !SelfReferences(entries)
              && FindFile(files, ChecksumPath()).Some?
              && ChecksumFailures(p, entries, FindFile(files, ChecksumPath()).value.bytes) == Ok([])
  {
    hide FileFailures, EvidenceFiles, SelfReferences, ChecksumFailures, FindFile;
  }

  /** A verified package is consistent. */
  lemma VerifiedIsConsistent(p: Platform, bytes: Bytes)
    returns (files: seq<Zip.File>, entries: seq<ReadEntry>, text: Text, sums: map<Text, Text>)
    requires Failures(p, bytes) == []
    ensures Consistent(p, bytes, files, entries, text, sums)
  {
    hide PackageFailures, ReadManifest, FileFailures, EvidenceFiles, SelfReferences, ChecksumFailures, Matches, ChecksumsMatch, ZipParser.Parsed;
    files := ZipParser.Parsed(p, bytes).value;
    entries := ReadManifest(p, FindFile(files, ManifestPath()).value.bytes).value;
    ParsedDistinct(p, bytes);
    NoPackageFailures(p, files, entries);
    NoFileFailures(p, entries, files);
    text, sums := ChecksumsSound(p, entries, FindFile(files, ChecksumPath()).value.bytes);
  }

  /** A consistent package is verified. */
  lemma ConsistentIsVerified(p: Platform, bytes: Bytes, files: seq<Zip.File>, entries: seq<ReadEntry>, text: Text, sums: map<Text, Text>)
    requires Consistent(p, bytes, files, entries, text, sums)
    ensures Failures(p, bytes) == []
  {
    hide PackageFailures, ReadManifest, FileFailures, EvidenceFiles, SelfReferences, ChecksumFailures, Matches, ChecksumsMatch, ZipParser.Parsed;
    ParsedDistinct(p, bytes);
    var m :| m in files && m.path == ManifestPath() && ReadManifest(p, m.bytes) == Ok(entries);
    var c :| c in files && c.path == ChecksumPath() && p.decode(c.bytes) == Some(text);
    SameFile(files, FindFile(files, ManifestPath()).value, m);
    SameFile(files, FindFile(files, ChecksumPath()).value, c);
    NoPackageFailures(p, files, entries);
    NoFileFailures(p, entries, files);
    ChecksumsComplete(p, entries, c.bytes, text, sums);
  }
}
