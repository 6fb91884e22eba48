/** The texts of the evidence package: what its verifier reads, line by line, and every message it reports. */
module EvidenceText {
  import opened Results
  import opened Bytes
  import opened Text
  import opened Ordering
  import opened Platform
  import opened JsonNumber
  import opened CanonicalJson
  import opened Evidence
  import opened EvidenceVerifier
  import opened PathRules
  import JsonParser
  import Zip
  import ZipParser

  /** A digit or a letter from a to f. */
  predicate IsLowerHex(u: Unit) {
    0x30 <= u <= 0x39 || 0x61 <= u <= 0x66
  }

  predicate IsHash(t: Text) {
    |t| == 64 && forall i :: 0 <= i < 64 ==> IsLowerHex(t[i])
  }

  lemma DigestIsHash(t: Text)
    ensures IsDigest(t) <==> IsHash(t)
  {
  }

  /* ---- The checksum file ---- */

  /** The file is empty but for a newline, or one line for each entry: hash, two spaces, path, newline. */
  lemma {:induction false} ChecksumLines(entries: seq<Entry>, e: Entry)
    ensures Lines([]) == []
    ensures Lines(entries + [e]) == Lines(entries) + e.sha256 + [0x20, 0x20] + e.path + [0x0a]
  {
    assert (entries + [e])[..|entries|] == entries;
    assert Lit("  ") == [0x20, 0x20];
    assert Lines(entries) + (e.sha256 + [0x20, 0x20] + e.path) + [0x0a] == Lines(entries) + e.sha256 + [0x20, 0x20] + e.path + [0x0a];
  }

  lemma ChecksumFile(p: Platform, entries: seq<Entry>)
    ensures ChecksumText(p, entries) ==
              if entries == [] then [0x0a] else Lines(Sort(entries, (a: Entry, b: Entry) => p.pathAtMost(a.path, b.path)))
  {
    SortLooksAtPaths(p, entries);
  }

  lemma {:induction false} SortLooksAtPaths(p: Platform, entries: seq<Entry>)
    ensures Sort(entries, ByEntryPath(p)) == Sort(entries, (a: Entry, b: Entry) => p.pathAtMost(a.path, b.path))
  {
    if entries != [] {
      SortLooksAtPaths(p, entries[1..]);
      InsertLooksAtPaths(p, entries[0], Sort(entries[1..], ByEntryPath(p)));
    }
  }

  lemma {:induction false} InsertLooksAtPaths(p: Platform, e: Entry, entries: seq<Entry>)
    ensures Insert(e, entries, ByEntryPath(p)) == Insert(e, entries, (a: Entry, b: Entry) => p.pathAtMost(a.path, b.path))
  {
    if entries != [] {
      InsertLooksAtPaths(p, e, entries[1..]);
    }
  }

  /** Lines with a newline between any two. */
  function WithNewlines(lines: seq<Text>): Text
    requires lines != []
  {
    if |lines| == 1 then lines[0] else WithNewlines(lines[..|lines| - 1]) + [0x0a] + lines[|lines| - 1]
  }

  /** Splitting at newlines is undone by joining, and leaves no newline. */
  lemma {:induction false} LinesJoin(text: Text)
    ensures WithNewlines(SplitLines(text)) == text
    ensures forall l :: l in SplitLines(text) ==> 0x0a !in l
  {
    if text != [] {
      var front, u := text[..|text| - 1], text[|text| - 1];
      LinesJoin(front);
      assert text == front + [u];
      var before := SplitLines(front);
      if u == 0x0a {
        assert (before + [[]])[..|before|] == before;
      } else {
        LastLonger(before, u);
      }
    }
  }

  lemma LastLonger(lines: seq<Text>, u: Unit)
    requires lines != [] && u != 0x0a && forall l :: l in lines ==> 0x0a !in l
    ensures var longer := lines[..|lines| - 1] + [lines[|lines| - 1] + [u]];
            WithNewlines(longer) == WithNewlines(lines) + [u] && forall l :: l in longer ==> 0x0a !in l
  {
    var longer := lines[..|lines| - 1] + [lines[|lines| - 1] + [u]];
    assert longer[..|longer| - 1] == lines[..|lines| - 1];
    if |lines| > 1 {
      var front := WithNewlines(lines[..|lines| - 1]);
      assert front + [0x0a] + (lines[|lines| - 1] + [u]) == front + [0x0a] + lines[|lines| - 1] + [u];
    }
    forall l | l in longer ensures 0x0a !in l {
      if l == lines[|lines| - 1] + [u] {
        assert lines[|lines| - 1] in lines;
      }
    }
  }

  /** A line that is read is a hash, two spaces and a path of at least one unit without line terminators. */
  lemma LineRead(line: Text, sum: Text, path: Text)
    ensures MatchLine(line) == Some((sum, path)) <==>
              && line == sum + [0x20, 0x20] + path && IsHash(sum)
              && path != [] && forall i :: 0 <= i < |path| ==> path[i] !in {0x0a, 0x0d, 0x2028, 0x2029}
  {
    DigestIsHash(line[..if |line| < 64 then |line| else 64]);
    assert Lit("  ") == [0x20, 0x20];
    TerminatorsIn(path);
    if line == sum + [0x20, 0x20] + path && |sum| == 64 {
      assert line[..64] == sum && line[64..66] == [0x20, 0x20] && line[66..] == path;
    }
    if MatchLine(line) == Some((sum, path)) {
      assert line == line[..64] + line[64..66] + line[66..];
    }
  }

  lemma TerminatorsIn(t: Text)
    ensures HasTerminator(t) <==> exists i :: 0 <= i < |t| && t[i] in {0x0a, 0x0d, 0x2028, 0x2029}
  {
    if HasTerminator(t) {
      var u :| u in t && IsTerminator(u);
      var i :| 0 <= i < |t| && t[i] == u;
    }
    if i :| 0 <= i < |t| && t[i] in {0x0a, 0x0d, 0x2028, 0x2029} {
      assert t[i] in t;
    }
  }

  /** One line: empty ones are passed over, others recorded under their path, or reported. */
  lemma LineEffect(p: Platform, c: Checksums, line: Text)
    ensures line == [] ==> AddLine(p, c, line) == Ok(c)
    ensures line != [] && MatchLine(line).None? ==>
              AddLine(p, c, line) == Ok(Checksums(c.failures + [Lit("CHECKSUM_FILE_INVALID_LINE")], c.keys, c.sums))
    ensures forall sum, path :: MatchLine(line) == Some((sum, path)) ==>
              AddLine(p, c, line) ==
                if !IsSafe(path) then Err("EVIDENCE_ZIP_PATH_INVALID")
                else if p.normalize(path) in c.sums then
                  Ok(Checksums(c.failures + [Lit("Duplicate checksum: ") + p.normalize(path)], c.keys, c.sums[p.normalize(path) := sum]))
                else Ok(Checksums(c.failures, c.keys + [p.normalize(path)], c.sums[p.normalize(path) := sum]))
  {
    hide Zip.IsPath, IsSafe;
    if MatchLine(line).Some? {
      ValidIsSafe(p, MatchLine(line).value.1);
    } else {
      EmptyLine(line);
    }
  }

  lemma EmptyLine(line: Text)
    ensures line == [] ==> MatchLine(line).None?
  {
  }

  /* ---- Messages ---- */

  predicate IsLastAt(files: seq<Zip.File>, path: Text, f: Zip.File, i: int) {
    0 <= i < |files| && files[i] == f && f.path == path && forall j :: i < j < |files| ==> files[j].path != path
  }

  /** The file that a path stands for is the last one that has it. */
  ghost predicate IsLastOf(files: seq<Zip.File>, path: Text, f: Zip.File) {
    exists i :: IsLastAt(files, path, f, i)
  }

  lemma LastStays(files: seq<Zip.File>, path: Text, f: Zip.File, i: int)
    requires files != [] && files[|files| - 1].path != path && IsLastAt(files[..|files| - 1], path, f, i)
    ensures IsLastAt(files, path, f, i)
  {
  }

  lemma {:induction false} FindsLast(files: seq<Zip.File>, path: Text)
    ensures match FindFile(files, path)
            case None => forall f :: f in files ==> f.path != path
            case Some(f) => IsLastOf(files, path, f)
  {
    hide IsLastAt;
    if files != [] {
      var front, last := files[..|files| - 1], files[|files| - 1];
      FindsLast(front, path);
      if last.path == path {
        LastItself(files, path);
      } else if FindFile(front, path).Some? {
        var f := FindFile(front, path).value;
        var i :| IsLastAt(front, path, f, i);
        LastStays(files, path, f, i);
      }
    }
  }

  lemma LastItself(files: seq<Zip.File>, path: Text)
    requires files != [] && files[|files| - 1].path == path
    ensures IsLastOf(files, path, files[|files| - 1])
  {
    assert IsLastAt(files, path, files[|files| - 1], |files| - 1);
  }

  /** What is reported of one entry. */
  lemma EntryMessages(p: Platform, e: ReadEntry, files: seq<Zip.File>)
    ensures (forall f :: f in files ==> f.path != e.path) ==> EntryFailures(p, e, files) == [Lit("Missing file: ") + e.path]
    ensures forall f :: IsLastOf(files, e.path, f) ==>
              EntryFailures(p, e, files) == (if |f.bytes| != e.bytes then [Lit("Size mismatch: ") + e.path] else [])
                                            + (if Str(p.sha256(f.bytes)) != e.sha256 then [Lit("Hash mismatch: ") + e.path] else [])
  {
    FindsLast(files, e.path);
    forall f | IsLastOf(files, e.path, f) ensures FindFile(files, e.path) == Some(f) {
      LastIsOne(files, e.path, f);
    }
  }

  lemma LastIsOne(files: seq<Zip.File>, path: Text, f: Zip.File)
    requires IsLastOf(files, path, f)
    ensures FindFile(files, path) == Some(f)
  {
    FindsLast(files, path);
    var i :| IsLastAt(files, path, f, i);
    assert files[i] in files;
    if FindFile(files, path).Some? {
      var k :| IsLastAt(files, path, FindFile(files, path).value, k);
    }
  }

  /** The messages of verifyEvidenceFiles: the entries' in order, then one for each file without an entry. */
  lemma FileMessages(p: Platform, entries: seq<ReadEntry>, e: ReadEntry, files: seq<Zip.File>)
    ensures EntriesFailures(p, [], files) == [] && EntriesFailures(p, entries + [e], files) == EntriesFailures(p, entries, files) + EntryFailures(p, e, files)
    ensures FileFailures(p, entries, files) == EntriesFailures(p, entries, files) + Unlisted(entries, Paths(files), Lit("Unexpected file: "))
  {
    assert (entries + [e])[..|entries|] == entries;
  }

  lemma UnlistedMessages(entries: seq<ReadEntry>, paths: seq<Text>, path: Text, message: Text)
    ensures Unlisted(entries, [], message) == []
    ensures Unlisted(entries, paths + [path], message)
         == Unlisted(entries, paths, message) + (if exists e :: e in entries && e.path == path then [] else [message + path])
  {
    assert (paths + [path])[..|paths|] == paths;
  }

  /** The messages of verifyChecksumFile, once its lines are read. */
  lemma ChecksumMessages(p: Platform, entries: seq<ReadEntry>, e: ReadEntry, sums: map<Text, Text>, bytes: Bytes)
    ensures SumsFailures([], sums) == []
    ensures SumsFailures(entries + [e], sums) == SumsFailures(entries, sums)
              + (if e.path !in sums then [Lit("Missing checksum: ") + e.path]
                 else if Str(sums[e.path]) != e.sha256 then [Lit("Checksum mismatch: ") + e.path] else [])
    ensures p.decode(bytes).None? ==> ChecksumFailures(p, entries, bytes) == Ok([Lit("CHECKSUM_FILE_INVALID_ENCODING")])
    ensures forall text, c :: p.decode(bytes) == Some(text) && ReadLines(p, SplitLines(text)) == Ok(c) ==>
              ChecksumFailures(p, entries, bytes) == Ok(c.failures + SumsFailures(entries, c.sums) + Unlisted(entries, c.keys, Lit("Unexpected checksum: ")))
    ensures forall text, code :: p.decode(bytes) == Some(text) && ReadLines(p, SplitLines(text)) == Err(code) ==>
              ChecksumFailures(p, entries, bytes) == Err(code)
  {
    hide ReadLines, SplitLines, Unlisted;
    assert (entries + [e])[..|entries|] == entries;
  }

  /** The files of an archive that are evidence, in their order. */
  lemma EvidenceOnly(files: seq<Zip.File>, f: Zip.File)
    ensures EvidenceFiles([]) == []
    ensures EvidenceFiles(files + [f])
         == EvidenceFiles(files) + (if f.path == Lit("manifest.json") || f.path == Lit("checksums.sha256") then [] else [f])
  {
    assert (files + [f])[..|files|] == files;
  }

  function SelfMessage(entries: seq<ReadEntry>): seq<Text> {
    if exists e :: e in entries && (e.path == Lit("manifest.json") || e.path == Lit("checksums.sha256"))
    then [Lit("Manifest must not self-reference package metadata files")] else []
  }

  /** The report of verifyEvidenceZip, from the archive's bytes to its last message. */
  lemma PackageMessages(p: Platform, bytes: Bytes)
    ensures match ZipParser.Parsed(p, bytes)
            case Err(code) => Failures(p, bytes) == [Lit(code)]
            case Ok(files) =>
              match FindFile(files, Lit("manifest.json"))
              case None => Failures(p, bytes) == [Lit("Missing file: manifest.json")]
              case Some(manifest) =>
                match ReadManifest(p, manifest.bytes)
                case Err(code) => Failures(p, bytes) == [Lit(code)]
                case Ok(entries) =>
                  var checked := FileFailures(p, entries, EvidenceFiles(files));
                  match FindFile(files, Lit("checksums.sha256"))
                  case None => Failures(p, bytes) == [Lit("Missing file: checksums.sha256")] + checked + SelfMessage(entries)
                  case Some(sums) =>
                    match ChecksumFailures(p, entries, sums.bytes)
                    case Err(code) => Failures(p, bytes) == checked + [Lit(code)]
                    case Ok(failures) => Failures(p, bytes) == checked + failures + SelfMessage(entries)
  {
    hide ZipParser.Parsed, ReadManifest, FileFailures, EvidenceFiles, ChecksumFailures, FindFile;
    if ZipParser.Parsed(p, bytes).Ok? && FindFile(ZipParser.Parsed(p, bytes).value, Lit("manifest.json")).Some? {
      var read := ReadManifest(p, FindFile(ZipParser.Parsed(p, bytes).value, Lit("manifest.json")).value.bytes);
      if read.Ok? {
        SelfIs(read.value);
      }
    }
  }

  lemma SelfIs(entries: seq<ReadEntry>)
    ensures SelfReferences(entries) <==> exists e :: e in entries && (e.path == Lit("manifest.json") || e.path == Lit("checksums.sha256"))
  {
  }

  /* ---- Which manifests are read ---- */

  /** An entry is read exactly if it is an object with a safe, normalised path, a hash, a safe integer size and a type. */
  lemma EntryAcceptance(p: Platform, v: Json)
    ensures var (r, path, sha256, bytes, mediaType) :=
              (ReadManifestEntry(p, v), Property(v, Lit("path")), Property(v, Lit("sha256")), Property(v, Lit("bytes")), Property(v, Lit("mediaType")));
            if !v.Obj? || !path.Str? then r == Err("EVIDENCE_MANIFEST_ENTRY_INVALID")
            else if !IsSafe(path.t) then r == Err("EVIDENCE_ZIP_PATH_INVALID")
            else if p.normalize(path.t) != path.t || !IsHash(AsString(sha256)) || !mediaType.Str?
                    || !bytes.Number? || NatValue(bytes.n).None? || NatValue(bytes.n).value > 9_007_199_254_740_991 then
              r == Err("EVIDENCE_MANIFEST_ENTRY_INVALID")
            else r == Ok(ReadEntry(path.t, sha256, NatValue(bytes.n).value))
  {
    hide Zip.IsPath, IsSafe, Property, AsString, NatValue, IsDigest, IsHash;
    DigestIsHash(AsString(Property(v, Lit("sha256"))));
    if Property(v, Lit("path")).Str? {
      ValidIsSafe(p, Property(v, Lit("path")).t);
    }
  }

  /** A manifest is read exactly if it is JSON of this schema whose entries are read and have different paths. */
  lemma ManifestAcceptance(p: Platform, bytes: Bytes)
    ensures p.decode(bytes).None? || JsonParser.Parse(p.decode(bytes).value).None? ==>
              ReadManifest(p, bytes) == Err("EVIDENCE_MANIFEST_INVALID_JSON")
    ensures forall text, v :: p.decode(bytes) == Some(text) && JsonParser.Parse(text) == Some(v) ==>
              var (r, items) := (ReadManifest(p, bytes), Property(v, Lit("entries")));
              if || Property(v, Lit("schema")) != Str(Lit("kommunsign.evidence-package.v1")) || !Property(v, Lit("signatureCaseId")).Str?
                 || !Property(v, Lit("createdAt")).Str? || !items.Arr? then
                r == Err("EVIDENCE_MANIFEST_INVALID")
              else match ReadManifestEntries(p, items.items)
                case Err(code) => r == Err(code)
                case Ok(entries) =>
                  if exists i, j :: 0 <= i < j < |entries| && entries[i].path == entries[j].path then r == Err("EVIDENCE_ZIP_DUPLICATE_PATH")
                  else r == Ok(entries)
  {
    hide JsonParser.Parse, Property, ReadManifestEntries;
  }

  /** The entries are read in order, and the first that is refused decides. */
  lemma {:induction false} EntriesAcceptance(p: Platform, items: seq<Json>, item: Json)
    ensures ReadManifestEntries(p, []) == Ok([])
    ensures ReadManifestEntries(p, items + [item]) ==
              match ReadManifestEntries(p, items)
              case Err(code) => Err(code)
              case Ok(entries) =>
                match ReadManifestEntry(p, item)
                case Err(code) => Err(code)
                case Ok(entry) => Ok(entries + [entry])
  {
    hide ReadManifestEntry;
    if items == [] {
      assert items + [item] == [item] && [item][1..] == [];
      assert ReadManifestEntries(p, []) == Ok([]);
      if ReadManifestEntry(p, item).Ok? {
        assert [ReadManifestEntry(p, item).value] + [] == [] + [ReadManifestEntry(p, item).value];
      }
    } else {
      assert (items + [item])[1..] == items[1..] + [item];
      EntriesAcceptance(p, items[1..], item);
      if ReadManifestEntry(p, items[0]).Ok? && ReadManifestEntries(p, items[1..]).Ok? && ReadManifestEntry(p, item).Ok? {
        var first, others, last := ReadManifestEntry(p, items[0]).value, ReadManifestEntries(p, items[1..]).value, ReadManifestEntry(p, item).value;
        assert [first] + (others + [last]) == [first] + others + [last];
      }
    }
  }

  /** String() of the parsed values that it turns into short texts; an array's parts are joined by commas. */
  lemma StringOf(v: Json)
    ensures v.Str? ==> AsString(v) == v.t
    ensures v.Null? ==> AsString(v) == Lit("null")
    ensures v.Undefined? ==> AsString(v) == Lit("undefined")
    ensures v.Bool? ==> AsString(v) == if v.b then Lit("true") else Lit("false")
    ensures v.Obj? ==> AsString(v) == Lit("[object Object]")
  {
  }
}
