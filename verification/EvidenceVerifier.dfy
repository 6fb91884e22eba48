/** Verifying an evidence package from its bytes alone. */
module EvidenceVerifier {
  import opened Results
  import opened Bytes
  import opened Text
  import opened Platform
  import opened JsonNumber
  import opened CanonicalJson
  import opened Evidence
  import JsonParser
  import Zip
  import ZipParser

  const MAX_SAFE_INTEGER := 9007199254740991

  const INVALID_JSON := "EVIDENCE_MANIFEST_INVALID_JSON"
  const MANIFEST_INVALID := "EVIDENCE_MANIFEST_INVALID"
  const ENTRY_INVALID := "EVIDENCE_MANIFEST_ENTRY_INVALID"

  /* ---- Reading the manifest ---- */

  /** An entry as read: its sha256 has only been checked after conversion to a string. */
  datatype ReadEntry = ReadEntry(path: Text, sha256: Json, bytes: nat)

  /** A property of a parsed value. */
  function Property(v: Json, key: Text): Json {
    if v.Obj? then MemberValue(v.members, key) else Undefined
  }

  function MemberValue(members: seq<Member>, key: Text): Json {
    if members == [] then Undefined
    else if members[0].key == key then members[0].value
    else MemberValue(members[1..], key)
  }

  /** String(v) of a parsed value. */
  function AsString(v: Json): Text {
    match v
    case Null => Lit("null")
    case Bool(b) => if b then Lit("true") else Lit("false")
    case Number(n) =>
      if n.NaN? then Lit("NaN") else if n.Infinite? then Lit("Infinity") else NumberText(n)
    case Str(t) => t
    case Arr(items) =>
      Joined(seq(|items|, i requires 0 <= i < |items| =>
        if items[i].Null? || items[i].Undefined? then [] else AsString(items[i])))
    case Obj(_) => Lit("[object Object]")
    case Undefined => Lit("undefined")
  }

  function SafeNat(v: Json): Option<nat> {
    if !v.Number? then None
    else match NatValue(v.n)
      case None => None
      case Some(n) => if n <= MAX_SAFE_INTEGER then Some(n) else None
  }

  function ReadManifestEntry(p: Platform, v: Json): Result<ReadEntry> {
    if !v.Obj? || !Property(v, Lit("path")).Str? then Err(ENTRY_INVALID)
    else
      var path := Property(v, Lit("path")).t;
      match Zip.ValidatePath(p, path)
      case Err(e) => Err(e)
      case Ok(valid) =>
        var sha256, bytes := Property(v, Lit("sha256")), SafeNat(Property(v, Lit("bytes")));
        if valid != path || !IsDigest(AsString(sha256)) || bytes.None? || !Property(v, Lit("mediaType")).Str? then
          Err(ENTRY_INVALID)
        else Ok(ReadEntry(path, sha256, bytes.value))
  }

  function ReadManifestEntries(p: Platform, items: seq<Json>): (r: Result<seq<ReadEntry>>)
    ensures r.Ok? ==> |r.value| == |items|
  {
    if items == [] then Ok([])
    else match ReadManifestEntry(p, items[0])
      case Err(e) => Err(e)
      case Ok(entry) =>
        match ReadManifestEntries(p, items[1..])
        case Err(e) => Err(e)
        case Ok(others) => Ok([entry] + others)
  }

  predicate DistinctEntries(entries: seq<ReadEntry>) {
    forall i, j :: 0 <= i < j < |entries| ==> entries[i].path != entries[j].path
  }

  function ReadManifestJson(p: Platform, v: Json): Result<seq<ReadEntry>> {
    if || Property(v, Lit("schema")) != Str(Lit(SCHEMA)) || !Property(v, Lit("signatureCaseId")).Str?
       || !Property(v, Lit("createdAt")).Str? || !Property(v, Lit("entries")).Arr? then Err(MANIFEST_INVALID)
    else match ReadManifestEntries(p, Property(v, Lit("entries")).items)
      case Err(e) => Err(e)
      case Ok(entries) => if DistinctEntries(entries) then Ok(entries) else Err(Zip.DUPLICATE_PATH)
  }

  /** The manifest's entries, or what parseManifest throws. */
  function ReadManifest(p: Platform, bytes: Bytes): Result<seq<ReadEntry>> {
    match p.decode(bytes)
    case None => Err(INVALID_JSON)
    case Some(text) =>
      match JsonParser.Parse(text)
      case None => Err(INVALID_JSON)
      case Some(v) => ReadManifestJson(p, v)
  }

  /* ---- Comparing the files with the manifest ---- */

  function FindFile(files: seq<Zip.File>, path: Text): (r: Option<Zip.File>)
    ensures r.Some? ==> r.value in files && r.value.path == path
    ensures r.None? ==> forall f :: f in files ==> f.path != path
  {
    if files == [] then None
    else if files[|files| - 1].path == path then Some(files[|files| - 1])
    else FindFile(files[..|files| - 1], path)
  }

  function EntryFailures(p: Platform, entry: ReadEntry, files: seq<Zip.File>): seq<Text> {
    match FindFile(files, entry.path)
    case None => [Lit("Missing file: ") + entry.path]
    case Some(file) =>
      (if |file.bytes| != entry.bytes then [Lit("Size mismatch: ") + entry.path] else [])
      + (if Str(p.sha256(file.bytes)) != entry.sha256 then [Lit("Hash mismatch: ") + entry.path] else [])
  }

  function EntriesFailures(p: Platform, entries: seq<ReadEntry>, files: seq<Zip.File>): seq<Text> {
    if entries == [] then []
    else EntriesFailures(p, entries[..|entries| - 1], files) + EntryFailures(p, entries[|entries| - 1], files)
  }

  predicate Listed(entries: seq<ReadEntry>, path: Text) {
    exists e :: e in entries && e.path == path
  }

  /** A message for each path that no entry lists. */
  function Unlisted(entries: seq<ReadEntry>, paths: seq<Text>, message: Text): seq<Text> {
    if paths == [] then []
    else
      var last := paths[|paths| - 1];
      Unlisted(entries, paths[..|paths| - 1], message) + (if Listed(entries, last) then [] else [message + last])
  }

  function Paths(files: seq<Zip.File>): (paths: seq<Text>)
    ensures |paths| == |files| && forall i :: 0 <= i < |files| ==> paths[i] == files[i].path
  {
    seq(|files|, i requires 0 <= i < |files| => files[i].path)
  }

  function FileFailures(p: Platform, entries: seq<ReadEntry>, files: seq<Zip.File>): seq<Text> {
    EntriesFailures(p, entries, files) + Unlisted(entries, Paths(files), Lit("Unexpected file: "))
  }

  method VerifyEvidenceFiles(p: Platform, entries: seq<ReadEntry>, files: seq<Zip.File>) returns (failures: seq<Text>)
    ensures failures == FileFailures(p, entries, files)
  {
    hide EntryFailures, Listed;
    failures := [];
    for i := 0 to |entries|
      invariant failures == EntriesFailures(p, entries[..i], files)
    {
      assert entries[..i + 1][..i] == entries[..i];
      failures := failures + EntryFailures(p, entries[i], files);
    }
    assert entries[..|entries|] == entries;
    var paths := Paths(files);
    var unlisted := UnlistedPaths(entries, paths, Lit("Unexpected file: "));
    failures := failures + unlisted;
  }

  method UnlistedPaths(entries: seq<ReadEntry>, paths: seq<Text>, message: Text) returns (failures: seq<Text>)
    ensures failures == Unlisted(entries, paths, message)
  {
    hide Listed;
    failures := [];
    for i := 0 to |paths|
      invariant failures == Unlisted(entries, paths[..i], message)
    {
      assert paths[..i + 1][..i] == paths[..i];
      if !Listed(entries, paths[i]) {
        failures := failures + [message + paths[i]];
      }
    }
    assert paths[..|paths|] == paths;
  }

  /* ---- The checksum file ---- */

  /** split('\n') */
  function SplitLines(text: Text): (lines: seq<Text>)
    ensures |lines| > 0
  {
    if text == [] then [[]]
    else if text[|text| - 1] == NEWLINE then SplitLines(text[..|text| - 1]) + [[]]
    else
      var lines := SplitLines(text[..|text| - 1]);
      lines[..|lines| - 1] + [lines[|lines| - 1] + [text[|text| - 1]]]
  }

  /** The two groups of /^([0-9a-f]{64})  (.+)$/. */
  function MatchLine(line: Text): Option<(Text, Text)> {
    if |line| > 66 && IsDigest(line[..64]) && line[64..66] == Lit("  ") && !HasTerminator(line[66..])
    then Some((line[..64], line[66..]))
    else None
  }

  /** The failures so far, and the checksums by path with the paths in order of first appearance. */
  datatype Checksums = Checksums(failures: seq<Text>, keys: seq<Text>, sums: map<Text, Text>)

  function AddLine(p: Platform, c: Checksums, line: Text): Result<Checksums> {
    if line == [] then Ok(c)
    else match MatchLine(line)
      case None => Ok(c.(failures := c.failures + [Lit("CHECKSUM_FILE_INVALID_LINE")]))
      case Some((sum, raw)) =>
        match Zip.ValidatePath(p, raw)
        case Err(e) => Err(e)
        case Ok(path) =>
          var failures := if path in c.sums then c.failures + [Lit("Duplicate checksum: ") + path] else c.failures;
          var keys := if path in c.sums then c.keys else c.keys + [path];
          Ok(Checksums(failures, keys, c.sums[path := sum]))
  }

  function ReadLines(p: Platform, lines: seq<Text>): Result<Checksums> {
    if lines == [] then Ok(Checksums([], [], map[]))
    else match ReadLines(p, lines[..|lines| - 1])
      case Err(e) => Err(e)
      case Ok(c) => AddLine(p, c, lines[|lines| - 1])
  }

  function SumFailures(entry: ReadEntry, sums: map<Text, Text>): seq<Text> {
    if entry.path !in sums then [Lit("Missing checksum: ") + entry.path]
    else if Str(sums[entry.path]) != entry.sha256 then [Lit("Checksum mismatch: ") + entry.path]
    else []
  }

  function SumsFailures(entries: seq<ReadEntry>, sums: map<Text, Text>): seq<Text> {
    if entries == [] then []
    else SumsFailures(entries[..|entries| - 1], sums) + SumFailures(entries[|entries| - 1], sums)
  }

  /** What verifyChecksumFile returns or throws. */
  function ChecksumFailures(p: Platform, entries: seq<ReadEntry>, bytes: Bytes): Result<seq<Text>> {
    match p.decode(bytes)
    case None => Ok([Lit("CHECKSUM_FILE_INVALID_ENCODING")])
    case Some(text) =>
      match ReadLines(p, SplitLines(text))
      case Err(e) => Err(e)
      case Ok(c) => Ok(c.failures + SumsFailures(entries, c.sums) + Unlisted(entries, c.keys, Lit("Unexpected checksum: ")))
  }

  method VerifyChecksumFile(p: Platform, entries: seq<ReadEntry>, bytes: Bytes) returns (r: Result<seq<Text>>)
    ensures r == ChecksumFailures(p, entries, bytes)
  {
    hide AddLine, SumFailures, SplitLines, Unlisted;
    var text := p.decode(bytes);
    if text.None? {
      return Ok([Lit("CHECKSUM_FILE_INVALID_ENCODING")]);
    }
    var actual := ReadAllLines(p, SplitLines(text.value));
    if actual.Err? {
      return Err(actual.code);
    }
    var failures := actual.value.failures;
    for i := 0 to |entries|
      invariant failures == actual.value.failures + SumsFailures(entries[..i], actual.value.sums)
    {
      assert entries[..i + 1][..i] == entries[..i];
      failures := failures + SumFailures(entries[i], actual.value.sums);
    }
    assert entries[..|entries|] == entries;
    var unlisted := UnlistedPaths(entries, actual.value.keys, Lit("Unexpected checksum: "));
    r := Ok(failures + unlisted);
  }

  method ReadAllLines(p: Platform, lines: seq<Text>) returns (r: Result<Checksums>)
    ensures r == ReadLines(p, lines)
  {
    hide AddLine;
    r := Ok(Checksums([], [], map[]));
    for i := 0 to |lines|
      invariant r.Ok? && r == ReadLines(p, lines[..i])
    {
      assert lines[..i + 1][..i] == lines[..i];
      r := AddLine(p, r.value, lines[i]);
      if r.Err? {
        ReadLinesFails(p, lines, i + 1);
        return;
      }
    }
    assert lines[..|lines|] == lines;
  }

  lemma {:induction false} ReadLinesFails(p: Platform, lines: seq<Text>, i: nat)
    requires i <= |lines| && ReadLines(p, lines[..i]).Err?
    ensures ReadLines(p, lines) == ReadLines(p, lines[..i])
    decreases |lines| - i
  {
    hide AddLine;
    if i < |lines| {
      assert lines[..i + 1][..i] == lines[..i];
      ReadLinesFails(p, lines, i + 1);
    } else {
      assert lines[..i] == lines;
    }
  }

  /* ---- The whole package ---- */

  predicate IsMetadata(path: Text) {
    path == ManifestPath() || path == ChecksumPath()
  }

  function EvidenceFiles(files: seq<Zip.File>): seq<Zip.File> {
    if files == [] then []
    else
      var last := files[|files| - 1];
      EvidenceFiles(files[..|files| - 1]) + (if IsMetadata(last.path) then [] else [last])
  }

  predicate SelfReferences(entries: seq<ReadEntry>) {
    Listed(entries, ManifestPath()) || Listed(entries, ChecksumPath())
  }

  /** The failures of verifyEvidenceZip, once the files and the manifest are read. */
  function PackageFailures(p: Platform, files: seq<Zip.File>, entries: seq<ReadEntry>): seq<Text> {
    var self := if SelfReferences(entries) then [Lit("Manifest must not self-reference package metadata files")] else [];
    var checked := FileFailures(p, entries, EvidenceFiles(files));
    match FindFile(files, ChecksumPath())
    case None => [Lit("Missing file: checksums.sha256")] + checked + self
    case Some(file) =>
      match ChecksumFailures(p, entries, file.bytes)
      case Err(e) => checked + [Lit(e)]
      case Ok(failures) => checked + failures + self
  }

  function Failures(p: Platform, bytes: Bytes): seq<Text> {
    match ZipParser.Parsed(p, bytes)
    case Err(e) => [Lit(e)]
    case Ok(files) =>
      match FindFile(files, ManifestPath())
      case None => [Lit("Missing file: manifest.json")]
      case Some(file) =>
        match ReadManifest(p, file.bytes)
        case Err(e) => [Lit(e)]
        case Ok(entries) => PackageFailures(p, files, entries)
  }

  method VerifyEvidenceZip(p: Platform, bytes: Bytes) returns (verified: bool, packageSha256: Text, failures: seq<Text>)
    ensures failures == Failures(p, bytes) && verified == (failures == []) && packageSha256 == p.sha256(bytes)
  {
    hide ZipParser.Parsed, ReadManifest, FileFailures, ChecksumFailures, SelfReferences, EvidenceFiles, FindFile;
    packageSha256 := p.sha256(bytes);
    failures := [];
    var parsed := ZipParser.ParseEvidenceZip(p, bytes);
    if parsed.Err? {
      failures := [Lit(parsed.code)];
    } else {
      var files := parsed.value;
      var manifestFile := FindFile(files, ManifestPath());
      if manifestFile.None? {
        failures := [Lit("Missing file: manifest.json")];
      } else {
        var manifest := ReadManifest(p, manifestFile.value.bytes);
        if manifest.Err? {
          failures := [Lit(manifest.code)];
        } else {
          failures := VerifyPackage(p, files, manifest.value);
        }
      }
    }
    verified := failures == [];
  }

  method VerifyPackage(p: Platform, files: seq<Zip.File>, entries: seq<ReadEntry>) returns (failures: seq<Text>)
    ensures failures == PackageFailures(p, files, entries)
  {
    hide FileFailures, ChecksumFailures, SelfReferences, EvidenceFiles, FindFile;
    var checksumFile := FindFile(files, ChecksumPath());
    failures := if checksumFile.None? then [Lit("Missing file: checksums.sha256")] else [];
    var checked := VerifyEvidenceFiles(p, entries, EvidenceFiles(files));
    failures := failures + checked;
    if checksumFile.Some? {
      var sums := VerifyChecksumFile(p, entries, checksumFile.value.bytes);
      if sums.Err? {
        failures := failures + [Lit(sums.code)];
        return;
      }
      failures := failures + sums.value;
    }
    if SelfReferences(entries) {
      failures := failures + [Lit("Manifest must not self-reference package metadata files")];
    }
  }
}
