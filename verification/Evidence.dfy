/** The evidence package: its manifest, its checksum file, and their assembly into an archive. */
module Evidence {
  import opened Results
  import opened Bytes
  import opened Text
  import opened Ordering
  import opened Platform
  import opened JsonNumber
  import opened CanonicalJson
  import Zip

  const SCHEMA := "kommunsign.evidence-package.v1"

  datatype EvidenceFile = EvidenceFile(path: Text, bytes: Bytes, mediaType: Text)

  datatype Entry = Entry(path: Text, sha256: Text, bytes: nat, mediaType: Text)

  datatype Manifest = Manifest(createdAt: Text, signatureCaseId: Text, entries: seq<Entry>, metadata: Json)

  /* ---- The manifest ---- */

  function EntryOf(p: Platform, file: EvidenceFile): Entry {
    Entry(file.path, p.sha256(file.bytes), |file.bytes|, file.mediaType)
  }

  function EntriesOf(p: Platform, files: seq<EvidenceFile>): (entries: seq<Entry>)
    ensures |entries| == |files|
    ensures forall i :: 0 <= i < |files| ==> entries[i] == EntryOf(p, files[i])
  {
    seq(|files|, i requires 0 <= i < |files| => EntryOf(p, files[i]))
  }

  function ByEntryPath(p: Platform): (Entry, Entry) -> bool {
    (a: Entry, b: Entry) => p.pathAtMost(a.path, b.path)
  }

  function ManifestOf(p: Platform, signatureCaseId: Text, files: seq<EvidenceFile>, metadata: Json, createdAt: Text): Manifest {
    Manifest(createdAt, signatureCaseId, Sort(EntriesOf(p, files), ByEntryPath(p)), metadata)
  }

  method CreateEvidenceManifest(p: Platform, signatureCaseId: Text, files: seq<EvidenceFile>, metadata: Json, createdAt: Text)
    returns (manifest: Manifest)
    ensures manifest == ManifestOf(p, signatureCaseId, files, metadata, createdAt)
  {
    var entries: seq<Entry> := [];
    for i := 0 to |files|
      invariant entries == EntriesOf(p, files[..i])
    {
      assert files[..i + 1][..i] == files[..i];
      entries := entries + [Entry(files[i].path, p.sha256(files[i].bytes), |files[i].bytes|, files[i].mediaType)];
    }
    assert files[..|files|] == files;
    entries := Sort(entries, ByEntryPath(p));
    manifest := Manifest(createdAt, signatureCaseId, entries, metadata);
  }

  function EntryJson(e: Entry): Json {
    Obj([Member(Lit("path"), Str(e.path)), Member(Lit("sha256"), Str(e.sha256)),
         Member(Lit("bytes"), Number(NatNumber(e.bytes))), Member(Lit("mediaType"), Str(e.mediaType))])
  }

  function EntryJsons(entries: seq<Entry>): (items: seq<Json>)
    ensures |items| == |entries|
    ensures forall i :: 0 <= i < |entries| ==> items[i] == EntryJson(entries[i])
  {
    seq(|entries|, i requires 0 <= i < |entries| => EntryJson(entries[i]))
  }

  function ManifestJson(m: Manifest): Json {
    Obj([Member(Lit("schema"), Str(Lit(SCHEMA))), Member(Lit("createdAt"), Str(m.createdAt)),
         Member(Lit("signatureCaseId"), Str(m.signatureCaseId)), Member(Lit("entries"), Arr(EntryJsons(m.entries))),
         Member(Lit("metadata"), m.metadata)])
  }

  /* ---- The checksum file ---- */

  const NEWLINE: Unit := 10

  function ChecksumLine(e: Entry): Text {
    e.sha256 + Lit("  ") + e.path
  }

  /** Each line, ended by a newline; join('\n') + '\n' of no lines is one newline. */
  function Lines(entries: seq<Entry>): Text {
    if entries == [] then [] else Lines(entries[..|entries| - 1]) + ChecksumLine(entries[|entries| - 1]) + [NEWLINE]
  }

  function ChecksumText(p: Platform, entries: seq<Entry>): Text {
    var sorted := Sort(entries, ByEntryPath(p));
    if sorted == [] then [NEWLINE] else Lines(sorted)
  }

  /* ---- The package, as the worker assembles it ---- */

  function ManifestPath(): Text {
    Lit("manifest.json")
  }

  function ChecksumPath(): Text {
    Lit("checksums.sha256")
  }

  function ZipFiles(files: seq<EvidenceFile>): (r: seq<Zip.File>)
    ensures |r| == |files|
    ensures forall i :: 0 <= i < |files| ==> r[i] == Zip.File(files[i].path, files[i].bytes)
  {
    seq(|files|, i requires 0 <= i < |files| => Zip.File(files[i].path, files[i].bytes))
  }

  function Packed(p: Platform, files: seq<EvidenceFile>, manifest: Bytes, checksums: Bytes): seq<Zip.File> {
    Sort(ZipFiles(files) + [Zip.File(ManifestPath(), manifest), Zip.File(ChecksumPath(), checksums)], Zip.ByPath(p))
  }

  /** The archive that handleEvidencePackageBuild stores. */
  function Package(p: Platform, signatureCaseId: Text, files: seq<EvidenceFile>, metadata: Json, createdAt: Text): Result<Bytes> {
    var manifest := ManifestOf(p, signatureCaseId, files, metadata, createdAt);
    match Encode(ManifestJson(manifest))
    case Err(e) => Err(e)
    case Ok(text) => Zip.Created(p, Packed(p, files, p.encode(text), p.encode(ChecksumText(p, manifest.entries))))
  }

  method BuildPackage(p: Platform, signatureCaseId: Text, files: seq<EvidenceFile>, metadata: Json, createdAt: Text)
    returns (r: Result<Bytes>)
    ensures r == Package(p, signatureCaseId, files, metadata, createdAt)
  {
    hide Encode, Sort, Zip.Created, ChecksumText;
    var manifest := CreateEvidenceManifest(p, signatureCaseId, files, metadata, createdAt);
    var text := Encode(ManifestJson(manifest));
    if text.Err? {
      return Err(text.code);
    }
    var all := Packed(p, files, p.encode(text.value), p.encode(ChecksumText(p, manifest.entries)));
    r := Zip.CreateEvidenceZip(p, all);
  }
}
