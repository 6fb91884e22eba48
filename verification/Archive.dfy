/** The preservation export: building the package and verifying it offline. */
module Archive {
  import opened Results
  import opened Text
  import opened Ordering
  import opened Platform
  import opened JsonNumber
  import opened CanonicalJson
  import opened Evidence
  import opened EvidenceVerifier
  import CanonicalJsonLaws

  const PACKAGE_SCHEMA := "kommunsign.fgs-package.v1"
  const REGULATION := "RA-FS 2009:2"

  const CASE_NOT_CLOSED := "ARCHIVE_CASE_NOT_CLOSED"
  const DOCUMENT_MISSING := "ARCHIVE_DOCUMENT_MISSING"
  const PROFILE_NOT_VERIFIED := "ARCHIVE_PROFILE_NOT_VERIFIED"
  const SIGNATURE_MISSING := "ARCHIVE_SIGNATURE_EVIDENCE_MISSING"
  const IDENTITY_MISSING := "ARCHIVE_IDENTITY_EVIDENCE_MISSING"
  const AUDIT_MISSING := "ARCHIVE_AUDIT_TRAIL_MISSING"
  const PATH_INVALID := "ARCHIVE_PATH_INVALID"

  /* ---- The case ---- */

  datatype Document = Document(displayName: Text, verifiedProfile: Option<Text>)

  datatype Signature = Signature(signerId: Text, signedAt: Text, padesLevel: Option<Text>, artifactSha256: Option<Text>,
                                 reportSha256: Option<Text>, timestampSha256: Option<Text>)

  datatype Identity = Identity(signerId: Text, provider: Text, assuranceLevel: Text, maskedIdentifier: Text, verifiedAt: Text,
                               evidenceSha256: Text)

  datatype DecisionMode = DigitalApproval | ElectronicSignature

  datatype Case = Case(tenantId: Text, signatureCaseId: Text, reference: Text, title: Text, decisionMode: DecisionMode,
                       createdAt: Text, closedAt: Option<Text>, documents: seq<Document>, signatures: seq<Signature>,
                       identities: seq<Identity>, auditTrailSha256: Option<Text>)

  /** Neither null nor the empty string. */
  predicate IsPresent(t: Option<Text>) {
    t.Some? && t.value != []
  }

  predicate HasEvidence(s: Signature) {
    IsPresent(s.artifactSha256) && IsPresent(s.reportSha256)
  }

  predicate IsIdentified(c: Case, s: Signature) {
    exists i :: i in c.identities && i.signerId == s.signerId
  }

  /** The code that assertArchivable throws, if any. */
  function Refusal(c: Case): Option<string> {
    if c.closedAt.None? then Some(CASE_NOT_CLOSED)
    else if c.documents == [] then Some(DOCUMENT_MISSING)
    else if exists d :: d in c.documents && d.verifiedProfile.None? then Some(PROFILE_NOT_VERIFIED)
    else if c.decisionMode.ElectronicSignature? && (c.signatures == [] || exists s :: s in c.signatures && !HasEvidence(s)) then Some(SIGNATURE_MISSING)
    else if exists s :: s in c.signatures && !IsIdentified(c, s) then Some(IDENTITY_MISSING)
    else if c.auditTrailSha256.None? then Some(AUDIT_MISSING)
    else None
  }

  method AssertArchivable(c: Case) returns (refusal: Option<string>)
    ensures refusal == Refusal(c)
  {
    hide HasEvidence, IsIdentified;
    if c.closedAt.None? {
      return Some(CASE_NOT_CLOSED);
    }
    if c.documents == [] {
      return Some(DOCUMENT_MISSING);
    }
    for n := 0 to |c.documents|
      invariant forall k :: 0 <= k < n ==> c.documents[k].verifiedProfile.Some?
    {
      if c.documents[n].verifiedProfile.None? {
        return Some(PROFILE_NOT_VERIFIED);
      }
    }
    if c.decisionMode.ElectronicSignature? {
      if c.signatures == [] {
        return Some(SIGNATURE_MISSING);
      }
      for n := 0 to |c.signatures|
        invariant forall k :: 0 <= k < n ==> HasEvidence(c.signatures[k])
      {
        if !HasEvidence(c.signatures[n]) {
          return Some(SIGNATURE_MISSING);
        }
      }
    }
    for n := 0 to |c.signatures|
      invariant forall k :: 0 <= k < n ==> IsIdentified(c, c.signatures[k])
    {
      if !IsIdentified(c, c.signatures[n]) {
        return Some(IDENTITY_MISSING);
      }
    }
    refusal := if c.auditTrailSha256.None? then Some(AUDIT_MISSING) else None;
  }

  /* ---- Paths ---- */

  predicate IsAlphanumeric(u: Unit) {
    '0' as int <= u <= '9' as int || 'A' as int <= u <= 'Z' as int || 'a' as int <= u <= 'z' as int
  }

  predicate IsNameUnit(u: Unit) {
    IsAlphanumeric(u) || u == '.' as int || u == '_' as int || u == '-' as int
  }

  predicate IsName(t: Text) {
    1 <= |t| <= 121 && IsAlphanumeric(t[0]) && forall i :: 0 <= i < |t| ==> IsNameUnit(t[i])
  }

  predicate StartsWith(t: Text, s: string) {
    |t| >= |s| && t[..|s|] == Lit(s)
  }

  predicate IsInFolder(t: Text, folder: string) {
    StartsWith(t, folder) && IsName(t[|folder|..])
  }

  predicate HasDots(t: Text) {
    exists i :: 0 <= i < |t| - 1 && t[i] == '.' as int && t[i + 1] == '.' as int
  }

  predicate IsPackagePath(t: Text) {
    (IsInFolder(t, "content/") || IsInFolder(t, "metadata/") || IsInFolder(t, "evidence/")) && !HasDots(t)
  }

  /* ---- The manifest ---- */

  datatype Category = Content | Metadata | EvidenceRecord

  datatype ArchiveEntry = ArchiveEntry(path: Text, sha256: Text, bytes: nat, mediaType: Text, category: Category)

  datatype ArchiveManifest = ArchiveManifest(schema: Text, profileVersion: nat, regulation: Text, tenantId: Text,
                                             signatureCaseId: Text, reference: Text, title: Text, decisionMode: DecisionMode,
                                             createdAt: Text, closedAt: Text, entries: seq<ArchiveEntry>,
                                             signatures: seq<Signature>, identities: seq<Identity>, auditTrailSha256: Text)

  function CategoryOf(path: Text): Category {
    if StartsWith(path, "content/") then Content else if StartsWith(path, "metadata/") then Metadata else EvidenceRecord
  }

  function ArchiveEntryOf(p: Platform, f: EvidenceFile): ArchiveEntry {
    ArchiveEntry(f.path, p.sha256(f.bytes), |f.bytes|, f.mediaType, CategoryOf(f.path))
  }

  function ArchiveEntries(p: Platform, files: seq<EvidenceFile>): (entries: seq<ArchiveEntry>)
    ensures |entries| == |files|
    ensures forall i :: 0 <= i < |files| ==> entries[i] == ArchiveEntryOf(p, files[i])
  {
    seq(|files|, i requires 0 <= i < |files| => ArchiveEntryOf(p, files[i]))
  }

  function EntryOrder(p: Platform): (ArchiveEntry, ArchiveEntry) -> bool {
    (a: ArchiveEntry, b: ArchiveEntry) => p.pathAtMost(a.path, b.path)
  }

  function FileOrder(p: Platform): (EvidenceFile, EvidenceFile) -> bool {
    (a: EvidenceFile, b: EvidenceFile) => p.pathAtMost(a.path, b.path)
  }

  function SignatureOrder(p: Platform): (Signature, Signature) -> bool {
    (a: Signature, b: Signature) => p.pathAtMost(a.signerId, b.signerId)
  }

  function IdentityOrder(p: Platform): (Identity, Identity) -> bool {
    (a: Identity, b: Identity) => p.pathAtMost(a.signerId, b.signerId)
  }

  function OptionalJson(t: Option<Text>): Json {
    if t.Some? then Str(t.value) else Null
  }

  function CategoryName(c: Category): Text {
    match c
    case Content => Lit("content")
    case Metadata => Lit("metadata")
    case EvidenceRecord => Lit("evidence")
  }

  function ModeName(m: DecisionMode): Text {
    match m
    case DigitalApproval => Lit("DIGITAL_APPROVAL")
    case ElectronicSignature => Lit("ELECTRONIC_SIGNATURE")
  }

  function ArchiveEntryJson(e: ArchiveEntry): Json {
    Obj([Member(Lit("path"), Str(e.path)), Member(Lit("sha256"), Str(e.sha256)), Member(Lit("bytes"), Number(NatNumber(e.bytes))),
         Member(Lit("mediaType"), Str(e.mediaType)), Member(Lit("category"), Str(CategoryName(e.category)))])
  }

  function SignatureJson(s: Signature): Json {
    Obj([Member(Lit("signerId"), Str(s.signerId)), Member(Lit("signedAt"), Str(s.signedAt)),
         Member(Lit("padesLevel"), OptionalJson(s.padesLevel)),
         Member(Lit("signatureArtifactSha256"), OptionalJson(s.artifactSha256)),
         Member(Lit("validationReportSha256"), OptionalJson(s.reportSha256)),
         Member(Lit("timestampTokenSha256"), OptionalJson(s.timestampSha256))])
  }

  function IdentityJson(i: Identity): Json {
    Obj([Member(Lit("signerId"), Str(i.signerId)), Member(Lit("provider"), Str(i.provider)),
         Member(Lit("assuranceLevel"), Str(i.assuranceLevel)), Member(Lit("maskedIdentifier"), Str(i.maskedIdentifier)),
         Member(Lit("verifiedAt"), Str(i.verifiedAt)), Member(Lit("evidenceSha256"), Str(i.evidenceSha256))])
  }

  function Jsons<T>(xs: seq<T>, json: T -> Json): (items: seq<Json>)
    ensures |items| == |xs| && forall i :: 0 <= i < |xs| ==> items[i] == json(xs[i])
  {
    seq(|xs|, i requires 0 <= i < |xs| => json(xs[i]))
  }

  function ManifestMembers(m: ArchiveManifest): seq<Member> {
    [Member(Lit("schema"), Str(m.schema)), Member(Lit("profileVersion"), Number(NatNumber(m.profileVersion))),
     Member(Lit("regulation"), Str(m.regulation)), Member(Lit("tenantId"), Str(m.tenantId)),
     Member(Lit("signatureCaseId"), Str(m.signatureCaseId)), Member(Lit("reference"), Str(m.reference)),
     Member(Lit("title"), Str(m.title)), Member(Lit("decisionMode"), Str(ModeName(m.decisionMode))),
     Member(Lit("createdAt"), Str(m.createdAt)), Member(Lit("closedAt"), Str(m.closedAt)),
     Member(Lit("entries"), Arr(Jsons(m.entries, ArchiveEntryJson))), Member(Lit("signatures"), Arr(Jsons(m.signatures, SignatureJson))),
     Member(Lit("identities"), Arr(Jsons(m.identities, IdentityJson))), Member(Lit("auditTrailSha256"), Str(m.auditTrailSha256))]
  }

  function ArchiveManifestJson(m: ArchiveManifest): Json {
    Obj(ManifestMembers(m))
  }

  lemma ManifestEncodable(m: ArchiveManifest)
    ensures Encodable(ArchiveManifestJson(m))
  {
    ListsEncodable(m);
  }

  lemma ListsEncodable(m: ArchiveManifest)
    ensures Encodable(Arr(Jsons(m.entries, ArchiveEntryJson)))
    ensures Encodable(Arr(Jsons(m.signatures, SignatureJson)))
    ensures Encodable(Arr(Jsons(m.identities, IdentityJson)))
  {
  }

  /** canonicalJson never throws on a manifest. */
  function ManifestText(m: ArchiveManifest): Text {
    ManifestEncodable(m);
    CanonicalJsonLaws.EncodedWellFormed(ArchiveManifestJson(m));
    Encode(ArchiveManifestJson(m)).value
  }

  function ManifestSha(p: Platform, m: ArchiveManifest): Text {
    p.sha256(p.encode(ManifestText(m)))
  }

  /* ---- Building ---- */

  datatype Package = Package(manifest: ArchiveManifest, files: seq<EvidenceFile>, manifestSha256: Text)

  predicate DistinctArchivePaths(entries: seq<ArchiveEntry>) {
    forall i, j :: 0 <= i < j < |entries| ==> entries[i].path != entries[j].path
  }

  function ArchiveManifestOf(p: Platform, c: Case, entries: seq<ArchiveEntry>): ArchiveManifest
    requires c.closedAt.Some? && c.auditTrailSha256.Some?
  {
    ArchiveManifest(Lit(PACKAGE_SCHEMA), 1, Lit(REGULATION), c.tenantId, c.signatureCaseId, c.reference, c.title, c.decisionMode,
                    c.createdAt, c.closedAt.value, entries, Sort(c.signatures, SignatureOrder(p)),
                    Sort(c.identities, IdentityOrder(p)), c.auditTrailSha256.value)
  }

  predicate AllPackagePaths(files: seq<EvidenceFile>) {
    forall f :: f in files ==> IsPackagePath(f.path)
  }

  predicate HasContent(entries: seq<ArchiveEntry>) {
    exists e :: e in entries && e.category == Content
  }

  /** The package, or the code of what buildArchivePackage throws. */
  function Built(p: Platform, c: Case, files: seq<EvidenceFile>): Result<Package> {
    match Refusal(c)
    case Some(code) => Err(code)
    case None =>
      if !AllPackagePaths(files) then Err(PATH_INVALID)
      else
        var entries := Sort(ArchiveEntries(p, files), EntryOrder(p));
        if !DistinctArchivePaths(entries) then Err(PATH_INVALID)
        else if !HasContent(entries) then Err(DOCUMENT_MISSING)
        else
          var manifest := ArchiveManifestOf(p, c, entries);
          Ok(Package(manifest, Sort(files, FileOrder(p)), ManifestSha(p, manifest)))
  }

  method BuildArchivePackage(p: Platform, c: Case, files: seq<EvidenceFile>) returns (r: Result<Package>)
    ensures r == Built(p, c, files)
  {
    hide Sort, DistinctArchivePaths, HasContent, ManifestSha, IsPackagePath;
    var refusal := AssertArchivable(c);
    if refusal.Some? {
      return Err(refusal.value);
    }
    var entries: seq<ArchiveEntry> := [];
    for n := 0 to |files|
      invariant entries == ArchiveEntries(p, files[..n])
      invariant forall k :: 0 <= k < n ==> IsPackagePath(files[k].path)
    {
      if !IsPackagePath(files[n].path) {
        return Err(PATH_INVALID);
      }
      assert files[..n + 1][..n] == files[..n];
      entries := entries + [ArchiveEntryOf(p, files[n])];
    }
    assert files[..|files|] == files;
    entries := Sort(entries, EntryOrder(p));
    if !DistinctArchivePaths(entries) {
      return Err(PATH_INVALID);
    }
    if !HasContent(entries) {
      return Err(DOCUMENT_MISSING);
    }
    var manifest := ArchiveManifestOf(p, c, entries);
    r := Ok(Package(manifest, Sort(files, FileOrder(p)), ManifestSha(p, manifest)));
  }

  /* ---- Verifying offline ---- */

  /** The manifest's entries as the comparison of files with entries reads them. */
  function ComparedEntries(entries: seq<ArchiveEntry>): (r: seq<ReadEntry>)
    ensures |r| == |entries|
    ensures forall i :: 0 <= i < |entries| ==> r[i] == ReadEntry(entries[i].path, Str(entries[i].sha256), entries[i].bytes)
  {
    seq(|entries|, i requires 0 <= i < |entries| => ReadEntry(entries[i].path, Str(entries[i].sha256), entries[i].bytes))
  }

  function ArchiveFailures(p: Platform, m: ArchiveManifest, files: seq<EvidenceFile>, expectedSha: Text): seq<Text> {
    if ManifestSha(p, m) != expectedSha then [Lit("Manifest hash does not match the delivered manifest hash")]
    else if m.schema != Lit(PACKAGE_SCHEMA) then [Lit("Unknown package schema ") + m.schema]
    else FileFailures(p, ComparedEntries(m.entries), ZipFiles(files))
  }

  method VerifyArchivePackage(p: Platform, m: ArchiveManifest, files: seq<EvidenceFile>, expectedSha: Text)
    returns (verified: bool, failures: seq<Text>)
    ensures failures == ArchiveFailures(p, m, files, expectedSha) && verified == (failures == [])
  {
    hide ManifestSha, FileFailures;
    if ManifestSha(p, m) != expectedSha {
      return false, [Lit("Manifest hash does not match the delivered manifest hash")];
    }
    if m.schema != Lit(PACKAGE_SCHEMA) {
      return false, [Lit("Unknown package schema ") + m.schema];
    }
    failures := VerifyEvidenceFiles(p, ComparedEntries(m.entries), ZipFiles(files));
    verified := failures == [];
  }
}
