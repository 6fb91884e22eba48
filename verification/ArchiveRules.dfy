/** The rules of the preservation export, one by one: what it refuses, which paths it takes, what it writes and reports. */
module ArchiveRules {
  import opened Results
  import opened Text
  import opened Ordering
  import opened Platform
  import opened JsonNumber
  import opened CanonicalJson
  import opened Evidence
  import opened EvidenceVerifier
  import opened Archive
  import ArchiveLaws

  /* ---- Refusals ---- */

  predicate IsAbsent(t: Option<Text>) {
    t == None || t == Some([])
  }

  /** assertArchivable throws the first of these errors that applies. */
  lemma FirstRefusal(c: Case)
    ensures Refusal(c) ==
              if c.closedAt.None? then Some("ARCHIVE_CASE_NOT_CLOSED")
              else if |c.documents| == 0 then Some("ARCHIVE_DOCUMENT_MISSING")
              else if exists d :: d in c.documents && d.verifiedProfile.None? then Some("ARCHIVE_PROFILE_NOT_VERIFIED")
              else if c.decisionMode == ElectronicSignature && |c.signatures| == 0 then Some("ARCHIVE_SIGNATURE_EVIDENCE_MISSING")
              else if c.decisionMode == ElectronicSignature
                      && exists s :: s in c.signatures && (IsAbsent(s.artifactSha256) || IsAbsent(s.reportSha256)) then
                Some("ARCHIVE_SIGNATURE_EVIDENCE_MISSING")
              else if exists s :: s in c.signatures && forall i :: i in c.identities ==> i.signerId != s.signerId then
                Some("ARCHIVE_IDENTITY_EVIDENCE_MISSING")
              else if c.auditTrailSha256.None? then Some("ARCHIVE_AUDIT_TRAIL_MISSING")
              else None
  {
    forall s | s in c.signatures ensures HasEvidence(s) <==> !IsAbsent(s.artifactSha256) && !IsAbsent(s.reportSha256) {
    }
    forall s | s in c.signatures ensures !IsIdentified(c, s) <==> forall i :: i in c.identities ==> i.signerId != s.signerId {
    }
  }

  /* ---- Paths ---- */

  predicate IsLetterOrDigit(u: Unit) {
    0x30 <= u <= 0x39 || 0x41 <= u <= 0x5a || 0x61 <= u <= 0x7a
  }

  /** A letter or digit and up to 120 letters, digits, dots, underscores and hyphens, without two dots in a row. */
  predicate IsFileName(t: Text) {
    && 1 <= |t| <= 121 && IsLetterOrDigit(t[0])
    && (forall i :: 0 <= i < |t| ==> IsLetterOrDigit(t[i]) || t[i] in {0x2e, 0x5f, 0x2d})
    && forall i :: 0 <= i < |t| - 1 ==> !(t[i] == 0x2e && t[i + 1] == 0x2e)
  }

  /** A path is a file name in one of three folders. */
  lemma PathRule(t: Text)
    ensures IsPackagePath(t) <==>
              exists name :: IsFileName(name) && (t == Lit("content/") + name || t == Lit("metadata/") + name || t == Lit("evidence/") + name)
  {
    FolderRule(t, "content/");
    FolderRule(t, "metadata/");
    FolderRule(t, "evidence/");
  }

  /** Folder names as the source spells them hold no dots. */
  predicate IsFolder(folder: string) {
    folder == "content/" || folder == "metadata/" || folder == "evidence/"
  }

  lemma FolderRule(t: Text, folder: string)
    requires IsFolder(folder)
    ensures IsInFolder(t, folder) && !HasDots(t) <==> exists name :: IsFileName(name) && t == Lit(folder) + name
  {
    hide IsName, IsFileName, HasDots, Lit;
    if IsInFolder(t, folder) {
      var name := t[|folder|..];
      assert t == Lit(folder) + name;
      NameRule(folder, name);
    }
    if name :| IsFileName(name) && t == Lit(folder) + name {
      assert t[..|folder|] == Lit(folder) && t[|folder|..] == name;
      NameRule(folder, name);
    }
  }

  lemma NameRule(folder: string, name: Text)
    requires IsFolder(folder)
    ensures IsName(name) && !HasDots(Lit(folder) + name) <==> IsFileName(name)
  {
    hide Lit, IsAlphanumeric, IsLetterOrDigit;
    NoDotInFolder(folder);
    forall u ensures IsAlphanumeric(u) <==> IsLetterOrDigit(u) {
      SameLetters(u);
    }
    DotsBehind(Lit(folder), name);
  }

  lemma SameLetters(u: Unit)
    ensures IsAlphanumeric(u) <==> IsLetterOrDigit(u)
  {
  }

  lemma NoDotInFolder(folder: string)
    requires IsFolder(folder)
    ensures forall i :: 0 <= i < |Lit(folder)| ==> Lit(folder)[i] != 0x2e
  {
  }

  lemma DotsBehind(a: Text, b: Text)
    requires forall i :: 0 <= i < |a| ==> a[i] != 0x2e
    ensures HasDots(a + b) <==> exists i :: 0 <= i < |b| - 1 && b[i] == 0x2e && b[i + 1] == 0x2e
  {
    var t := a + b;
    if i :| 0 <= i < |b| - 1 && b[i] == 0x2e && b[i + 1] == 0x2e {
      assert t[|a| + i] == 0x2e && t[|a| + i + 1] == 0x2e;
    }
    if HasDots(t) {
      var i :| 0 <= i < |t| - 1 && t[i] == '.' as int && t[i + 1] == '.' as int;
      assert i >= |a|;
      assert b[i - |a|] == 0x2e && b[i - |a| + 1] == 0x2e;
    }
  }

  /* ---- The package ---- */

  function CategoryNamed(path: Text): Text {
    if |path| >= 8 && path[..8] == Lit("content/") then Lit("content")
    else if |path| >= 9 && path[..9] == Lit("metadata/") then Lit("metadata")
    else Lit("evidence")
  }

  /** buildArchivePackage throws the first of these errors that applies. */
  lemma FirstError(p: Platform, c: Case, files: seq<EvidenceFile>)
    ensures var r := Built(p, c, files);
            if Refusal(c).Some? then r == Err(Refusal(c).value)
            else if exists f :: f in files && !IsPackagePath(f.path) then r == Err("ARCHIVE_PATH_INVALID")
            else if exists i, j :: 0 <= i < j < |files| && files[i].path == files[j].path then r == Err("ARCHIVE_PATH_INVALID")
            else if forall f :: f in files ==> CategoryNamed(f.path) != Lit("content") then r == Err("ARCHIVE_DOCUMENT_MISSING")
            else r.Ok?
  {
    hide IsPackagePath, Sort, ManifestSha, Refusal, CategoryOf, CategoryNamed;
    var entries := ArchiveEntries(p, files);
    var sorted := Sort(entries, EntryOrder(p));
    SortPermutes(entries, EntryOrder(p));
    SortMembers(entries, EntryOrder(p));
    if DistinctArchivePaths(entries) {
      DistinctPermutes(entries, sorted, (e: ArchiveEntry) => e.path);
    }
    if DistinctArchivePaths(sorted) {
      DistinctPermutes(sorted, entries, (e: ArchiveEntry) => e.path);
    }
    ContentIs(p, files, sorted);
  }

  lemma ContentIs(p: Platform, files: seq<EvidenceFile>, sorted: seq<ArchiveEntry>)
    requires forall e :: e in sorted <==> e in ArchiveEntries(p, files)
    ensures HasContent(sorted) <==> exists f :: f in files && CategoryNamed(f.path) == Lit("content")
  {
    hide CategoryOf, CategoryNamed;
    forall f | f in files ensures CategoryOf(f.path) == Content <==> CategoryNamed(f.path) == Lit("content") {
      CategoryIs(f.path);
    }
    if f :| f in files && CategoryNamed(f.path) == Lit("content") {
      var i :| 0 <= i < |files| && files[i] == f;
      assert ArchiveEntries(p, files)[i] in sorted;
    }
    if HasContent(sorted) {
      var e :| e in sorted && e.category == Content;
      var i :| 0 <= i < |files| && ArchiveEntries(p, files)[i] == e;
      assert files[i] in files;
    }
  }

  lemma CategoryIs(path: Text)
    ensures CategoryName(CategoryOf(path)) == CategoryNamed(path)
    ensures CategoryOf(path) == Content <==> CategoryNamed(path) == Lit("content")
  {
    assert Lit("content") != Lit("metadata");
  }

  /** The manifest of a built package: the case's data, each file once in path order, evidence in order of signers. */
  lemma BuiltContents(p: Platform, c: Case, files: seq<EvidenceFile>)
    requires p.Lawful() && Built(p, c, files).Ok?
    ensures var pkg := Built(p, c, files).value;
            var m := pkg.manifest;
            && m.schema == Lit("kommunsign.fgs-package.v1") && m.profileVersion == 1 && m.regulation == Lit("RA-FS 2009:2")
            && m.tenantId == c.tenantId && m.signatureCaseId == c.signatureCaseId && m.reference == c.reference && m.title == c.title
            && m.decisionMode == c.decisionMode && m.createdAt == c.createdAt
            && c.closedAt == Some(m.closedAt) && c.auditTrailSha256 == Some(m.auditTrailSha256)
            && multiset(m.signatures) == multiset(c.signatures) && multiset(m.identities) == multiset(c.identities)
            && multiset(pkg.files) == multiset(files) && |m.entries| == |files|
            && (forall i, j :: 0 <= i < j < |m.signatures| ==> p.pathAtMost(m.signatures[i].signerId, m.signatures[j].signerId))
            && (forall i, j :: 0 <= i < j < |m.identities| ==> p.pathAtMost(m.identities[i].signerId, m.identities[j].signerId))
            && (forall i, j :: 0 <= i < j < |pkg.files| ==> p.pathAtMost(pkg.files[i].path, pkg.files[j].path))
            && (forall i, j :: 0 <= i < j < |m.entries| ==> p.pathAtMost(m.entries[i].path, m.entries[j].path))
            && (forall e :: e in m.entries <==> exists f :: f in files && IsEntryOf(p, e, f))
  {
    hide Sort, Platform.Lawful, Built, IsEntryOf, IsSorted;
    BuiltIs(p, c, files);
    var pkg := Built(p, c, files).value;
    Collates(p);
    ArchiveLaws.OrdersCompare(p);
    SortSorts(c.signatures, SignatureOrder(p));
    SortSorts(c.identities, IdentityOrder(p));
    SortSorts(files, FileOrder(p));
    SortSorts(ArchiveEntries(p, files), EntryOrder(p));
    SortedBy(p, pkg.manifest.signatures, pkg.manifest.identities, pkg.files, pkg.manifest.entries);
    EntriesBuilt(p, files);
    SortPermutes(c.signatures, SignatureOrder(p));
    SortPermutes(c.identities, IdentityOrder(p));
    SortPermutes(files, FileOrder(p));
  }

  lemma BuiltIs(p: Platform, c: Case, files: seq<EvidenceFile>)
    requires Built(p, c, files).Ok?
    ensures var pkg := Built(p, c, files).value;
            var m := pkg.manifest;
            && m.schema == Lit("kommunsign.fgs-package.v1") && m.profileVersion == 1 && m.regulation == Lit("RA-FS 2009:2")
            && m.tenantId == c.tenantId && m.signatureCaseId == c.signatureCaseId && m.reference == c.reference && m.title == c.title
            && m.decisionMode == c.decisionMode && m.createdAt == c.createdAt
            && c.closedAt == Some(m.closedAt) && c.auditTrailSha256 == Some(m.auditTrailSha256)
            && m.signatures == Sort(c.signatures, SignatureOrder(p)) && m.identities == Sort(c.identities, IdentityOrder(p))
            && m.entries == Sort(ArchiveEntries(p, files), EntryOrder(p)) && pkg.files == Sort(files, FileOrder(p))
  {
    hide Sort, ManifestSha, IsPackagePath, HasContent, Lit, ArchiveEntries;
    RefusalNeeds(c);
  }

  lemma RefusalNeeds(c: Case)
    ensures Refusal(c).None? ==> c.closedAt.Some? && c.auditTrailSha256.Some?
  {
  }

  /** What an entry says of its file. */
  predicate IsEntryOf(p: Platform, e: ArchiveEntry, f: EvidenceFile) {
    && e.path == f.path && e.sha256 == p.sha256(f.bytes) && e.bytes == |f.bytes| && e.mediaType == f.mediaType
    && CategoryName(e.category) == CategoryNamed(f.path)
  }

  lemma SortedBy(p: Platform, signatures: seq<Signature>, identities: seq<Identity>, files: seq<EvidenceFile>, entries: seq<ArchiveEntry>)
    requires p.Lawful()
    requires IsSorted(signatures, SignatureOrder(p)) && IsSorted(identities, IdentityOrder(p))
    requires IsSorted(files, FileOrder(p)) && IsSorted(entries, EntryOrder(p))
    ensures forall i, j :: 0 <= i < j < |signatures| ==> p.pathAtMost(signatures[i].signerId, signatures[j].signerId)
    ensures forall i, j :: 0 <= i < j < |identities| ==> p.pathAtMost(identities[i].signerId, identities[j].signerId)
    ensures forall i, j :: 0 <= i < j < |files| ==> p.pathAtMost(files[i].path, files[j].path)
    ensures forall i, j :: 0 <= i < j < |entries| ==> p.pathAtMost(entries[i].path, entries[j].path)
  {
    forall i, j | 0 <= i < j < |signatures| ensures p.pathAtMost(signatures[i].signerId, signatures[j].signerId) {
      assert SignatureOrder(p)(signatures[i], signatures[j]);
    }
    forall i, j | 0 <= i < j < |identities| ensures p.pathAtMost(identities[i].signerId, identities[j].signerId) {
      assert IdentityOrder(p)(identities[i], identities[j]);
    }
    forall i, j | 0 <= i < j < |files| ensures p.pathAtMost(files[i].path, files[j].path) {
      assert FileOrder(p)(files[i], files[j]);
    }
    forall i, j | 0 <= i < j < |entries| ensures p.pathAtMost(entries[i].path, entries[j].path) {
      assert EntryOrder(p)(entries[i], entries[j]);
    }
  }

  lemma Collates(p: Platform)
    requires p.Lawful()
    ensures Comparator(p.pathAtMost)
  {
  }

  lemma EntriesBuilt(p: Platform, files: seq<EvidenceFile>)
    ensures forall e :: e in Sort(ArchiveEntries(p, files), EntryOrder(p)) <==> exists f :: f in files && IsEntryOf(p, e, f)
  {
    hide Sort, CategoryOf, CategoryName, CategoryNamed;
    var entries := ArchiveEntries(p, files);
    SortMembers(entries, EntryOrder(p));
    forall e ensures e in entries <==> exists f :: f in files && IsEntryOf(p, e, f) {
      if e in entries {
        var i :| 0 <= i < |entries| && entries[i] == e;
        CategoryIs(files[i].path);
        assert files[i] in files;
      }
      if f :| f in files && IsEntryOf(p, e, f) {
        var i :| 0 <= i < |files| && files[i] == f;
        CategoryIs(f.path);
        SameCategory(e.category, CategoryOf(f.path));
        assert entries[i] == e;
      }
    }
  }

  lemma SameCategory(a: Category, b: Category)
    requires CategoryName(a) == CategoryName(b)
    ensures a == b
  {
    assert Lit("content")[0] == 0x63 && Lit("metadata")[0] == 0x6d && Lit("evidence")[0] == 0x65;
  }

  /* ---- The manifest's JSON ---- */

  function OptionalText(t: Option<Text>): Json {
    match t
    case None => Null
    case Some(text) => Str(text)
  }

  /** What the manifest's JSON is made of. */
  lemma ManifestJsonIs(m: ArchiveManifest)
    ensures ArchiveManifestJson(m) == Obj([
              Member(Lit("schema"), Str(m.schema)), Member(Lit("profileVersion"), Number(NatNumber(m.profileVersion))),
              Member(Lit("regulation"), Str(m.regulation)), Member(Lit("tenantId"), Str(m.tenantId)),
              Member(Lit("signatureCaseId"), Str(m.signatureCaseId)), Member(Lit("reference"), Str(m.reference)),
              Member(Lit("title"), Str(m.title)),
              Member(Lit("decisionMode"), Str(if m.decisionMode == DigitalApproval then Lit("DIGITAL_APPROVAL") else Lit("ELECTRONIC_SIGNATURE"))),
              Member(Lit("createdAt"), Str(m.createdAt)), Member(Lit("closedAt"), Str(m.closedAt)),
              Member(Lit("entries"), Arr(seq(|m.entries|, i requires 0 <= i < |m.entries| => ArchiveEntryJson(m.entries[i])))),
              Member(Lit("signatures"), Arr(seq(|m.signatures|, i requires 0 <= i < |m.signatures| => SignatureJson(m.signatures[i])))),
              Member(Lit("identities"), Arr(seq(|m.identities|, i requires 0 <= i < |m.identities| => IdentityJson(m.identities[i])))),
              Member(Lit("auditTrailSha256"), Str(m.auditTrailSha256))])
  {
    hide Lit, NatNumber, ArchiveEntryJson, SignatureJson, IdentityJson;
    assert Jsons(m.entries, ArchiveEntryJson) == seq(|m.entries|, i requires 0 <= i < |m.entries| => ArchiveEntryJson(m.entries[i]));
    assert Jsons(m.signatures, SignatureJson) == seq(|m.signatures|, i requires 0 <= i < |m.signatures| => SignatureJson(m.signatures[i]));
    assert Jsons(m.identities, IdentityJson) == seq(|m.identities|, i requires 0 <= i < |m.identities| => IdentityJson(m.identities[i]));
  }

  lemma PartJsonIs(e: ArchiveEntry, s: Signature, i: Identity)
    ensures ArchiveEntryJson(e) == Obj([Member(Lit("path"), Str(e.path)), Member(Lit("sha256"), Str(e.sha256)), Member(Lit("bytes"), Number(NatNumber(e.bytes))),
              Member(Lit("mediaType"), Str(e.mediaType)),
              Member(Lit("category"), Str(if e.category == Content then Lit("content") else if e.category == Metadata then Lit("metadata") else Lit("evidence")))])
    ensures SignatureJson(s) == Obj([Member(Lit("signerId"), Str(s.signerId)), Member(Lit("signedAt"), Str(s.signedAt)),
              Member(Lit("padesLevel"), OptionalText(s.padesLevel)), Member(Lit("signatureArtifactSha256"), OptionalText(s.artifactSha256)),
              Member(Lit("validationReportSha256"), OptionalText(s.reportSha256)), Member(Lit("timestampTokenSha256"), OptionalText(s.timestampSha256))])
    ensures IdentityJson(i) == Obj([Member(Lit("signerId"), Str(i.signerId)), Member(Lit("provider"), Str(i.provider)),
              Member(Lit("assuranceLevel"), Str(i.assuranceLevel)), Member(Lit("maskedIdentifier"), Str(i.maskedIdentifier)),
              Member(Lit("verifiedAt"), Str(i.verifiedAt)), Member(Lit("evidenceSha256"), Str(i.evidenceSha256))])
  {
    hide Lit, NatNumber;
  }

  /** The delivered hash is of the manifest's canonical JSON in UTF-8. */
  lemma BuiltHash(p: Platform, c: Case, files: seq<EvidenceFile>)
    requires Built(p, c, files).Ok?
    ensures var pkg := Built(p, c, files).value;
            var text := Encode(ArchiveManifestJson(pkg.manifest));
            text.Ok? && pkg.manifestSha256 == p.sha256(p.encode(text.value))
  {
    hide Encode, ArchiveManifestJson, Sort, IsPackagePath, Refusal;
    ManifestEncodable(Built(p, c, files).value.manifest);
    EncodePrintsCanon(ArchiveManifestJson(Built(p, c, files).value.manifest));
  }

  /* ---- Verification ---- */

  /** The report of verifyArchivePackage. */
  lemma ReportIs(p: Platform, m: ArchiveManifest, files: seq<EvidenceFile>, expectedSha: Text)
    ensures Encode(ArchiveManifestJson(m)).Ok?
    ensures var r := ArchiveFailures(p, m, files, expectedSha);
            if p.sha256(p.encode(Encode(ArchiveManifestJson(m)).value)) != expectedSha then
              r == [Lit("Manifest hash does not match the delivered manifest hash")]
            else if m.schema != Lit("kommunsign.fgs-package.v1") then r == [Lit("Unknown package schema ") + m.schema]
            else r == FileFailures(p, ComparedEntries(m.entries), ZipFiles(files))
  {
    hide Encode, ArchiveManifestJson, FileFailures, Lit;
    ManifestEncodable(m);
    EncodePrintsCanon(ArchiveManifestJson(m));
  }
}
