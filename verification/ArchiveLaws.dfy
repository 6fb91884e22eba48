/** What the preservation export promises: determinism, self-consistency, and that nothing else verifies. */
module ArchiveLaws {
  import opened Results
  import opened Bytes
  import opened Text
  import opened Ordering
  import opened Platform
  import opened JsonNumber
  import opened CanonicalJson
  import opened Evidence
  import opened EvidenceVerifier
  import opened Archive
  import CanonicalJsonLaws
  import EvidenceMeaning
  import EvidenceRoundTrip
  import JsonParser
  import Zip

  /* ---- When the comparison finds nothing ---- */

  /** The file that the verifier's map holds for a path: the last one. */
  function Held(files: seq<EvidenceFile>, path: Text): (r: Option<EvidenceFile>)
    ensures r.Some? ==> r.value in files && r.value.path == path
    ensures r.None? ==> forall f :: f in files ==> f.path != path
  {
    if files == [] then None
    else if files[|files| - 1].path == path then Some(files[|files| - 1])
    else Held(files[..|files| - 1], path)
  }

  predicate Describes(p: Platform, e: ArchiveEntry, f: EvidenceFile) {
    e.path == f.path && e.bytes == |f.bytes| && e.sha256 == p.sha256(f.bytes)
  }

  /** Every entry describes the file held for its path, and every file's path has an entry. */
  ghost predicate Corresponds(p: Platform, entries: seq<ArchiveEntry>, files: seq<EvidenceFile>) {
    && (forall e :: e in entries ==> Held(files, e.path).Some? && Describes(p, e, Held(files, e.path).value))
    && (forall f :: f in files ==> exists e :: e in entries && e.path == f.path)
  }

  lemma {:induction false} FindIsHeld(files: seq<EvidenceFile>, path: Text)
    ensures FindFile(ZipFiles(files), path) == match Held(files, path)
              case None => None
              case Some(f) => Some(Zip.File(f.path, f.bytes))
  {
    if files != [] {
      var front := files[..|files| - 1];
      assert ZipFiles(files)[..|files| - 1] == ZipFiles(front);
      FindIsHeld(front, path);
    }
  }

  lemma EntryAgrees(p: Platform, e: ArchiveEntry, files: seq<EvidenceFile>)
    ensures EntryFailures(p, ReadEntry(e.path, Str(e.sha256), e.bytes), ZipFiles(files)) == []
       <==> Held(files, e.path).Some? && Describes(p, e, Held(files, e.path).value)
  {
    hide Held, FindFile;
    FindIsHeld(files, e.path);
  }

  lemma {:induction false} EntriesAgree(p: Platform, entries: seq<ArchiveEntry>, files: seq<EvidenceFile>)
    ensures EntriesFailures(p, ComparedEntries(entries), ZipFiles(files)) == []
       <==> forall e :: e in entries ==> Held(files, e.path).Some? && Describes(p, e, Held(files, e.path).value)
  {
    hide Held, Describes, EntryFailures, ZipFiles;
    if entries != [] {
      var front, last := entries[..|entries| - 1], entries[|entries| - 1];
      assert ComparedEntries(entries)[..|entries| - 1] == ComparedEntries(front);
      EntriesAgree(p, front, files);
      EntryAgrees(p, last, files);
      assert entries == front + [last];
    }
  }

  lemma ListedIs(entries: seq<ArchiveEntry>, path: Text)
    ensures Listed(ComparedEntries(entries), path) <==> exists e :: e in entries && e.path == path
  {
    var read := ComparedEntries(entries);
    if e :| e in entries && e.path == path {
      var i :| 0 <= i < |entries| && entries[i] == e;
      assert read[i] in read;
    }
    if e :| e in read && e.path == path {
      var i :| 0 <= i < |read| && read[i] == e;
      assert entries[i] in entries;
    }
  }

  lemma PathsListed(entries: seq<ArchiveEntry>, files: seq<EvidenceFile>)
    ensures Unlisted(ComparedEntries(entries), Paths(ZipFiles(files)), Lit("Unexpected file: ")) == []
       <==> forall f :: f in files ==> exists e :: e in entries && e.path == f.path
  {
    hide Listed, Unlisted, ComparedEntries;
    var read, zipped := ComparedEntries(entries), ZipFiles(files);
    EvidenceMeaning.NoneUnlisted(read, Paths(zipped), Lit("Unexpected file: "));
    EvidenceMeaning.PathsListed(read, zipped);
    forall f | f in files ensures Listed(read, f.path) <==> exists e :: e in entries && e.path == f.path {
      ListedIs(entries, f.path);
    }
    SamePaths(files);
  }

  lemma SamePaths(files: seq<EvidenceFile>)
    ensures forall z :: z in ZipFiles(files) ==> exists f :: f in files && f.path == z.path
    ensures forall f :: f in files ==> exists z :: z in ZipFiles(files) && z.path == f.path
  {
    forall z | z in ZipFiles(files) ensures exists f :: f in files && f.path == z.path {
      var i :| 0 <= i < |files| && ZipFiles(files)[i] == z;
      assert files[i] in files;
    }
    forall f | f in files ensures exists z :: z in ZipFiles(files) && z.path == f.path {
      var i :| 0 <= i < |files| && files[i] == f;
      assert ZipFiles(files)[i] in ZipFiles(files);
    }
  }

  /** What verification means, without its lists of messages. */
  lemma VerifiedIs(p: Platform, m: ArchiveManifest, files: seq<EvidenceFile>, expectedSha: Text)
    ensures ArchiveFailures(p, m, files, expectedSha) == []
       <==> ManifestSha(p, m) == expectedSha && m.schema == Lit(PACKAGE_SCHEMA) && Corresponds(p, m.entries, files)
  {
    hide ManifestSha, EntriesFailures, Unlisted, Held, Describes, ComparedEntries, ZipFiles;
    EntriesAgree(p, m.entries, files);
    PathsListed(m.entries, files);
  }

  /* ---- Every built package verifies ---- */

  ghost predicate DistinctFilePaths(files: seq<EvidenceFile>) {
    forall i, j :: 0 <= i < j < |files| ==> files[i].path != files[j].path
  }

  lemma {:induction false} HeldIsFile(files: seq<EvidenceFile>, f: EvidenceFile)
    requires DistinctFilePaths(files) && f in files
    ensures Held(files, f.path) == Some(f)
  {
    var front, last := files[..|files| - 1], files[|files| - 1];
    assert files == front + [last];
    if f != last {
      HeldIsFile(front, f);
    }
  }

  lemma EntriesOfFiles(p: Platform, files: seq<EvidenceFile>)
    ensures forall e :: e in ArchiveEntries(p, files) <==> exists f :: f in files && e == ArchiveEntryOf(p, f)
  {
    hide ArchiveEntryOf;
    forall f | f in files ensures ArchiveEntryOf(p, f) in ArchiveEntries(p, files) {
      var i :| 0 <= i < |files| && files[i] == f;
      assert ArchiveEntries(p, files)[i] in ArchiveEntries(p, files);
    }
  }

  /** Sorted entries have distinct paths exactly when the files do. */
  lemma DistinctEntries(p: Platform, files: seq<EvidenceFile>)
    ensures DistinctArchivePaths(Sort(ArchiveEntries(p, files), EntryOrder(p))) <==> DistinctFilePaths(files)
  {
    hide Sort;
    var entries := ArchiveEntries(p, files);
    var sorted := Sort(entries, EntryOrder(p));
    SortPermutes(entries, EntryOrder(p));
    if DistinctArchivePaths(sorted) {
      DistinctPermutes(sorted, entries, (e: ArchiveEntry) => e.path);
      assert forall i :: 0 <= i < |files| ==> entries[i].path == files[i].path;
    }
    if DistinctFilePaths(files) {
      DistinctPermutes(entries, sorted, (e: ArchiveEntry) => e.path);
    }
  }

  lemma SortedFiles(p: Platform, files: seq<EvidenceFile>)
    ensures forall f :: f in Sort(files, FileOrder(p)) <==> f in files
    ensures DistinctFilePaths(files) ==> DistinctFilePaths(Sort(files, FileOrder(p)))
  {
    hide Sort;
    SortPermutes(files, FileOrder(p));
    SortMembers(files, FileOrder(p));
    if DistinctFilePaths(files) {
      DistinctPermutes(files, Sort(files, FileOrder(p)), (f: EvidenceFile) => f.path);
    }
  }

  /** The entries of a built manifest are those of the package's own files. */
  lemma BuiltParts(p: Platform, c: Case, files: seq<EvidenceFile>)
    requires Built(p, c, files).Ok?
    ensures var pkg := Built(p, c, files).value;
      && DistinctFilePaths(pkg.files) && (forall f :: f in pkg.files <==> f in files)
      && (forall e :: e in pkg.manifest.entries <==> exists f :: f in pkg.files && e == ArchiveEntryOf(p, f))
      && pkg.manifest.schema == Lit(PACKAGE_SCHEMA) && pkg.manifestSha256 == ManifestSha(p, pkg.manifest)
  {
    hide Sort, ManifestSha, ArchiveEntryOf, AllPackagePaths, HasContent, Refusal, DistinctArchivePaths, DistinctFilePaths;
    DistinctEntries(p, files);
    SortedFiles(p, files);
    EntriesOfFiles(p, files);
    SortMembers(ArchiveEntries(p, files), EntryOrder(p));
  }

  /** verifyArchivePackage accepts every result of buildArchivePackage. */
  lemma BuiltVerifies(p: Platform, c: Case, files: seq<EvidenceFile>)
    requires Built(p, c, files).Ok?
    ensures var pkg := Built(p, c, files).value; ArchiveFailures(p, pkg.manifest, pkg.files, pkg.manifestSha256) == []
  {
    hide Built, ManifestSha, ArchiveFailures, DistinctFilePaths, Held;
    var pkg := Built(p, c, files).value;
    BuiltParts(p, c, files);
    forall e | e in pkg.manifest.entries ensures Held(pkg.files, e.path).Some? && Describes(p, e, Held(pkg.files, e.path).value) {
      var f :| f in pkg.files && e == ArchiveEntryOf(p, f);
      HeldIsFile(pkg.files, f);
    }
    forall f | f in pkg.files ensures exists e :: e in pkg.manifest.entries && e.path == f.path {
      assert ArchiveEntryOf(p, f) in pkg.manifest.entries;
    }
    VerifiedIs(p, pkg.manifest, pkg.files, pkg.manifestSha256);
  }

  /* ---- Identities without a signature ---- */

  predicate HasSignature(c: Case, i: Identity) {
    exists s :: s in c.signatures && s.signerId == i.signerId
  }

  /** What the source's comment asks for: every signature has an identity, and every identity a signature. */
  predicate IsTraceable(c: Case) {
    (forall s :: s in c.signatures ==> IsIdentified(c, s)) && forall i :: i in c.identities ==> HasSignature(c, i)
  }

  function WithIdentity(c: Case, i: Identity, k: nat): Case
    requires k <= |c.identities|
  {
    c.(identities := c.identities[..k] + [i] + c.identities[k..])
  }

  lemma IdentifiedWith(c: Case, i: Identity, k: nat, s: Signature)
    requires k <= |c.identities|
    ensures IsIdentified(WithIdentity(c, i, k), s) <==> IsIdentified(c, s) || s.signerId == i.signerId
  {
    var d := WithIdentity(c, i, k);
    assert c.identities == c.identities[..k] + c.identities[k..];
    assert i in d.identities;
    assert forall j :: j in d.identities <==> j in c.identities || j == i;
  }

  /** A further identity can only end the search for a missing one: no case becomes less archivable by it. */
  lemma IdentityAdded(c: Case, i: Identity, k: nat)
    requires k <= |c.identities|
    ensures Refusal(WithIdentity(c, i, k)) ==
              if Refusal(c) == Some(IDENTITY_MISSING)
                 && forall s :: s in c.signatures ==> IsIdentified(c, s) || s.signerId == i.signerId
              then if c.auditTrailSha256.None? then Some(AUDIT_MISSING) else None
              else Refusal(c)
  {
    hide IsIdentified, HasEvidence;
    forall s | s in c.signatures
      ensures IsIdentified(WithIdentity(c, i, k), s) <==> IsIdentified(c, s) || s.signerId == i.signerId
    {
      IdentifiedWith(c, i, k, s);
    }
  }

  /** An archivable case is traceable exactly when no identity lacks a signature, and nothing checks that. */
  lemma StrayIdentityArchived(p: Platform, c: Case, files: seq<EvidenceFile>, i: Identity, k: nat)
    requires Built(p, c, files).Ok? && k <= |c.identities|
    ensures IsTraceable(c) <==> forall j :: j in c.identities ==> HasSignature(c, j)
    ensures var r := Built(p, WithIdentity(c, i, k), files);
            && r.Ok? && i in r.value.manifest.identities
            && ArchiveFailures(p, r.value.manifest, r.value.files, r.value.manifestSha256) == []
    ensures !HasSignature(c, i) ==> !IsTraceable(WithIdentity(c, i, k))
  {
    hide IsIdentified, HasEvidence, ArchiveFailures, Sort, ManifestSha, DistinctArchivePaths, HasContent, AllPackagePaths;
    var d := WithIdentity(c, i, k);
    IdentityAdded(c, i, k);
    assert i in d.identities;
    SortMembers(d.identities, IdentityOrder(p));
    BuiltVerifies(p, d, files);
  }

  /* ---- The order of files, signatures and identities ---- */

  lemma OrdersCompare(p: Platform)
    requires Comparator(p.pathAtMost)
    ensures Comparator(EntryOrder(p)) && Comparator(FileOrder(p)) && Comparator(SignatureOrder(p)) && Comparator(IdentityOrder(p))
  {
    CompareBy(p, (e: ArchiveEntry) => e.path, EntryOrder(p));
    CompareBy(p, (f: EvidenceFile) => f.path, FileOrder(p));
    CompareBy(p, (s: Signature) => s.signerId, SignatureOrder(p));
    CompareBy(p, (i: Identity) => i.signerId, IdentityOrder(p));
  }

  lemma CompareBy<T(!new)>(p: Platform, key: T -> Text, order: (T, T) -> bool)
    requires Comparator(p.pathAtMost)
    requires forall a, b :: order(a, b) <==> p.pathAtMost(key(a), key(b))
    ensures Comparator(order)
  {
    forall a: T, b: T, c: T | order(a, b) && order(b, c) ensures order(a, c) {
      assert p.pathAtMost(key(a), key(b)) && p.pathAtMost(key(b), key(c));
    }
    forall a: T, b: T ensures order(a, b) || order(b, a) {
      assert p.pathAtMost(key(a), key(b)) || p.pathAtMost(key(b), key(a));
    }
  }

  /** Two lists of the same files. */
  lemma SameEntries(p: Platform, xs: seq<EvidenceFile>, ys: seq<EvidenceFile>)
    requires multiset(xs) == multiset(ys)
    ensures multiset(ArchiveEntries(p, xs)) == multiset(ArchiveEntries(p, ys))
  {
    hide ArchiveEntryOf;
    MapPermutes(xs, ys, f => ArchiveEntryOf(p, f));
    assert ArchiveEntries(p, xs) == Mapped(xs, f => ArchiveEntryOf(p, f));
    assert ArchiveEntries(p, ys) == Mapped(ys, f => ArchiveEntryOf(p, f));
  }

  function Mapped<A, B>(xs: seq<A>, g: A -> B): (r: seq<B>)
    ensures |r| == |xs| && forall i :: 0 <= i < |xs| ==> r[i] == g(xs[i])
  {
    seq(|xs|, i requires 0 <= i < |xs| => g(xs[i]))
  }

  lemma MapRemoves<A, B>(ys: seq<A>, k: nat, g: A -> B)
    requires k < |ys|
    ensures multiset(Mapped(ys, g)) == multiset(Mapped(ys[..k] + ys[k + 1..], g)) + multiset{g(ys[k])}
  {
    assert Mapped(ys, g) == Mapped(ys[..k], g) + [g(ys[k])] + Mapped(ys[k + 1..], g);
    assert Mapped(ys[..k] + ys[k + 1..], g) == Mapped(ys[..k], g) + Mapped(ys[k + 1..], g);
  }

  lemma MapTail<A, B>(xs: seq<A>, g: A -> B)
    requires xs != []
    ensures multiset(Mapped(xs, g)) == multiset(Mapped(xs[1..], g)) + multiset{g(xs[0])}
  {
    assert Mapped(xs, g) == [g(xs[0])] + Mapped(xs[1..], g);
  }

  lemma {:induction false} MapPermutes<A, B>(xs: seq<A>, ys: seq<A>, g: A -> B)
    requires multiset(xs) == multiset(ys)
    ensures multiset(Mapped(xs, g)) == multiset(Mapped(ys, g))
    decreases |xs|
  {
    hide Mapped;
    SameMembers(xs, ys);
    if xs == [] {
      assert Mapped(xs, g) == [] == Mapped(ys, g);
    } else {
      assert xs[0] in ys;
      var k :| 0 <= k < |ys| && ys[k] == xs[0];
      RemoveOne(xs, ys, k);
      MapPermutes(xs[1..], ys[..k] + ys[k + 1..], g);
      MapRemoves(ys, k, g);
      MapTail(xs, g);
    }
  }

  /** The same case with its signatures and identities listed in another order. */
  ghost predicate SameRows(c: Case, d: Case) {
    && d == c.(signatures := d.signatures, identities := d.identities)
    && multiset(c.signatures) == multiset(d.signatures) && multiset(c.identities) == multiset(d.identities)
  }

  lemma SameRefusal(c: Case, d: Case)
    requires SameRows(c, d)
    ensures Refusal(d) == Refusal(c)
  {
    hide HasEvidence;
    SameMembers(c.signatures, d.signatures);
    SameMembers(c.identities, d.identities);
    forall s | s in c.signatures ensures IsIdentified(d, s) == IsIdentified(c, s) {
    }
  }

  lemma RefusalKnows(c: Case)
    requires Refusal(c).None?
    ensures c.closedAt.Some? && c.auditTrailSha256.Some?
  {
  }

  /** Two orders of the same files meet the same checks. */
  lemma SameChecks(p: Platform, a: seq<EvidenceFile>, b: seq<EvidenceFile>)
    requires multiset(a) == multiset(b)
    ensures AllPackagePaths(a) == AllPackagePaths(b)
    ensures var (x, y) := (Sort(ArchiveEntries(p, a), EntryOrder(p)), Sort(ArchiveEntries(p, b), EntryOrder(p)));
      DistinctArchivePaths(x) == DistinctArchivePaths(y) && HasContent(x) == HasContent(y)
  {
    hide Sort, IsPackagePath;
    var x, y := Sort(ArchiveEntries(p, a), EntryOrder(p)), Sort(ArchiveEntries(p, b), EntryOrder(p));
    SameMembers(a, b);
    SameEntries(p, a, b);
    SortPermutes(ArchiveEntries(p, a), EntryOrder(p));
    SortPermutes(ArchiveEntries(p, b), EntryOrder(p));
    SameMembers(x, y);
    if DistinctArchivePaths(x) {
      DistinctPermutes(x, y, (e: ArchiveEntry) => e.path);
    }
    if DistinctArchivePaths(y) {
      DistinctPermutes(y, x, (e: ArchiveEntry) => e.path);
    }
  }

  /** What a successful build is made of, whatever the order of its input. */
  lemma SameOutcome(p: Platform, c: Case, d: Case, a: seq<EvidenceFile>, b: seq<EvidenceFile>)
    requires SameRows(c, d) && multiset(a) == multiset(b)
    ensures Built(p, c, a).Err? ==> Built(p, d, b) == Built(p, c, a)
    ensures Built(p, c, a).Ok? ==>
      && Refusal(d).None? && Refusal(c).None? && Built(p, d, b).Ok?
      && Built(p, c, a).value.files == Sort(a, FileOrder(p)) && Built(p, d, b).value.files == Sort(b, FileOrder(p))
      && IsManifestOf(p, c, a, Built(p, c, a).value.manifest) && IsManifestOf(p, d, b, Built(p, d, b).value.manifest)
      && Built(p, c, a).value.manifestSha256 == ManifestSha(p, Built(p, c, a).value.manifest)
      && Built(p, d, b).value.manifestSha256 == ManifestSha(p, Built(p, d, b).value.manifest)
  {
    hide Sort, AllPackagePaths, Refusal, ManifestSha, HasContent, DistinctArchivePaths;
    SameRefusal(c, d);
    SameChecks(p, a, b);
    if Refusal(c).None? {
      RefusalKnows(c);
    }
  }

  ghost predicate IsManifestOf(p: Platform, c: Case, files: seq<EvidenceFile>, m: ArchiveManifest) {
    && c.closedAt.Some? && c.auditTrailSha256.Some?
    && m == ArchiveManifestOf(p, c, Sort(ArchiveEntries(p, files), EntryOrder(p)))
  }

  /** The collation ties no two different files, signatures or identities. */
  ghost predicate NothingTies(p: Platform, c: Case, files: seq<EvidenceFile>) {
    && Separates(FileOrder(p), files)
    && Separates(SignatureOrder(p), c.signatures)
    && Separates(IdentityOrder(p), c.identities)
  }

  lemma EntriesSeparate(p: Platform, files: seq<EvidenceFile>)
    requires Separates(FileOrder(p), files)
    ensures Separates(EntryOrder(p), ArchiveEntries(p, files))
  {
    var entries := ArchiveEntries(p, files);
    forall x, y | x in entries && y in entries && EntryOrder(p)(x, y) && EntryOrder(p)(y, x) ensures x == y {
      var i :| 0 <= i < |files| && entries[i] == x;
      var j :| 0 <= j < |files| && entries[j] == y;
      assert FileOrder(p)(files[i], files[j]) && FileOrder(p)(files[j], files[i]);
    }
  }

  lemma NothingTiesForgets(p: Platform, c: Case, d: Case, a: seq<EvidenceFile>, b: seq<EvidenceFile>)
    requires Comparator(p.pathAtMost) && SameRows(c, d) && multiset(a) == multiset(b) && NothingTies(p, c, a)
    ensures Built(p, d, b) == Built(p, c, a)
  {
    hide Sort, Comparator, Separates, Built, ManifestSha;
    OrdersCompare(p);
    SameOutcome(p, c, d, a, b);
    if Built(p, c, a).Ok? {
      SameEntries(p, a, b);
      EntriesSeparate(p, a);
      SortForgetsOrder(a, b, FileOrder(p));
      SortForgetsOrder(ArchiveEntries(p, a), ArchiveEntries(p, b), EntryOrder(p));
      SortForgetsOrder(c.signatures, d.signatures, SignatureOrder(p));
      SortForgetsOrder(c.identities, d.identities, IdentityOrder(p));
    }
  }

  /** Exchanging two different files whose paths the collation ties gives another package. */
  lemma SwappedFilesShow(p: Platform, c: Case, a: seq<EvidenceFile>, i: nat, j: nat)
    requires Comparator(p.pathAtMost) && Built(p, c, a).Ok?
    requires i < j < |a| && Ties(FileOrder(p), a[i], a[j]) && a[i] != a[j]
    ensures Built(p, c, Swapped(a, i, j)).Ok? && Built(p, c, Swapped(a, i, j)) != Built(p, c, a)
    ensures multiset(Swapped(a, i, j)) == multiset(a)
  {
    hide Sort, Comparator, Ties, Built, Swapped, ManifestSha;
    OrdersCompare(p);
    SwapPermutes(a, i, j);
    SwapShows(a, i, j, FileOrder(p));
    SameOutcome(p, c, c, a, Swapped(a, i, j));
  }

  /**
   * Exchanging two different signatures of signers that the collation ties, such as two of one
   * signer, gives another package: there the export depends on row order.
   */
  lemma SwappedSignaturesShow(p: Platform, c: Case, a: seq<EvidenceFile>, i: nat, j: nat)
    requires Comparator(p.pathAtMost) && Built(p, c, a).Ok?
    requires i < j < |c.signatures| && Ties(SignatureOrder(p), c.signatures[i], c.signatures[j]) && c.signatures[i] != c.signatures[j]
    ensures var d := c.(signatures := Swapped(c.signatures, i, j));
      SameRows(c, d) && Built(p, d, a).Ok? && Built(p, d, a) != Built(p, c, a)
  {
    hide Sort, Comparator, Ties, Built, Swapped, ManifestSha;
    var d := c.(signatures := Swapped(c.signatures, i, j));
    OrdersCompare(p);
    SwapPermutes(c.signatures, i, j);
    SwapShows(c.signatures, i, j, SignatureOrder(p));
    SameOutcome(p, c, d, a, a);
  }

  /** The same for identities. */
  lemma SwappedIdentitiesShow(p: Platform, c: Case, a: seq<EvidenceFile>, i: nat, j: nat)
    requires Comparator(p.pathAtMost) && Built(p, c, a).Ok?
    requires i < j < |c.identities| && Ties(IdentityOrder(p), c.identities[i], c.identities[j]) && c.identities[i] != c.identities[j]
    ensures var d := c.(identities := Swapped(c.identities, i, j));
      SameRows(c, d) && Built(p, d, a).Ok? && Built(p, d, a) != Built(p, c, a)
  {
    hide Sort, Comparator, Ties, Built, Swapped, ManifestSha;
    var d := c.(identities := Swapped(c.identities, i, j));
    OrdersCompare(p);
    SwapPermutes(c.identities, i, j);
    SwapShows(c.identities, i, j, IdentityOrder(p));
    SameOutcome(p, c, d, a, a);
  }

  lemma SomeOrderShows(p: Platform, c: Case, a: seq<EvidenceFile>) returns (d: Case, b: seq<EvidenceFile>)
    requires Comparator(p.pathAtMost) && Built(p, c, a).Ok? && !NothingTies(p, c, a)
    ensures SameRows(c, d) && multiset(b) == multiset(a) && Built(p, d, b) != Built(p, c, a)
  {
    hide Comparator, Separates, Ties, Built, Swapped;
    d, b := c, a;
    if !Separates(FileOrder(p), a) {
      var i, j := TiedPositions(a, FileOrder(p));
      SwappedFilesShow(p, c, a, i, j);
      b := Swapped(a, i, j);
    } else if !Separates(SignatureOrder(p), c.signatures) {
      var i, j := TiedPositions(c.signatures, SignatureOrder(p));
      SwappedSignaturesShow(p, c, a, i, j);
      d := c.(signatures := Swapped(c.signatures, i, j));
    } else {
      var i, j := TiedPositions(c.identities, IdentityOrder(p));
      SwappedIdentitiesShow(p, c, a, i, j);
      d := c.(identities := Swapped(c.identities, i, j));
    }
  }

  /**
   * The order in which files, signatures and identities are listed never changes an error. It changes
   * no package exactly when the collation ties no two different ones.
   */
  lemma BuildForgetsOrder(p: Platform, c: Case, a: seq<EvidenceFile>)
    requires Comparator(p.pathAtMost)
    ensures (forall d, b :: SameRows(c, d) && multiset(b) == multiset(a) ==> Built(p, d, b) == Built(p, c, a))
       <==> Built(p, c, a).Err? || NothingTies(p, c, a)
  {
    hide Comparator, NothingTies, Built, SameRows;
    if Built(p, c, a).Err? || NothingTies(p, c, a) {
      forall d, b | SameRows(c, d) && multiset(b) == multiset(a) ensures Built(p, d, b) == Built(p, c, a) {
        if NothingTies(p, c, a) {
          NothingTiesForgets(p, c, d, a, b);
        } else {
          SameOutcome(p, c, d, a, b);
        }
      }
    } else {
      var d, b := SomeOrderShows(p, c, a);
    }
  }

  /* ---- Files with one path ---- */

  ghost predicate IsDescribed(p: Platform, entries: seq<ArchiveEntry>, f: EvidenceFile) {
    exists e :: e in entries && Describes(p, e, f)
  }

  /** Every file has the length and hash of the last file of its path. */
  predicate AgreesWithHeld(p: Platform, files: seq<EvidenceFile>, f: EvidenceFile) {
    Held(files, f.path).Some? && |f.bytes| == |Held(files, f.path).value.bytes| && p.sha256(f.bytes) == p.sha256(Held(files, f.path).value.bytes)
  }

  /**
   * A delivery that verifies carries nothing but what the manifest describes exactly when each file
   * agrees with the last file of its path: the verifier looks at no other.
   */
  lemma VerifiedDescribesAll(p: Platform, m: ArchiveManifest, files: seq<EvidenceFile>, expectedSha: Text)
    requires ArchiveFailures(p, m, files, expectedSha) == []
    ensures (forall f :: f in files ==> IsDescribed(p, m.entries, f)) <==> forall f :: f in files ==> AgreesWithHeld(p, files, f)
  {
    hide ArchiveFailures, ManifestSha, Held;
    VerifiedIs(p, m, files, expectedSha);
    forall f | f in files ensures IsDescribed(p, m.entries, f) <==> AgreesWithHeld(p, files, f) {
      var e :| e in m.entries && e.path == f.path;
      assert Describes(p, e, Held(files, e.path).value);
    }
  }

  /** Any bytes pass under the path of a file that comes later. */
  lemma ShadowedFileVerifies(p: Platform, m: ArchiveManifest, files: seq<EvidenceFile>, expectedSha: Text, hidden: EvidenceFile)
    requires ArchiveFailures(p, m, files, expectedSha) == [] && exists f :: f in files && f.path == hidden.path
    ensures ArchiveFailures(p, m, [hidden] + files, expectedSha) == []
  {
    hide ArchiveFailures, ManifestSha, Held, Describes;
    VerifiedIs(p, m, files, expectedSha);
    VerifiedIs(p, m, [hidden] + files, expectedSha);
    var f :| f in files && f.path == hidden.path;
    forall e | e in m.entries ensures Held([hidden] + files, e.path) == Held(files, e.path) {
      HeldBehind(hidden, files, e.path);
    }
  }

  lemma {:induction false} HeldBehind(hidden: EvidenceFile, files: seq<EvidenceFile>, path: Text)
    requires Held(files, path).Some?
    ensures Held([hidden] + files, path) == Held(files, path)
  {
    if files[|files| - 1].path != path {
      HeldBehind(hidden, files[..|files| - 1], path);
      assert ([hidden] + files)[..|files|] == [hidden] + files[..|files| - 1];
    }
  }

  /* ---- Nothing else verifies ---- */

  /** What is hashed when a package is built and when a delivery is verified against it. */
  ghost function Hashed(p: Platform, pkg: Package, m: ArchiveManifest, files: seq<EvidenceFile>): set<Bytes> {
    {p.encode(ManifestText(pkg.manifest)), p.encode(ManifestText(m))}
    + (set f | f in pkg.files :: f.bytes) + (set f | f in files :: f.bytes)
  }

  lemma EncodingInjective(p: Platform, v: Json, w: Json)
    requires p.Lawful() && Encodable(v) && Encodable(w)
    requires Encode(v).Ok? && Encode(w).Ok? && p.encode(Encode(v).value) == p.encode(Encode(w).value)
    ensures Encode(v) == Encode(w)
  {
    hide Encode, Encodable;
    CanonicalJsonLaws.EncodedWellFormed(v);
    CanonicalJsonLaws.EncodedWellFormed(w);
    assert p.decode(p.encode(Encode(v).value)) == Some(Encode(v).value);
    assert p.decode(p.encode(Encode(w).value)) == Some(Encode(w).value);
  }

  lemma SameCanon(v: Json, w: Json)
    requires IsValue(v) && Encodable(v) && IsValue(w) && Encodable(w) && Encode(v) == Encode(w)
    ensures Canon(v) == Canon(w)
  {
    hide Encode, IsValue, Encodable, Canon, JsonParser.Parse;
    CanonicalJsonLaws.ParseEncoded(v);
    CanonicalJsonLaws.ParseEncoded(w);
  }

  /** Objects of one canonical form with the same keys have the same canonical values. */
  lemma SameField(a: seq<Member>, b: seq<Member>, i: nat)
    requires DistinctKeys(a) && DistinctKeys(b) && Canon(Obj(a)) == Canon(Obj(b))
    requires i < |a| && i < |b| && a[i].key == b[i].key
    ensures Canon(a[i].value) == Canon(b[i].value)
  {
    hide Canon, DistinctKeys;
    EvidenceRoundTrip.PropertyOfCanon(a, i);
    EvidenceRoundTrip.PropertyOfCanon(b, i);
  }

  lemma SameNumber(a: nat, b: nat)
    requires Canon(Number(NatNumber(a))) == Canon(Number(NatNumber(b)))
    ensures a == b
  {
    hide NatNumber, NatValue;
    EvidenceRoundTrip.NatNumberPositive(a);
    EvidenceRoundTrip.NatNumberPositive(b);
    NatNumberValue(a);
    NatNumberValue(b);
  }

  lemma SameOptional(a: Option<Text>, b: Option<Text>)
    requires Canon(OptionalJson(a)) == Canon(OptionalJson(b))
    ensures a == b
  {
  }

  lemma EntryKeys(e: ArchiveEntry)
    ensures DistinctKeys(ArchiveEntryJson(e).members)
  {
    hide NatNumber, CategoryName;
  }

  lemma SignatureKeys(s: Signature)
    ensures DistinctKeys(SignatureJson(s).members)
  {
    assert Lit("signerId")[5] != Lit("signedAt")[5];
  }

  lemma IdentityKeys(i: Identity)
    ensures DistinctKeys(IdentityJson(i).members)
  {
    assert Lit("signerId")[0] != Lit("provider")[0] && Lit("assuranceLevel")[0] != Lit("evidenceSha256")[0];
  }

  lemma SameEntry(a: ArchiveEntry, b: ArchiveEntry)
    requires Canon(ArchiveEntryJson(a)) == Canon(ArchiveEntryJson(b))
    ensures a == b
  {
    hide DistinctKeys, NatNumber, Sort;
    EntryKeys(a);
    EntryKeys(b);
    var x, y := ArchiveEntryJson(a).members, ArchiveEntryJson(b).members;
    SameField(x, y, 0);
    SameField(x, y, 1);
    SameField(x, y, 2);
    SameField(x, y, 3);
    SameField(x, y, 4);
    SameNumber(a.bytes, b.bytes);
    SameCategory(a.category, b.category);
  }

  lemma SameCategory(a: Category, b: Category)
    ensures CategoryName(a) == CategoryName(b) ==> a == b
  {
    assert |CategoryName(Content)| == 7 && |CategoryName(Metadata)| == 8 && |CategoryName(EvidenceRecord)| == 8;
    assert CategoryName(Metadata)[0] != CategoryName(EvidenceRecord)[0];
  }

  lemma SameSignature(a: Signature, b: Signature)
    requires Canon(SignatureJson(a)) == Canon(SignatureJson(b))
    ensures a == b
  {
    hide DistinctKeys, Sort, OptionalJson;
    SignatureKeys(a);
    SignatureKeys(b);
    var x, y := SignatureJson(a).members, SignatureJson(b).members;
    SameField(x, y, 0);
    SameField(x, y, 1);
    SameField(x, y, 2);
    SameField(x, y, 3);
    SameField(x, y, 4);
    SameField(x, y, 5);
    SameOptional(a.padesLevel, b.padesLevel);
    SameOptional(a.artifactSha256, b.artifactSha256);
    SameOptional(a.reportSha256, b.reportSha256);
    SameOptional(a.timestampSha256, b.timestampSha256);
  }

  lemma SameIdentity(a: Identity, b: Identity)
    requires Canon(IdentityJson(a)) == Canon(IdentityJson(b))
    ensures a == b
  {
    hide DistinctKeys, Sort;
    IdentityKeys(a);
    IdentityKeys(b);
    var x, y := IdentityJson(a).members, IdentityJson(b).members;
    SameField(x, y, 0);
    SameField(x, y, 1);
    SameField(x, y, 2);
    SameField(x, y, 3);
    SameField(x, y, 4);
    SameField(x, y, 5);
  }

  lemma SameItems(a: seq<Json>, b: seq<Json>)
    requires Canon(Arr(a)) == Canon(Arr(b))
    ensures |a| == |b| && forall i :: 0 <= i < |a| ==> Canon(a[i]) == Canon(b[i])
  {
    var x, y := Canon(Arr(a)).items, Canon(Arr(b)).items;
    forall i | 0 <= i < |a| ensures Canon(a[i]) == Canon(b[i]) {
      assert x[i] == Canon(a[i]) && y[i] == Canon(b[i]);
    }
  }

  lemma SameLists(a: ArchiveManifest, b: ArchiveManifest)
    requires Canon(Arr(Jsons(a.entries, ArchiveEntryJson))) == Canon(Arr(Jsons(b.entries, ArchiveEntryJson)))
    requires Canon(Arr(Jsons(a.signatures, SignatureJson))) == Canon(Arr(Jsons(b.signatures, SignatureJson)))
    requires Canon(Arr(Jsons(a.identities, IdentityJson))) == Canon(Arr(Jsons(b.identities, IdentityJson)))
    ensures a.entries == b.entries && a.signatures == b.signatures && a.identities == b.identities
  {
    hide Canon, ArchiveEntryJson, SignatureJson, IdentityJson;
    SameItems(Jsons(a.entries, ArchiveEntryJson), Jsons(b.entries, ArchiveEntryJson));
    SameItems(Jsons(a.signatures, SignatureJson), Jsons(b.signatures, SignatureJson));
    SameItems(Jsons(a.identities, IdentityJson), Jsons(b.identities, IdentityJson));
    forall i | 0 <= i < |a.entries| ensures a.entries[i] == b.entries[i] {
      SameEntry(a.entries[i], b.entries[i]);
    }
    forall i | 0 <= i < |a.signatures| ensures a.signatures[i] == b.signatures[i] {
      SameSignature(a.signatures[i], b.signatures[i]);
    }
    forall i | 0 <= i < |a.identities| ensures a.identities[i] == b.identities[i] {
      SameIdentity(a.identities[i], b.identities[i]);
    }
  }

  lemma ManifestKeys(m: ArchiveManifest)
    ensures DistinctKeys(ManifestMembers(m))
  {
    hide NatNumber, Jsons, ModeName;
    assert Lit("tenantId")[0] != Lit("closedAt")[0] && Lit("reference")[0] != Lit("createdAt")[0];
    assert Lit("regulation")[0] != Lit("signatures")[0] && Lit("regulation")[0] != Lit("identities")[0] && Lit("signatures")[0] != Lit("identities")[0];
  }

  lemma ManifestFields(a: ArchiveManifest, b: ArchiveManifest)
    requires Canon(ArchiveManifestJson(a)) == Canon(ArchiveManifestJson(b))
    ensures forall i :: 0 <= i < 14 ==> Canon(ManifestMembers(a)[i].value) == Canon(ManifestMembers(b)[i].value)
  {
    hide Canon, DistinctKeys, NatNumber, Jsons, ModeName;
    ManifestKeys(a);
    ManifestKeys(b);
    forall i | 0 <= i < 14 ensures Canon(ManifestMembers(a)[i].value) == Canon(ManifestMembers(b)[i].value) {
      SameField(ManifestMembers(a), ManifestMembers(b), i);
    }
  }

  lemma SameText(a: Text, b: Text)
    ensures Canon(Str(a)) == Canon(Str(b)) ==> a == b
  {
  }

  lemma SameMode(a: DecisionMode, b: DecisionMode)
    ensures ModeName(a) == ModeName(b) ==> a == b
  {
  }

  /** The canonical form of a manifest determines the manifest. */
  lemma CanonDetermines(a: ArchiveManifest, b: ArchiveManifest)
    requires Canon(ArchiveManifestJson(a)) == Canon(ArchiveManifestJson(b))
    ensures a == b
  {
    hide Canon, NatNumber, Jsons, ModeName;
    ManifestFields(a, b);
    var x, y := ManifestMembers(a), ManifestMembers(b);
    assert Canon(x[0].value) == Canon(y[0].value) && Canon(x[1].value) == Canon(y[1].value) && Canon(x[2].value) == Canon(y[2].value);
    assert Canon(x[3].value) == Canon(y[3].value) && Canon(x[4].value) == Canon(y[4].value) && Canon(x[5].value) == Canon(y[5].value);
    assert Canon(x[6].value) == Canon(y[6].value) && Canon(x[7].value) == Canon(y[7].value) && Canon(x[8].value) == Canon(y[8].value);
    assert Canon(x[9].value) == Canon(y[9].value) && Canon(x[10].value) == Canon(y[10].value) && Canon(x[11].value) == Canon(y[11].value);
    assert Canon(x[12].value) == Canon(y[12].value) && Canon(x[13].value) == Canon(y[13].value);
    SameText(a.schema, b.schema);
    SameNumber(a.profileVersion, b.profileVersion);
    SameText(a.regulation, b.regulation);
    SameText(a.tenantId, b.tenantId);
    SameText(a.signatureCaseId, b.signatureCaseId);
    SameText(a.reference, b.reference);
    SameText(a.title, b.title);
    SameText(ModeName(a.decisionMode), ModeName(b.decisionMode));
    SameMode(a.decisionMode, b.decisionMode);
    SameText(a.createdAt, b.createdAt);
    SameText(a.closedAt, b.closedAt);
    SameLists(a, b);
    SameText(a.auditTrailSha256, b.auditTrailSha256);
  }

  lemma ListsAreValues(m: ArchiveManifest)
    ensures IsValue(Arr(Jsons(m.entries, ArchiveEntryJson)))
    ensures IsValue(Arr(Jsons(m.signatures, SignatureJson)))
    ensures IsValue(Arr(Jsons(m.identities, IdentityJson)))
  {
    hide DistinctKeys;
    forall e | e in m.entries ensures IsValue(ArchiveEntryJson(e)) {
      EntryKeys(e);
    }
    forall s | s in m.signatures ensures IsValue(SignatureJson(s)) {
      SignatureKeys(s);
    }
    forall i | i in m.identities ensures IsValue(IdentityJson(i)) {
      IdentityKeys(i);
    }
  }

  lemma ManifestIsValue(m: ArchiveManifest)
    ensures IsValue(ArchiveManifestJson(m))
  {
    hide DistinctKeys, Jsons, NatNumber, ModeName;
    ManifestKeys(m);
    ListsAreValues(m);
  }

  /** A manifest is determined by its hash. */
  lemma ShaDetermines(p: Platform, a: ArchiveManifest, b: ArchiveManifest)
    requires p.Lawful() && ManifestSha(p, a) == ManifestSha(p, b)
    requires InjectiveOn(p.sha256, {p.encode(ManifestText(a)), p.encode(ManifestText(b))})
    ensures a == b
  {
    hide Encode, Encodable, IsValue, ArchiveManifestJson, Canon;
    var v, w := ArchiveManifestJson(a), ArchiveManifestJson(b);
    ManifestEncodable(a);
    ManifestEncodable(b);
    ManifestIsValue(a);
    ManifestIsValue(b);
    CanonicalJsonLaws.EncodedWellFormed(v);
    CanonicalJsonLaws.EncodedWellFormed(w);
    EncodingInjective(p, v, w);
    SameCanon(v, w);
    CanonDetermines(a, b);
  }

  ghost predicate BytesIn(files: seq<EvidenceFile>, strings: set<Bytes>) {
    forall f :: f in files ==> f.bytes in strings
  }

  lemma DeliversFile(p: Platform, entries: seq<ArchiveEntry>, files: seq<EvidenceFile>, f: EvidenceFile, strings: set<Bytes>)
    requires InjectiveOn(p.sha256, strings) && f.bytes in strings && BytesIn(files, strings)
    requires Corresponds(p, entries, files) && ArchiveEntryOf(p, f) in entries
    ensures exists g :: g in files && g.path == f.path && g.bytes == f.bytes
  {
    hide Held;
    var e := ArchiveEntryOf(p, f);
    assert Describes(p, e, Held(files, e.path).value);
  }

  lemma DeliversOnly(p: Platform, entries: seq<ArchiveEntry>, built: seq<EvidenceFile>, files: seq<EvidenceFile>, g: EvidenceFile, strings: set<Bytes>)
    requires InjectiveOn(p.sha256, strings) && g.bytes in strings && BytesIn(built, strings)
    requires Corresponds(p, entries, files) && g in files && Held(files, g.path) == Some(g)
    requires forall e :: e in entries ==> exists f :: f in built && e == ArchiveEntryOf(p, f)
    ensures exists f :: f in built && g.path == f.path && g.bytes == f.bytes
  {
    hide Held;
    var e :| e in entries && e.path == g.path;
    assert Describes(p, e, g);
    var f :| f in built && e == ArchiveEntryOf(p, f);
    assert g.bytes == f.bytes;
  }

  lemma HashedHolds(p: Platform, pkg: Package, m: ArchiveManifest, files: seq<EvidenceFile>)
    ensures var strings := Hashed(p, pkg, m, files);
      BytesIn(pkg.files, strings) && BytesIn(files, strings)
    ensures InjectiveOn(p.sha256, Hashed(p, pkg, m, files)) ==> InjectiveOn(p.sha256, {p.encode(ManifestText(m)), p.encode(ManifestText(pkg.manifest))})
  {
    hide ManifestText;
  }

  /**
   * The separately delivered hash pins the delivery: whatever manifest and files verify against the
   * hash of a built package are that package's manifest and, when no path comes twice, its files,
   * provided that no two of the strings hashed on either side collide.
   */
  lemma OnlyBuiltVerifies(p: Platform, c: Case, built: seq<EvidenceFile>, m: ArchiveManifest, files: seq<EvidenceFile>)
    requires p.Lawful() && Built(p, c, built).Ok? && InjectiveOn(p.sha256, Hashed(p, Built(p, c, built).value, m, files))
    requires ArchiveFailures(p, m, files, Built(p, c, built).value.manifestSha256) == []
    ensures m == Built(p, c, built).value.manifest
    ensures forall f :: f in built ==> exists g :: g in files && g.path == f.path && g.bytes == f.bytes
    ensures DistinctFilePaths(files) ==> forall g :: g in files ==> exists f :: f in built && g.path == f.path && g.bytes == f.bytes
  {
    hide Built, ManifestSha, ManifestText, ArchiveFailures, DistinctFilePaths, Held, Corresponds, InjectiveOn, Hashed, BytesIn, ArchiveEntryOf, p.Lawful;
    var pkg := Built(p, c, built).value;
    var strings := Hashed(p, pkg, m, files);
    BuiltParts(p, c, built);
    VerifiedIs(p, m, files, pkg.manifestSha256);
    HashedHolds(p, pkg, m, files);
    ShaDetermines(p, m, pkg.manifest);
    forall f | f in built ensures exists g :: g in files && g.path == f.path && g.bytes == f.bytes {
      BytesHold(pkg.files, strings, f);
      DeliversFile(p, m.entries, files, f, strings);
    }
    if DistinctFilePaths(files) {
      forall g | g in files ensures exists f :: f in built && g.path == f.path && g.bytes == f.bytes {
        HeldIsFile(files, g);
        BytesHold(files, strings, g);
        DeliversOnly(p, m.entries, pkg.files, files, g, strings);
      }
    }
  }

  lemma BytesHold(files: seq<EvidenceFile>, strings: set<Bytes>, f: EvidenceFile)
    requires BytesIn(files, strings) && f in files
    ensures f.bytes in strings
  {
  }
}
