/** Inputs at which the conditions of the evidence package and its archive fail. */
module PackageExamples {
  import opened Results
  import opened Bytes
  import opened Text
  import opened Ordering
  import opened Platform
  import opened PlatformExample
  import opened JsonNumber
  import opened JsonString
  import opened CanonicalJson
  import opened Evidence
  import opened EvidenceVerifier
  import opened EvidenceRoundTrip
  import opened WorkerPaths
  import Zip
  import ZipLaws
  import ZipParser

  /* ---- Small archives are created ---- */

  const SMALL: nat := 1_000_000

  lemma PartLengths(p: Platform, f: Zip.File, offset: nat)
    ensures |Zip.Local(p, f)| == 30 + |p.encode(f.path)| + |f.bytes|
    ensures |Zip.Central(p, f, offset)| == 46 + |p.encode(f.path)|
  {
    hide Zip.LocalHeader, Zip.CentralHeader;
  }

  lemma {:induction false} PartsShort(p: Platform, files: seq<Zip.File>)
    requires forall f :: f in files ==> |p.encode(f.path)| + |f.bytes| <= SMALL
    ensures |Zip.Locals(p, files)| <= |files| * 1_000_030 && |Zip.Centrals(p, files)| <= |files| * 1_000_046
  {
    hide Zip.Local, Zip.Central;
    if files != [] {
      var front, last := files[..|files| - 1], files[|files| - 1];
      PartsShort(p, front);
      assert last in files;
      PartLengths(p, last, |Zip.Locals(p, front)|);
    }
  }

  /** Up to three files of valid, different paths and at most a million bytes each. */
  lemma SmallCreated(p: Platform, files: seq<Zip.File>)
    requires 1 <= |files| <= 3 && Zip.Validated(p, files).Ok? && Zip.DistinctPaths(Zip.Validated(p, files).value)
    requires forall f :: f in Zip.Validated(p, files).value ==> |p.encode(f.path)| + |f.bytes| <= SMALL
    ensures Zip.Created(p, files).Ok?
  {
    hide Zip.Locals, Zip.Centrals, Zip.EndRecord, Sort, Zip.Validated;
    var validated := Zip.Validated(p, files).value;
    var ordered := Sort(validated, Zip.ByPath(p));
    SortMembers(validated, Zip.ByPath(p));
    SortPermutes(validated, Zip.ByPath(p));
    DistinctPermutes(validated, ordered, (f: Zip.File) => f.path);
    PartsShort(p, ordered);
  }

  /* ---- A path that the archive loses ---- */

  const LONE: Text := [0xd800]

  lemma LonePath()
    ensures Zip.IsPath(LONE) && !WellFormed(LONE)
  {
    OneSegment(LONE);
  }

  lemma LoneUndecodable(p: Platform)
    requires p.decode == Decoded && p.encode == Units
    ensures ZipLaws.Reread(p, LONE) == Err(ZipParser.DECODE_FAILED)
  {
    hide Units, UnitsBack, Zip.IsPath, WellFormed;
    LonePath();
    UnitsRead(LONE);
  }

  /** One file named by a lone surrogate: its archive is created, and the parser refuses it. */
  lemma LoneSurrogateLost(sha256: Bytes -> Text)
    requires forall b :: IsDigest(sha256(b))
    ensures Example(sha256).Lawful()
    ensures var created := Zip.Created(Example(sha256), [Zip.File(LONE, [])]);
            created.Ok? && ZipParser.Parsed(Example(sha256), created.value) == Err(ZipParser.DECODE_FAILED)
  {
    hide Platform.Lawful, Zip.IsPath, Units, Decoded, AtMost, Zip.Created, ZipParser.Parsed, ZipLaws.Reread;
    var p, files := Example(sha256), [Zip.File(LONE, [])];
    ExampleLawful(sha256);
    LonePath();
    assert Composed(LONE) == LONE;
    assert Zip.ValidatePath(p, LONE) == Ok(LONE);
    ValidatedFixed(p, files);
    SmallCreated(p, files);
    ZipLaws.CreatedReparsed(p, files);
    LoneUndecodable(p);
    assert ZipLaws.OrderedFiles(p, files) == files;
  }

  /* ---- How long an encoding can be ---- */

  /** The value has an encoding of at most n units. */
  predicate Fits(v: Json, n: nat) {
    Encode(v).Ok? && |Encode(v).value| <= n
  }

  lemma {:induction false} QuoteShort(t: Text)
    ensures |QuoteUnits(t)| <= 6 * |t|
    ensures |Quote(t)| <= 6 * |t| + 2
  {
    if t != [] {
      QuoteShort(if StartsWithPair(t) then t[2..] else t[1..]);
    }
  }

  lemma StrFits(t: Text)
    ensures Fits(Str(t), 6 * |t| + 2)
  {
    hide Quote;
    QuoteShort(t);
  }

  lemma {:induction false} JoinedShort(texts: seq<Text>, n: nat)
    requires forall t :: t in texts ==> |t| <= n
    ensures |Joined(texts)| <= |texts| * (n + 1)
  {
    if texts != [] {
      assert texts[0] in texts;
      JoinedShort(texts[1..], n);
      assert |texts| * (n + 1) == |texts[1..]| * (n + 1) + (n + 1);
    }
  }

  lemma {:induction false} CollectShort(results: seq<Result<Text>>, n: nat)
    requires forall r :: r in results ==> r.Ok? && |r.value| <= n
    ensures Collect(results).Ok? && |Collect(results).value| == |results|
    ensures forall t :: t in Collect(results).value ==> |t| <= n
  {
    if results != [] {
      assert results[0] in results;
      CollectShort(results[1..], n);
    }
  }

  lemma SingleFits(v: Json, n: nat)
    requires Fits(v, n)
    ensures Fits(Arr([v]), n + 3)
  {
    hide Encode, Collect, Joined;
    var items := [v];
    EncodeArr(items);
    var results := seq(|items|, i requires 0 <= i < |items| => Encode(items[i]));
    CollectShort(results, n);
    JoinedShort(Collect(results).value, n);
  }

  lemma FewJoined(texts: seq<Text>, n: nat)
    requires |texts| <= 5 && forall t :: t in texts ==> |t| <= n
    ensures |Joined(texts)| <= 5 * n + 5
  {
    hide Joined;
    JoinedShort(texts, n);
    assert (5 - |texts|) * (n + 1) >= 0;
  }

  lemma MemberFits(m: Member, n: nat)
    requires |m.key| <= 20 && !m.value.Undefined? && Fits(m.value, n)
    ensures EncodeMember(m).Ok? && |EncodeMember(m).value| <= n + 123
  {
    hide Encode, Quote;
    QuoteShort(m.key);
  }

  lemma ObjFits(members: seq<Member>, n: nat)
    requires |members| <= 5 && forall m :: m in members ==> |m.key| <= 20 && !m.value.Undefined? && Fits(m.value, n)
    ensures Fits(Obj(members), 5 * n + 622)
  {
    hide Encode, Collect, Joined, Sort, EncodeMember;
    EncodeObj(members);
    var sorted := Sort(members, KeyAtMost);
    SortMembers(members, KeyAtMost);
    var results := seq(|sorted|, i requires 0 <= i < |sorted| => EncodeMember(sorted[i]));
    forall r | r in results ensures r.Ok? && |r.value| <= n + 123 {
      var i :| 0 <= i < |results| && results[i] == r;
      assert sorted[i] in members;
      MemberFits(sorted[i], n);
    }
    CollectShort(results, n + 123);
    FewJoined(Collect(results).value, n + 123);
  }

  /* ---- A title that is not in normal form ---- */

  /** ASCII letters and digits, and the two forms of the letter. */
  function IsWordPoint(c: nat): bool {
    '0' as int <= c <= '9' as int || 'A' as int <= c <= 'Z' as int || 'a' as int <= c <= 'z' as int || c == A_RING || c == ANGSTROM
  }

  function SameText(t: Text): Text {
    t
  }

  const CHARACTERS := Characters(IsWordPoint, SameText)

  const TITLE: Text := [ANGSTROM]

  function TitlePath(): Text {
    Lit("documents/001-") + SafeFileName(CHARACTERS, TITLE)
  }

  lemma TitlePathIs()
    ensures CHARACTERS.Lawful() && IsWorkerPath(CHARACTERS, TitlePath())
    ensures TitlePath() == Lit("documents/001-") + [ANGSTROM] + Lit(".pdf")
  {
    var t := Separated(TITLE);
    assert t == TITLE;
    assert t[1..] == [] && t[..1] == t;
    assert Cleaned(CHARACTERS, t) == TITLE;
    assert Trimmed(TITLE) == TITLE;
    var prefix := Lit("documents/001-");
    assert TITLE + Lit(".pdf") == [ANGSTROM] + Lit(".pdf");
    assert forall i :: 0 <= i < |prefix| ==> 0x20 <= prefix[i] < 0x7f;
    assert IsPrintable(prefix);
  }

  lemma {:induction false} SegmentsAfter(a: Text, b: Text)
    requires Zip.SLASH !in a
    ensures Zip.Segments(a + [Zip.SLASH] + b) == [a] + Zip.Segments(b)
  {
    var t := a + [Zip.SLASH] + b;
    if a == [] {
      assert t[1..] == b;
    } else {
      SegmentsAfter(a[1..], b);
      assert t[1..] == a[1..] + [Zip.SLASH] + b;
      assert [a[0]] + a[1..] == a;
    }
  }

  lemma TitlePathSplits()
    ensures |TitlePath()| == 19
    ensures TitlePath() == Lit("documents") + [Zip.SLASH] + (Lit("001-") + [ANGSTROM] + Lit(".pdf"))
  {
    hide SafeFileName;
    TitlePathIs();
    assert TitlePath()[9] == Zip.SLASH;
  }

  lemma TitlePathValid()
    ensures Zip.IsPath(TitlePath()) && |TitlePath()| == 19
  {
    hide Zip.Segments, TitlePath;
    TitlePathSplits();
    var a, b := Lit("documents"), Lit("001-") + [ANGSTROM] + Lit(".pdf");
    SegmentsAfter(a, b);
    OneSegment(b);
  }

  lemma TitleChanges()
    ensures Composed(TitlePath()) != TitlePath()
  {
    hide SafeFileName;
    TitlePathIs();
    assert TitlePath()[14] == ANGSTROM;
  }

  function TitleFile(): EvidenceFile {
    EvidenceFile(TitlePath(), [], [])
  }

  lemma StrFitsIn(t: Text, n: nat)
    requires 6 * |t| + 2 <= n
    ensures Fits(Str(t), n)
  {
    hide Encode;
    StrFits(t);
  }

  lemma ZeroFits()
    ensures Fits(Number(NatNumber(0)), 400) && Fits(Null, 2625)
  {
  }

  lemma EntryFits(e: Entry)
    requires |e.path| == 19 && |e.sha256| == 64 && e.bytes == 0 && e.mediaType == []
    ensures Fits(EntryJson(e), 2622)
  {
    hide Fits, NatNumber;
    StrFitsIn(e.path, 400);
    StrFitsIn(e.sha256, 400);
    StrFitsIn(e.mediaType, 400);
    ZeroFits();
    ObjFits(EntryJson(e).members, 400);
  }

  lemma ManifestFits(m: Manifest)
    requires |m.entries| == 1 && Fits(EntryJson(m.entries[0]), 2622)
    requires m.createdAt == [] && m.signatureCaseId == [] && m.metadata == Null
    ensures Fits(ManifestJson(m), 13_747)
  {
    hide Fits, EntryJson;
    StrFitsIn(Lit(SCHEMA), 2625);
    StrFitsIn([], 2625);
    ZeroFits();
    SingleFits(EntryJson(m.entries[0]), 2622);
    assert EntryJsons(m.entries) == [EntryJson(m.entries[0])];
    ObjFits(ManifestJson(m).members, 2625);
  }

  lemma TitleManifest(p: Platform)
    requires forall b :: IsDigest(p.sha256(b))
    ensures var m := ManifestOf(p, [], [TitleFile()], Null, []);
            && m.entries == [EntryOf(p, TitleFile())]
            && Fits(ManifestJson(m), 13_747) && |ChecksumText(p, m.entries)| == 86
  {
    hide TitlePath, ManifestJson, EntryJson, Fits, Zip.IsPath;
    TitlePathValid();
    var entries, e := EntriesOf(p, [TitleFile()]), EntryOf(p, TitleFile());
    assert entries == [e];
    assert Sort(entries, ByEntryPath(p)) == [e];
    EntryFits(e);
    ManifestFits(ManifestOf(p, [], [TitleFile()], Null, []));
    OneLine(p, e);
  }

  lemma OneLine(p: Platform, e: Entry)
    ensures |ChecksumText(p, [e])| == |e.sha256| + |e.path| + 3
  {
    assert Sort([e], ByEntryPath(p)) == [e];
    assert [e][..0] == [];
    assert Lines([e]) == ChecksumLine(e) + [NEWLINE];
  }

  function TitleFiles(manifest: Bytes, checksums: Bytes): seq<Zip.File> {
    ZipFiles([TitleFile()]) + [Zip.File(ManifestPath(), manifest), Zip.File(ChecksumPath(), checksums)]
  }

  lemma MetadataValid(p: Platform)
    requires p.Lawful()
    ensures Zip.ValidatePath(p, ManifestPath()) == Ok(ManifestPath()) && Zip.ValidatePath(p, ChecksumPath()) == Ok(ChecksumPath())
  {
    hide Zip.IsPath, ManifestPath, ChecksumPath, WellFormed;
    MetadataPathsGood(p);
  }

  lemma ValidatedStep(p: Platform, f: Zip.File, rest: seq<Zip.File>, path: Text, others: seq<Zip.File>)
    requires Zip.ValidatePath(p, f.path) == Ok(path) && Zip.Validated(p, rest) == Ok(others)
    ensures Zip.Validated(p, [f] + rest) == Ok([Zip.File(path, f.bytes)] + others)
  {
    hide Zip.ValidatePath;
    assert ([f] + rest)[1..] == rest;
  }

  lemma TitleValidated(p: Platform, manifest: Bytes, checksums: Bytes)
    requires p.Lawful() && p.normalize == Composed
    ensures var r := Zip.Validated(p, TitleFiles(manifest, checksums));
            && r == Ok([Zip.File(Composed(TitlePath()), []), Zip.File(ManifestPath(), manifest), Zip.File(ChecksumPath(), checksums)])
            && Zip.DistinctPaths(r.value)
  {
    hide TitlePath, Zip.IsPath, Platform.Lawful, Composed, ManifestPath, ChecksumPath, Zip.DistinctPaths;
    TitlePathValid();
    MetadataValid(p);
    var t, m, c := Zip.File(TitlePath(), []), Zip.File(ManifestPath(), manifest), Zip.File(ChecksumPath(), checksums);
    var v := Zip.File(Composed(TitlePath()), []);
    assert Zip.ValidatePath(p, t.path) == Ok(v.path);
    assert TitleFiles(manifest, checksums) == [t] + ([m] + ([c] + []));
    assert [v] + ([m] + ([c] + [])) == [v, m, c];
    ValidatedStep(p, c, [], c.path, []);
    ValidatedStep(p, m, [c] + [], m.path, [c] + []);
    ValidatedStep(p, t, [m] + ([c] + []), v.path, [m] + ([c] + []));
    TitleDistinct(manifest, checksums);
  }

  lemma TitleDistinct(manifest: Bytes, checksums: Bytes)
    ensures Zip.DistinctPaths([Zip.File(Composed(TitlePath()), []), Zip.File(ManifestPath(), manifest), Zip.File(ChecksumPath(), checksums)])
  {
    hide SafeFileName;
    TitlePathIs();
    assert Composed(TitlePath())[0] == 'd' as int && ManifestPath()[0] == 'm' as int && ChecksumPath()[0] == 'c' as int;
  }

  /** The title's file and the two metadata files make an archive. */
  lemma TitlePacked(p: Platform, manifest: Bytes, checksums: Bytes)
    requires p.Lawful() && p.encode == Units && p.normalize == Composed && |manifest| <= 100_000 && |checksums| <= 100_000
    ensures Zip.Created(p, Packed(p, [TitleFile()], manifest, checksums)).Ok?
  {
    hide TitlePath, Zip.IsPath, Zip.Created, Units, WellFormed, Sort, Platform.Lawful, Zip.Validated, Composed, Zip.DistinctPaths, Packed, Zip.ValidatePath, TitleFiles;
    var all, packed := TitleFiles(manifest, checksums), Packed(p, [TitleFile()], manifest, checksums);
    TitleValidated(p, manifest, checksums);
    TitlePathValid();
    TitleMembers(p, manifest, checksums);
    SameMembers(packed, all);
    ZipLaws.ValidatedMember(p, all);
    ZipLaws.ValidatedMember(p, packed);
    ZipLaws.ValidatedPermutes(p, packed, all);
    var (a, b) := (Zip.Validated(p, all).value, Zip.Validated(p, packed).value);
    PermutedDistinct(a, b);
    SameMembers(a, b);
    SmallCreated(p, packed);
  }

  lemma TitleMembers(p: Platform, manifest: Bytes, checksums: Bytes)
    ensures multiset(Packed(p, [TitleFile()], manifest, checksums)) == multiset(TitleFiles(manifest, checksums))
    ensures |TitleFiles(manifest, checksums)| == 3
  {
    hide Packed;
    PackedMembers(p, [TitleFile()], manifest, checksums);
  }

  lemma PermutedDistinct(a: seq<Zip.File>, b: seq<Zip.File>)
    requires multiset(a) == multiset(b) && Zip.DistinctPaths(a)
    ensures Zip.DistinctPaths(b)
  {
    DistinctPermutes(a, b, (f: Zip.File) => f.path);
  }

  /**
   * A document titled with the Angstrom sign: the worker's package is built, and its own verifier
   * rejects it, because the archive holds the path in normal form and the manifest does not.
   */
  lemma AngstromTitleRejected(sha256: Bytes -> Text)
    requires forall b :: IsDigest(sha256(b))
    ensures Example(sha256).Lawful() && CHARACTERS.Lawful() && IsWorkerPath(CHARACTERS, TitleFile().path)
    ensures var package := Package(Example(sha256), [], [TitleFile()], Null, []);
            package.Ok? && Failures(Example(sha256), package.value) != []
  {
    hide Platform.Lawful, Zip.IsPath, Units, Decoded, AtMost, Zip.Created, Packed, Failures, TitlePath, ManifestJson, ChecksumText, IsWorkerPath, ManifestOf;
    var p := Example(sha256);
    ExampleLawful(sha256);
    TitlePathIs();
    TitleChanges();
    TitleManifest(p);
    var m := ManifestOf(p, [], [TitleFile()], Null, []);
    TitlePacked(p, p.encode(Encode(ManifestJson(m)).value), p.encode(ChecksumText(p, m.entries)));
    WorkerPackageVerifies(p, CHARACTERS, [], [TitleFile()], Null, []);
  }
}
