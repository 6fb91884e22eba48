/** The laws assumed of the platform can be met, also together with a hash that does not collide where it is used. */
module PlatformExample {
  import opened Results
  import opened Bytes
  import opened Text
  import opened Ordering
  import opened Platform
  import opened CanonicalJson
  import opened Evidence
  import opened Archive
  import opened ArchiveLaws
  import CanonicalJsonLaws

  /* ---- A platform: one composition, two bytes a code unit, the order of code units ---- */

  function Units(t: Text): (b: Bytes)
    ensures |b| == 2 * |t|
  {
    if t == [] then [] else Units(t[..|t| - 1]) + Le16(t[|t| - 1])
  }

  function UnitsBack(b: Bytes): (t: Text)
    ensures |t| == |b| / 2
  {
    seq(|b| / 2, i requires 0 <= i < |b| / 2 => U16(b, 2 * i))
  }

  lemma {:induction false} UnitAt(t: Text, i: nat)
    requires i < |t|
    ensures Units(t)[2 * i..2 * i + 2] == Le16(t[i])
  {
    hide Le16;
    if i < |t| - 1 {
      UnitAt(t[..|t| - 1], i);
      assert Units(t)[2 * i..2 * i + 2] == Units(t[..|t| - 1])[2 * i..2 * i + 2];
    }
  }

  lemma UnitsRead(t: Text)
    ensures UnitsBack(Units(t)) == t
  {
    hide Units, Le16, U16;
    forall i | 0 <= i < |t| ensures UnitsBack(Units(t))[i] == t[i] {
      UnitAt(t, i);
      ReadLe16(Units(t), 2 * i, t[i]);
    }
  }

  function Decoded(b: Bytes): Option<Text> {
    var t := UnitsBack(b);
    if !WellFormed(t) then None else if Marked(t) then Some(t[1..]) else Some(t)
  }

  lemma DecodedWellFormed(b: Bytes)
    requires Decoded(b).Some?
    ensures WellFormed(Decoded(b).value)
  {
    hide UnitsBack;
  }

  const ANGSTROM: Unit := 0x212b
  const A_RING: Unit := 0xc5

  /** As far as one character goes: the Angstrom sign becomes the letter A with a ring. */
  function Composed(t: Text): (r: Text)
    ensures |r| == |t|
    ensures forall i :: 0 <= i < |t| ==> r[i] == if t[i] == ANGSTROM then A_RING else t[i]
  {
    seq(|t|, i requires 0 <= i < |t| => if t[i] == ANGSTROM then A_RING else t[i])
  }

  lemma ComposedLaws(t: Text)
    ensures IsAscii(t) ==> Composed(t) == t
    ensures HasTerminator(Composed(t)) <==> HasTerminator(t)
  {
    if IsAscii(t) {
      assert forall i :: 0 <= i < |t| ==> t[i] in t;
    }
    if HasTerminator(t) {
      var u :| u in t && IsTerminator(u);
      var i :| 0 <= i < |t| && t[i] == u;
      assert Composed(t)[i] == u;
    }
    if HasTerminator(Composed(t)) {
      var u :| u in Composed(t) && IsTerminator(u);
      var i :| 0 <= i < |t| && Composed(t)[i] == u;
      assert t[i] == u;
    }
  }

  /** The example's platform, with a hash of choice. */
  function Example(sha256: Bytes -> Text): Platform {
    Platform(Composed, Units, Decoded, AtMost, sha256)
  }

  lemma CodeUnitsCompare()
    ensures Comparator(AtMost)
  {
    forall a, b ensures AtMost(a, b) || AtMost(b, a) {
      AtMostTotal(a, b);
    }
    forall a, b, c | AtMost(a, b) && AtMost(b, c) ensures AtMost(a, c) {
      AtMostTransitive(a, b, c);
    }
  }

  /** Any hash of 64 hexadecimal digits makes a lawful platform. */
  lemma ExampleLawful(sha256: Bytes -> Text)
    requires forall b :: IsDigest(sha256(b))
    ensures Example(sha256).Lawful()
  {
    hide AtMost, Units, UnitsBack, WellFormed, IsDigest, Composed, HasTerminator;
    var p := Example(sha256);
    forall t ensures IsAscii(t) ==> p.normalize(t) == t
             ensures HasTerminator(p.normalize(t)) <==> HasTerminator(t) {
      ComposedLaws(t);
    }
    CodeUnitsCompare();
    forall t
      ensures p.decode(p.encode(t)) == Some(t) <==> WellFormed(t) && !Marked(t)
      ensures WellFormed(t) && Marked(t) ==> p.decode(p.encode(t)) == Some(t[1..])
    {
      UnitsRead(t);
    }
    forall b | p.decode(b).Some? ensures WellFormed(p.decode(b).value) {
      DecodedWellFormed(b);
    }
  }

  /* ---- A delivery that meets every hypothesis of the tamper theorem ---- */

  /** Tells the empty string from all others. */
  function EmptyHash(b: Bytes): Text {
    seq(64, i => if b == [] then '0' as int else '1' as int)
  }

  const SAMPLE := Case([], [], [], [], DigitalApproval, [], Some([]), [Document([], Some([]))], [], [], Some([]))

  function SampleFile(): EvidenceFile {
    EvidenceFile(Lit("content/a"), [], [])
  }

  lemma SamplePath()
    ensures IsPackagePath(Lit("content/a")) && CategoryOf(Lit("content/a")) == Content
  {
    var t := Lit("content/a");
    assert t[..8] == Lit("content/");
    assert t[8..] == Lit("a");
  }

  lemma SampleBuilt(p: Platform)
    ensures Built(p, SAMPLE, [SampleFile()]).Ok? && Built(p, SAMPLE, [SampleFile()]).value.files == [SampleFile()]
  {
    hide IsPackagePath, CategoryOf, ManifestSha;
    SamplePath();
    var f := SampleFile();
    var entries := ArchiveEntries(p, [f]);
    assert entries == [ArchiveEntryOf(p, f)];
    assert Sort(entries, EntryOrder(p)) == entries;
    assert Sort([f], FileOrder(p)) == [f];
    assert entries[0].category == Content;
  }

  /** Whatever the manifest's text, two strings are hashed, and only one of them is empty. */
  lemma HashTells(p: Platform, pkg: Package)
    requires p.sha256 == EmptyHash && pkg.files == [SampleFile()] && p.encode(ManifestText(pkg.manifest)) != []
    ensures InjectiveOn(p.sha256, Hashed(p, pkg, pkg.manifest, pkg.files))
  {
    hide ManifestText;
    var text := p.encode(ManifestText(pkg.manifest));
    assert EmptyHash([])[0] != EmptyHash(text)[0];
    assert Hashed(p, pkg, pkg.manifest, pkg.files) == {text, []};
  }

  lemma EmptyHashDigests()
    ensures forall b :: IsDigest(EmptyHash(b))
  {
  }

  lemma TextNotEmpty(m: ArchiveManifest)
    ensures Units(ManifestText(m)) != []
  {
    hide Encode, Encodable, ArchiveManifestJson;
    ManifestEncodable(m);
    CanonicalJsonLaws.EncodedWellFormed(ArchiveManifestJson(m));
  }

  /** A lawful platform, a built package, and a hash that tells apart all that is hashed: the theorem applies. */
  lemma TheoremApplies()
    ensures var p, a := Example(EmptyHash), [SampleFile()];
      && p.Lawful() && Built(p, SAMPLE, a).Ok?
      && (var pkg := Built(p, SAMPLE, a).value;
          && ArchiveFailures(p, pkg.manifest, pkg.files, pkg.manifestSha256) == []
          && InjectiveOn(p.sha256, Hashed(p, pkg, pkg.manifest, pkg.files)))
  {
    hide Built, ArchiveFailures, ManifestText, Units, Decoded, AtMost, EmptyHash, SampleFile, SAMPLE, InjectiveOn, Hashed, IsDigest, Platform.Lawful;
    var p, a := Example(EmptyHash), [SampleFile()];
    EmptyHashDigests();
    ExampleLawful(EmptyHash);
    SampleBuilt(p);
    BuiltVerifies(p, SAMPLE, a);
    TextNotEmpty(Built(p, SAMPLE, a).value.manifest);
    HashTells(p, Built(p, SAMPLE, a).value);
  }
}
