/** The paths under which the worker packs evidence, and what is left of the condition for them. */
module WorkerPaths {
  import opened Text
  import opened Platform
  import opened CanonicalJson
  import opened Evidence
  import opened EvidenceVerifier
  import opened EvidenceRoundTrip
  import opened EvidencePaths
  import Zip

  const LOW_LINE: Unit := '_' as int

  datatype Characters = Characters(
    /** Whether \p{L} or \p{N} matches the code point. */
    word: nat -> bool,
    /** String.prototype.toLowerCase */
    lower: Text -> Text
  ) {
    /** Line terminators, the byte order mark and surrogates are neither letters nor numbers. */
    ghost predicate Lawful() {
      forall c :: c == 10 || c == 13 || c == 0x2028 || c == 0x2029 || c == BYTE_ORDER_MARK || 0xd800 <= c < 0xe000 ==> !word(c)
    }
  }

  /* ---- safeFileName ---- */

  /** replace(/[\\/\0\r\n]/g, '_') */
  function Separated(t: Text): (r: Text)
    ensures |r| == |t|
    ensures forall i :: 0 <= i < |r| ==> r[i] != '\\' as int && r[i] != Zip.SLASH && r[i] != 0
  {
    seq(|t|, i requires 0 <= i < |t| =>
      if t[i] == '\\' as int || t[i] == Zip.SLASH || t[i] == 0 || t[i] == 13 || t[i] == 10 then LOW_LINE else t[i])
  }

  function CodePoint(high: Unit, low: Unit): nat
    requires IsHigh(high) && IsLow(low)
  {
    0x1_0000 + (high - 0xd800) * 0x400 + (low - 0xdc00)
  }

  predicate Kept(c: Characters, point: nat) {
    c.word(point) || point == '.' as int || point == '_' as int || point == ' ' as int || point == '-' as int
  }

  /** replace(/[^\p{L}\p{N}._ -]/gu, '_'), a code point at a time */
  function Cleaned(c: Characters, t: Text): Text {
    if t == [] then []
    else if |t| >= 2 && IsHigh(t[0]) && IsLow(t[1]) then
      (if Kept(c, CodePoint(t[0], t[1])) then t[..2] else [LOW_LINE]) + Cleaned(c, t[2..])
    else (if Kept(c, t[0]) then t[..1] else [LOW_LINE]) + Cleaned(c, t[1..])
  }

  /** White space and line terminators, as trim removes them. */
  predicate IsSpace(u: Unit) {
    || 9 <= u <= 13 || u == 0x20 || u == 0xa0 || u == 0x1680 || 0x2000 <= u <= 0x200a
    || u == 0x2028 || u == 0x2029 || u == 0x202f || u == 0x205f || u == 0x3000 || u == BYTE_ORDER_MARK
  }

  function Trimmed(t: Text): Text {
    if t == [] then []
    else if IsSpace(t[0]) then Trimmed(t[1..])
    else if IsSpace(t[|t| - 1]) then Trimmed(t[..|t| - 1])
    else t
  }

  predicate EndsWith(t: Text, end: Text) {
    |t| >= |end| && t[|t| - |end|..] == end
  }

  function SafeFileName(c: Characters, value: Text): Text {
    var cleaned := Trimmed(Cleaned(c, Separated(value)));
    if EndsWith(c.lower(cleaned), Lit(".pdf")) then cleaned else cleaned + Lit(".pdf")
  }

  /* ---- The name, character by character ---- */

  predicate IsKeptMark(u: Unit) {
    u == 0x2e || u == 0x5f || u == 0x20 || u == 0x2d
  }

  /** One code point: letters, numbers and four marks stay, separators and all else become a low line. */
  lemma NameStep(c: Characters, u: Unit, v: Unit, rest: Text)
    ensures Cleaned(c, Separated([])) == []
    ensures IsHigh(u) && IsLow(v) ==>
              Cleaned(c, Separated([u, v] + rest))
              == (if c.word(0x1_0000 + (u - 0xd800) * 0x400 + (v - 0xdc00)) then [u, v] else [0x5f]) + Cleaned(c, Separated(rest))
    ensures !(IsHigh(u) && rest != [] && IsLow(rest[0])) ==>
              Cleaned(c, Separated([u] + rest))
              == (if u != 0 && u != 10 && u != 13 && u != 0x2f && u != 0x5c && (c.word(u) || IsKeptMark(u)) then [u] else [0x5f])
                 + Cleaned(c, Separated(rest))
  {
    var (one, two) := (Separated([u] + rest), Separated([u, v] + rest));
    assert one[1..] == Separated(rest);
    if IsHigh(u) && IsLow(v) {
      assert two[2..] == Separated(rest) && two[..2] == [u, v];
    }
  }

  /** White space lies before and behind the stretch, and not at its ends. */
  predicate IsTrim(t: Text, from: nat, to: nat) {
    && from <= to <= |t|
    && (forall i :: 0 <= i < from ==> IsSpace(t[i])) && (forall i :: to <= i < |t| ==> IsSpace(t[i]))
    && (from < to ==> !IsSpace(t[from]) && !IsSpace(t[to - 1]))
  }

  /** Trimming takes white space from both ends, and leaves none there. */
  lemma {:induction false} TrimmedIs(t: Text) returns (from: nat, to: nat)
    ensures IsTrim(t, from, to) && Trimmed(t) == t[from..to]
  {
    hide IsSpace, IsTrim;
    if t != [] && IsSpace(t[0]) {
      var f, e := TrimmedIs(t[1..]);
      from, to := f + 1, e + 1;
      TrimFront(t, f, e);
    } else if t != [] && IsSpace(t[|t| - 1]) {
      from, to := TrimmedIs(t[..|t| - 1]);
      TrimBack(t, from, to);
    } else {
      from, to := 0, |t|;
      TrimNothing(t);
    }
  }

  lemma TrimFront(t: Text, from: nat, to: nat)
    requires t != [] && IsSpace(t[0]) && IsTrim(t[1..], from, to)
    ensures IsTrim(t, from + 1, to + 1) && t[from + 1..to + 1] == t[1..][from..to]
  {
    hide IsSpace;
    assert forall i :: 0 <= i < |t| - 1 ==> t[1..][i] == t[i + 1];
    forall i | 0 <= i < |t| && (i < from + 1 || i >= to + 1) ensures IsSpace(t[i]) {
      if i > 0 {
        assert t[1..][i - 1] == t[i];
      }
    }
  }

  lemma TrimBack(t: Text, from: nat, to: nat)
    requires t != [] && IsSpace(t[|t| - 1]) && IsTrim(t[..|t| - 1], from, to)
    ensures IsTrim(t, from, to) && t[from..to] == t[..|t| - 1][from..to]
  {
    hide IsSpace;
    assert forall i :: 0 <= i < |t| - 1 ==> t[..|t| - 1][i] == t[i];
  }

  lemma TrimNothing(t: Text)
    requires t == [] || (!IsSpace(t[0]) && !IsSpace(t[|t| - 1]))
    ensures IsTrim(t, 0, |t|) && t[0..|t|] == t
  {
  }

  /** The ending is added unless the lower-case name has it. */
  lemma NameEnds(c: Characters, value: Text)
    ensures var name := Trimmed(Cleaned(c, Separated(value)));
            var lower := c.lower(name);
            SafeFileName(c, value)
            == if |lower| >= 4 && lower[|lower| - 4..] == [0x2e, 0x70, 0x64, 0x66] then name else name + [0x2e, 0x70, 0x64, 0x66]
  {
    assert Lit(".pdf") == [0x2e, 0x70, 0x64, 0x66];
  }

  /* ---- What is left in a name ---- */

  /** Unicode text without separators, line terminators and byte order marks. */
  predicate IsPlain(t: Text) {
    WellFormed(t)
    && forall u :: u in t ==> !IsTerminator(u) && u != BYTE_ORDER_MARK && u != Zip.SLASH && u != '\\' as int && u != 0
  }

  predicate HoldsNoSeparator(t: Text) {
    forall u :: u in t ==> u != Zip.SLASH && u != '\\' as int && u != 0
  }

  lemma {:induction false} CleanedPlain(c: Characters, t: Text)
    requires c.Lawful() && HoldsNoSeparator(t)
    ensures IsPlain(Cleaned(c, t))
  {
    if t != [] {
      var pair := |t| >= 2 && IsHigh(t[0]) && IsLow(t[1]);
      var (first, rest) := if pair then (t[..2], t[2..]) else (t[..1], t[1..]);
      assert forall u :: u in rest ==> u in t;
      assert forall u :: u in first ==> u in t;
      CleanedPlain(c, rest);
      var kept := if Kept(c, if pair then CodePoint(t[0], t[1]) else t[0]) then first else [LOW_LINE];
      KeptPlain(c, t, kept);
      PlainConcat(kept, Cleaned(c, rest));
    }
  }

  /** What a code point of the text is replaced by. */
  lemma KeptPlain(c: Characters, t: Text, kept: Text)
    requires c.Lawful() && HoldsNoSeparator(t) && t != []
    requires var pair := |t| >= 2 && IsHigh(t[0]) && IsLow(t[1]);
             || kept == [LOW_LINE]
             || (pair && kept == t[..2])
             || (!pair && Kept(c, t[0]) && kept == t[..1])
    ensures IsPlain(kept)
  {
    if |t| >= 2 && kept == t[..2] {
      assert kept[0] == t[0] && kept[1] == t[1] && kept[2..] == [];
      assert t[0] in t && t[1] in t;
    } else {
      assert kept[1..] == [];
      assert t[0] in t;
    }
  }

  lemma PlainConcat(a: Text, b: Text)
    requires IsPlain(a) && IsPlain(b)
    ensures IsPlain(a + b)
  {
    hide WellFormed;
    WellFormedConcat(a, b);
  }

  lemma {:induction false} WellFormedFront(t: Text)
    requires WellFormed(t) && t != [] && !IsHigh(t[|t| - 1]) && !IsLow(t[|t| - 1])
    ensures WellFormed(t[..|t| - 1])
  {
    if IsHigh(t[0]) {
      WellFormedFront(t[2..]);
      assert t[2..][..|t| - 3] == t[..|t| - 1][2..];
    } else if |t| > 1 {
      WellFormedFront(t[1..]);
      assert t[1..][..|t| - 2] == t[..|t| - 1][1..];
    }
  }

  lemma FrontPlain(t: Text, front: Text)
    requires IsPlain(t) && WellFormed(front) && front <= t
    ensures IsPlain(front)
  {
    hide WellFormed;
    forall u | u in front ensures u in t {
      var i :| 0 <= i < |front| && front[i] == u;
      assert t[i] == u;
    }
  }

  lemma {:induction false} TrimmedPlain(t: Text)
    requires IsPlain(t)
    ensures IsPlain(Trimmed(t))
  {
    if t != [] && IsSpace(t[0]) {
      assert forall u :: u in t[1..] ==> u in t;
      TrimmedPlain(t[1..]);
    } else if t != [] && IsSpace(t[|t| - 1]) {
      var front := t[..|t| - 1];
      WellFormedFront(t);
      FrontPlain(t, front);
      TrimmedPlain(front);
    }
  }

  /** Whatever the title, the file name made of it is plain. */
  lemma SafeNamePlain(c: Characters, value: Text)
    requires c.Lawful()
    ensures IsPlain(SafeFileName(c, value))
  {
    hide Cleaned, Trimmed, EndsWith, IsPlain;
    CleanedPlain(c, Separated(value));
    TrimmedPlain(Cleaned(c, Separated(value)));
    SuffixPlain();
    PlainConcat(Trimmed(Cleaned(c, Separated(value))), Lit(".pdf"));
  }

  lemma SuffixPlain()
    ensures IsPlain(Lit(".pdf"))
  {
    hide WellFormed;
    PlainWellFormed(Lit(".pdf"));
  }

  /* ---- The worker's paths ---- */

  /** Printable ASCII: the fixed parts of the paths, ordinals and row ids. */
  predicate IsPrintable(t: Text) {
    forall u :: u in t ==> 0x20 <= u < 0x7f
  }

  /** A printable path, or one that ends in the file name of a title. */
  ghost predicate IsWorkerPath(c: Characters, path: Text) {
    IsPrintable(path) || exists prefix, value :: IsPrintable(prefix) && path == prefix + SafeFileName(c, value)
  }

  /** Unicode text that is read back as it is and makes one line. */
  predicate IsHarmless(t: Text) {
    WellFormed(t) && forall u :: u in t ==> !IsTerminator(u) && u != BYTE_ORDER_MARK
  }

  lemma WorkerPathHarmless(c: Characters, path: Text)
    requires c.Lawful() && IsWorkerPath(c, path)
    ensures IsHarmless(path)
  {
    hide WellFormed, SafeFileName, IsPrintable;
    if IsPrintable(path) {
      PrintableHarmless(path);
    } else {
      var prefix, value :| IsPrintable(prefix) && path == prefix + SafeFileName(c, value);
      PrintableHarmless(prefix);
      SafeNamePlain(c, value);
      WellFormedConcat(prefix, SafeFileName(c, value));
    }
  }

  lemma PrintableHarmless(t: Text)
    requires IsPrintable(t)
    ensures IsHarmless(t)
  {
    hide WellFormed;
    assert forall i :: 0 <= i < |t| ==> t[i] in t;
    PlainWellFormed(t);
  }

  lemma HarmlessIs(t: Text)
    requires IsHarmless(t)
    ensures WellFormed(t) && !HasTerminator(t) && !Marked(t)
  {
    hide WellFormed;
    if t != [] {
      assert t[0] in t;
    }
  }

  lemma PackagePaths(p: Platform, caseId: Text, files: seq<EvidenceFile>, metadata: Json, createdAt: Text)
    requires Package(p, caseId, files, metadata, createdAt).Ok?
    ensures forall f :: f in files ==> Zip.IsPath(f.path)
  {
    hide Encode, Packed, Zip.IsPath, ChecksumText, ManifestJson, Zip.Assembled;
    var m := ManifestOf(p, caseId, files, metadata, createdAt);
    var (manifest, checksums) := (p.encode(Encode(ManifestJson(m)).value), p.encode(ChecksumText(p, m.entries)));
    var packed := Packed(p, files, manifest, checksums);
    PackedMembers(p, files, manifest, checksums);
    forall f | f in files ensures Zip.IsPath(f.path) {
      var i :| 0 <= i < |files| && files[i] == f;
      assert ZipFiles(files)[i] in packed;
      var k :| 0 <= k < |packed| && packed[k] == ZipFiles(files)[i];
      assert Zip.ValidatePath(p, packed[k].path).Ok?;
    }
  }

  /** The worker's package verifies exactly when every path is its own normal form: no title is at fault otherwise. */
  lemma WorkerPackageVerifies(p: Platform, c: Characters, caseId: Text, files: seq<EvidenceFile>, metadata: Json, createdAt: Text)
    requires p.Lawful() && c.Lawful() && IsValue(metadata) && Package(p, caseId, files, metadata, createdAt).Ok?
    requires forall f :: f in files ==> IsWorkerPath(c, f.path)
    ensures Failures(p, Package(p, caseId, files, metadata, createdAt).value) == []
       <==> forall f :: f in files ==> p.normalize(f.path) == f.path
  {
    hide Failures, Package, HasTerminator, WellFormed, IsWorkerPath, IsHarmless, Zip.IsPath;
    BuiltPackageVerifies(p, caseId, files, metadata, createdAt);
    PackagePaths(p, caseId, files, metadata, createdAt);
    forall f | f in files ensures GoodPath(p, f.path) && !HasTerminator(f.path) <==> p.normalize(f.path) == f.path {
      WorkerPathHarmless(c, f.path);
      HarmlessIs(f.path);
    }
  }
}
