/** The signed revisions of one document, each appended to the one it was made from. */
module Revisions {
  import opened Results
  import opened Bytes
  import opened Text
  import opened Platform

  /** What validation and the admission gate made of a revision. */
  datatype Verdict = Unjudged | TotalPassed | AdmittedOtherwise | Rejected

  /** A recorded signature artifact. */
  datatype Revision = Revision(inputSha: Text, sha: Text, bytes: Bytes, verdict: Verdict)

  /** A document version: its canonical PDF, the hash every signer consents to, and its artifacts in order of insertion. */
  datatype Document = Document(canonical: Bytes, consentedSha: Text, revisions: seq<Revision>)

  const CANONICAL_MISMATCH := "CANONICAL_DOCUMENT_HASH_MISMATCH"
  const REVISION_MISMATCH := "SIGNED_REVISION_HASH_MISMATCH"
  const ARTIFACT_MISMATCH := "SIGNSERVICE_ARTIFACT_HASH_MISMATCH"
  const NOT_INCREMENTAL := "SIGNED_REVISION_NOT_INCREMENTAL"
  const NOT_FIRST := "the first signature on a document must be applied to its canonical revision"
  const NOT_CONTINUING := "signature must continue from an existing signed revision of the same document"
  const BRANCHES := "two signatures cannot branch from the same document revision"

  method IsPrefix(prefix: Bytes, whole: Bytes) returns (r: bool)
    ensures r <==> prefix <= whole
  {
    if |whole| < |prefix| {
      return false;
    }
    for index := 0 to |prefix|
      invariant prefix[..index] == whole[..index]
    {
      if prefix[index] != whole[index] {
        return false;
      }
    }
    r := true;
  }

  /** loadLatestRevision's query: passed validation, and no artifact made from it. */
  predicate IsLatest(revisions: seq<Revision>, i: nat) {
    && i < |revisions| && revisions[i].verdict == TotalPassed
    && forall j :: 0 <= j < |revisions| ==> revisions[j].inputSha != revisions[i].sha
  }

  /** The database may pick any row that qualifies, and none only when none does. */
  ghost predicate MayLoad(revisions: seq<Revision>, latest: Option<nat>) {
    match latest
    case Some(i) => IsLatest(revisions, i)
    case None => forall i :: 0 <= i < |revisions| ==> !IsLatest(revisions, i)
  }

  /** The hash that the downloaded bytes must have. */
  function ExpectedSha(d: Document, latest: Option<nat>): Text
    requires latest.Some? ==> latest.value < |d.revisions|
  {
    if latest.Some? then d.revisions[latest.value].sha else d.consentedSha
  }

  /** The database's guard on inserted artifacts. */
  function CheckChain(revisions: seq<Revision>, canonicalSha: Text, inputSha: Text): Option<string> {
    if revisions == [] then if inputSha != canonicalSha then Some(NOT_FIRST) else None
    else if forall r :: r in revisions ==> r.sha != inputSha then Some(NOT_CONTINUING)
    else if exists r :: r in revisions && r.inputSha == inputSha then Some(BRANCHES)
    else None
  }

  /** One document's turn in handlePadesCreate: storage's bytes, the sign service's bytes and the hash it claims. */
  function Signed(d: Document, latest: Option<nat>, stored: Bytes, signed: Bytes, claimedSha: Text, sha256: Bytes -> Text): Result<Document>
    requires latest.Some? ==> latest.value < |d.revisions|
  {
    if sha256(stored) != ExpectedSha(d, latest) then Err(if latest.Some? then REVISION_MISMATCH else CANONICAL_MISMATCH)
    else if sha256(signed) != claimedSha then Err(ARTIFACT_MISMATCH)
    else if !(stored <= signed) then Err(NOT_INCREMENTAL)
    else match CheckChain(d.revisions, d.consentedSha, sha256(stored))
      case Some(e) => Err(e)
      case None => Ok(d.(revisions := d.revisions + [Revision(sha256(stored), sha256(signed), signed, Unjudged)]))
  }

  /** Validation judges a revision once. */
  function Judged(d: Document, i: nat, verdict: Verdict): Document {
    if i < |d.revisions| && d.revisions[i].verdict == Unjudged
    then d.(revisions := d.revisions[i := d.revisions[i].(verdict := verdict)]) else d
  }

  class SigningRoom {
    var document: Document

    constructor (document: Document)
      ensures this.document == document
    {
      this.document := document;
    }

    method Sign(latest: Option<nat>, stored: Bytes, signed: Bytes, claimedSha: Text, sha256: Bytes -> Text) returns (r: Result<()>)
      requires latest.Some? ==> latest.value < |document.revisions|
      modifies this
      ensures match Signed(old(document), latest, stored, signed, claimedSha, sha256)
              case Err(e) => r == Err(e) && document == old(document)
              case Ok(d) => r.Ok? && document == d
    {
      var inputSha := sha256(stored);
      if inputSha != ExpectedSha(document, latest) {
        return Err(if latest.Some? then REVISION_MISMATCH else CANONICAL_MISMATCH);
      }
      var actualSha := sha256(signed);
      if actualSha != claimedSha {
        return Err(ARTIFACT_MISMATCH);
      }
      var incremental := IsPrefix(stored, signed);
      if !incremental {
        return Err(NOT_INCREMENTAL);
      }
      var refused := CheckChain(document.revisions, document.consentedSha, inputSha);
      if refused.Some? {
        return Err(refused.value);
      }
      document := document.(revisions := document.revisions + [Revision(inputSha, actualSha, signed, Unjudged)]);
      r := Ok(());
    }

    method Judge(i: nat, verdict: Verdict)
      modifies this
      ensures document == Judged(old(document), i, verdict)
    {
      if i < |document.revisions| && document.revisions[i].verdict == Unjudged {
        document := document.(revisions := document.revisions[i := document.revisions[i].(verdict := verdict)]);
      }
    }
  }

  /* ---- Runs ---- */

  /** Another signer's attempt, or a verdict; whatever storage and the sign service return. */
  datatype Step =
    | DoSign(latest: Option<nat>, stored: Bytes, signed: Bytes, claimedSha: Text)
    | DoJudge(i: nat, verdict: Verdict)

  function Apply(d: Document, step: Step, sha256: Bytes -> Text): Document {
    match step
    case DoSign(latest, stored, signed, claimedSha) =>
      if latest.Some? && latest.value >= |d.revisions| then d
      else (match Signed(d, latest, stored, signed, claimedSha, sha256)
        case Err(_) => d
        case Ok(next) => next)
    case DoJudge(i, verdict) => Judged(d, i, verdict)
  }

  function Run(d: Document, steps: seq<Step>, sha256: Bytes -> Text): Document {
    if steps == [] then d else Apply(Run(d, steps[..|steps| - 1], sha256), steps[|steps| - 1], sha256)
  }

  /** The byte strings of the document. */
  ghost function Strings(d: Document): set<Bytes> {
    {d.canonical} + set r | r in d.revisions :: r.bytes
  }

  /** The byte strings that the storage and the sign service return in a run. */
  ghost function Returned(steps: seq<Step>): set<Bytes> {
    (set s | s in steps && s.DoSign? :: s.stored) + (set s | s in steps && s.DoSign? :: s.signed)
  }

  /** The revision before revision i; before the first one, the canonical PDF. */
  function Before(d: Document, i: nat): Bytes
    requires i < |d.revisions|
  {
    if i == 0 then d.canonical else d.revisions[i - 1].bytes
  }

  /** Revision i is hashed truly, made from the one before it, and appended to it. */
  ghost predicate Follows(d: Document, i: nat, sha256: Bytes -> Text)
    requires i < |d.revisions|
  {
    var r := d.revisions[i];
    r.sha == sha256(r.bytes) && r.inputSha == sha256(Before(d, i)) && Before(d, i) <= r.bytes
  }

  /** One line of revisions, from the canonical PDF whose hash was consented to. */
  ghost predicate OneLine(d: Document, sha256: Bytes -> Text) {
    && sha256(d.canonical) == d.consentedSha
    && forall i :: 0 <= i < |d.revisions| ==> Follows(d, i, sha256)
  }

  /** The bytes at the end of the line. */
  function Latest(d: Document): Bytes {
    if d.revisions == [] then d.canonical else d.revisions[|d.revisions| - 1].bytes
  }

  lemma Hashes(d: Document, sha256: Bytes -> Text, i: nat)
    requires OneLine(d, sha256) && i < |d.revisions|
    ensures d.revisions[i].inputSha == sha256(Before(d, i)) && d.revisions[i].sha == sha256(d.revisions[i].bytes)
    ensures Before(d, i) <= d.revisions[i].bytes
  {
    hide Before;
    assert Follows(d, i, sha256);
  }

  /** Every revision but the last has been continued from. */
  lemma InputUsed(d: Document, sha256: Bytes -> Text, i: nat)
    requires OneLine(d, sha256) && i + 1 < |d.revisions|
    ensures d.revisions[i + 1].inputSha == d.revisions[i].sha
  {
    hide OneLine;
    Hashes(d, sha256, i + 1);
    Hashes(d, sha256, i);
  }

  lemma LatestHash(d: Document, sha256: Bytes -> Text)
    requires OneLine(d, sha256)
    ensures sha256(Latest(d)) == if d.revisions == [] then d.consentedSha else d.revisions[|d.revisions| - 1].sha
  {
    hide Follows;
    if d.revisions != [] {
      Hashes(d, sha256, |d.revisions| - 1);
    }
  }

  lemma EarlierRefused(d: Document, sha256: Bytes -> Text, i: nat)
    requires OneLine(d, sha256) && i + 1 < |d.revisions|
    ensures CheckChain(d.revisions, d.consentedSha, d.revisions[i].sha).Some?
  {
    hide OneLine;
    InputUsed(d, sha256, i);
    assert d.revisions[i + 1] in d.revisions;
  }

  /** The guard admits only continuations of the last revision. */
  lemma OnlyLastContinues(d: Document, sha256: Bytes -> Text, inputSha: Text)
    requires OneLine(d, sha256) && CheckChain(d.revisions, d.consentedSha, inputSha) == None
    ensures inputSha == sha256(Latest(d))
  {
    hide OneLine, Latest;
    LatestHash(d, sha256);
    if d.revisions != [] {
      var r :| r in d.revisions && r.sha == inputSha;
      var i :| 0 <= i < |d.revisions| && d.revisions[i] == r;
      if i + 1 < |d.revisions| {
        EarlierRefused(d, sha256, i);
      }
    }
  }

  /** The later state keeps every revision apart from its verdict. */
  ghost predicate Extends(d: Document, next: Document) {
    && |d.revisions| <= |next.revisions| && next.canonical == d.canonical && next.consentedSha == d.consentedSha
    && forall i :: 0 <= i < |d.revisions| ==> SameButVerdict(d.revisions[i], next.revisions[i])
  }

  predicate SameButVerdict(r: Revision, s: Revision) {
    r.inputSha == s.inputSha && r.sha == s.sha && r.bytes == s.bytes
  }

  lemma FollowsStays(d: Document, next: Document, i: nat, sha256: Bytes -> Text)
    requires Extends(d, next) && i < |d.revisions| && Follows(d, i, sha256)
    ensures Follows(next, i, sha256)
  {
    assert SameButVerdict(d.revisions[i], next.revisions[i]);
    assert i > 0 ==> SameButVerdict(d.revisions[i - 1], next.revisions[i - 1]);
  }

  lemma AppendKeepsLine(d: Document, next: Document, sha256: Bytes -> Text)
    requires OneLine(d, sha256) && Extends(d, next)
    requires |next.revisions| > |d.revisions| ==> |next.revisions| == |d.revisions| + 1 && Follows(next, |d.revisions|, sha256)
    ensures OneLine(next, sha256)
  {
    hide Follows, Before, SameButVerdict;
    forall i | 0 <= i < |next.revisions| ensures Follows(next, i, sha256) {
      if i < |d.revisions| {
        FollowsStays(d, next, i, sha256);
      }
    }
  }

  lemma AppendFollows(d: Document, r: Revision, sha256: Bytes -> Text)
    requires r.sha == sha256(r.bytes) && r.inputSha == sha256(Latest(d)) && Latest(d) <= r.bytes
    ensures Follows(d.(revisions := d.revisions + [r]), |d.revisions|, sha256)
    ensures Extends(d, d.(revisions := d.revisions + [r]))
  {
    var next := d.(revisions := d.revisions + [r]);
    assert Before(next, |d.revisions|) == Latest(d);
  }

  lemma ApplyExtends(d: Document, step: Step, sha256: Bytes -> Text)
    ensures Extends(d, Apply(d, step, sha256))
  {
    hide CheckChain, ExpectedSha;
  }

  lemma SignKeepsLine(d: Document, latest: Option<nat>, stored: Bytes, signed: Bytes, claimedSha: Text, sha256: Bytes -> Text)
    requires OneLine(d, sha256) && InjectiveOn(sha256, {stored, Latest(d)}) && (latest.Some? ==> latest.value < |d.revisions|)
    requires Signed(d, latest, stored, signed, claimedSha, sha256).Ok?
    ensures OneLine(Signed(d, latest, stored, signed, claimedSha, sha256).value, sha256)
  {
    hide OneLine, Latest, CheckChain, ExpectedSha, Follows, Extends;
    OnlyLastContinues(d, sha256, sha256(stored));
    assert stored == Latest(d);
    var r := Revision(sha256(stored), sha256(signed), signed, Unjudged);
    AppendFollows(d, r, sha256);
    AppendKeepsLine(d, d.(revisions := d.revisions + [r]), sha256);
  }

  lemma LatestInStrings(d: Document)
    ensures Latest(d) in Strings(d)
  {
    if d.revisions != [] {
      assert d.revisions[|d.revisions| - 1] in d.revisions;
    }
  }

  lemma FewerStrings(sha256: Bytes -> Text, some: set<Bytes>, strings: set<Bytes>)
    requires InjectiveOn(sha256, strings) && some <= strings
    ensures InjectiveOn(sha256, some)
  {
  }

  ghost predicate StepWithin(step: Step, strings: set<Bytes>) {
    step.DoSign? ==> step.stored in strings && step.signed in strings
  }

  lemma StringsWithin(d: Document, step: Step, sha256: Bytes -> Text, strings: set<Bytes>)
    requires Strings(d) <= strings && StepWithin(step, strings)
    ensures Strings(Apply(d, step, sha256)) <= strings
  {
    hide CheckChain, ExpectedSha;
    var next := Apply(d, step, sha256);
    forall r | r in next.revisions ensures r.bytes in strings {
      var i :| 0 <= i < |next.revisions| && next.revisions[i] == r;
      if i < |d.revisions| {
        ApplyExtends(d, step, sha256);
        assert SameButVerdict(d.revisions[i], next.revisions[i]);
        assert d.revisions[i] in d.revisions;
      }
    }
    ApplyExtends(d, step, sha256);
  }

  lemma StepKeepsLine(d: Document, step: Step, sha256: Bytes -> Text, strings: set<Bytes>)
    requires OneLine(d, sha256) && InjectiveOn(sha256, strings) && Strings(d) <= strings && StepWithin(step, strings)
    ensures OneLine(Apply(d, step, sha256), sha256)
  {
    hide OneLine, Signed, Follows, Extends, InjectiveOn, Strings, Latest;
    match step
    case DoSign(latest, stored, signed, claimedSha) =>
      if (latest.Some? ==> latest.value < |d.revisions|) && Signed(d, latest, stored, signed, claimedSha, sha256).Ok? {
        LatestInStrings(d);
        FewerStrings(sha256, {stored, Latest(d)}, strings);
        SignKeepsLine(d, latest, stored, signed, claimedSha, sha256);
      }
    case DoJudge(i, verdict) =>
      ApplyExtends(d, step, sha256);
      AppendKeepsLine(d, Apply(d, step, sha256), sha256);
  }

  lemma {:induction false} RunWithin(d: Document, steps: seq<Step>, sha256: Bytes -> Text, strings: set<Bytes>)
    requires OneLine(d, sha256) && InjectiveOn(sha256, strings) && Strings(d) <= strings
    requires forall s :: s in steps ==> StepWithin(s, strings)
    ensures OneLine(Run(d, steps, sha256), sha256) && Strings(Run(d, steps, sha256)) <= strings
  {
    hide OneLine, Apply, InjectiveOn, Strings, StepWithin;
    if steps != [] {
      var before := Run(d, steps[..|steps| - 1], sha256);
      RunWithin(d, steps[..|steps| - 1], sha256, strings);
      StepKeepsLine(before, steps[|steps| - 1], sha256, strings);
      StringsWithin(before, steps[|steps| - 1], sha256, strings);
    }
  }

  /**
   * Every run of signatures and verdicts keeps one line of revisions, whatever the services return,
   * provided that no two byte strings of the document and of the run collide.
   */
  lemma RunKeepsLine(d: Document, steps: seq<Step>, sha256: Bytes -> Text)
    requires OneLine(d, sha256) && InjectiveOn(sha256, Strings(d) + Returned(steps))
    ensures OneLine(Run(d, steps, sha256), sha256)
  {
    hide OneLine, Run, InjectiveOn, Strings;
    RunWithin(d, steps, sha256, Strings(d) + Returned(steps));
  }

  lemma ExtendsTransitive(a: Document, b: Document, c: Document)
    requires Extends(a, b) && Extends(b, c)
    ensures Extends(a, c)
  {
    forall i | 0 <= i < |a.revisions| ensures SameButVerdict(a.revisions[i], c.revisions[i]) {
      assert SameButVerdict(a.revisions[i], b.revisions[i]) && SameButVerdict(b.revisions[i], c.revisions[i]);
    }
  }

  /** No run rewrites or drops a revision, the canonical PDF or the consented hash. */
  lemma {:induction false} RunExtends(d: Document, steps: seq<Step>, sha256: Bytes -> Text)
    ensures Extends(d, Run(d, steps, sha256))
  {
    if steps != [] {
      hide Extends, Apply;
      RunExtends(d, steps[..|steps| - 1], sha256);
      ApplyExtends(Run(d, steps[..|steps| - 1], sha256), steps[|steps| - 1], sha256);
      ExtendsTransitive(d, Run(d, steps[..|steps| - 1], sha256), Run(d, steps, sha256));
    }
  }

  lemma PrefixTransitive(a: Bytes, b: Bytes, c: Bytes)
    requires a <= b <= c
    ensures a <= c
  {
  }

  /** What revision i was made from, so also the consented canonical PDF and every earlier revision, is a byte prefix of every later one. */
  lemma {:induction false} EarlierArePrefixes(d: Document, sha256: Bytes -> Text, i: nat, j: nat)
    requires OneLine(d, sha256) && i <= j < |d.revisions|
    ensures Before(d, i) <= Before(d, j) <= d.revisions[j].bytes
    ensures d.canonical <= d.revisions[j].bytes
    ensures i < j ==> d.revisions[i].bytes <= d.revisions[j].bytes
    decreases j, i
  {
    hide OneLine;
    Hashes(d, sha256, j);
    if i < j {
      EarlierArePrefixes(d, sha256, i, j - 1);
      PrefixTransitive(Before(d, i), Before(d, j - 1), Before(d, j));
      PrefixTransitive(d.canonical, Before(d, j), d.revisions[j].bytes);
      if i < j - 1 {
        PrefixTransitive(d.revisions[i].bytes, Before(d, j), d.revisions[j].bytes);
      }
    } else if i > 0 {
      EarlierArePrefixes(d, sha256, i - 1, j);
    }
  }

  /** Where the guard lets signing go on. */
  predicate CanContinue(d: Document) {
    var n := |d.revisions|;
    n == 0 || (d.revisions[n - 1].verdict == TotalPassed && d.revisions[n - 1].bytes != Before(d, n - 1))
  }

  lemma EarlierNotLatest(d: Document, sha256: Bytes -> Text, i: nat)
    requires OneLine(d, sha256) && i + 1 < |d.revisions|
    ensures !IsLatest(d.revisions, i)
  {
    hide OneLine;
    InputUsed(d, sha256, i);
  }

  lemma BeforeInStrings(d: Document, i: nat)
    requires i < |d.revisions|
    ensures Before(d, i) in Strings(d)
  {
    assert i > 0 ==> d.revisions[i - 1] in d.revisions;
  }

  /** Nothing was made from the last revision, if it added something to its input. */
  lemma LastUnused(d: Document, sha256: Bytes -> Text, i: nat)
    requires OneLine(d, sha256) && InjectiveOn(sha256, Strings(d)) && i < |d.revisions|
    requires var n := |d.revisions|; d.revisions[n - 1].bytes != Before(d, n - 1)
    ensures d.revisions[i].inputSha != d.revisions[|d.revisions| - 1].sha
  {
    hide OneLine, Before;
    var n := |d.revisions|;
    EarlierArePrefixes(d, sha256, i, n - 1);
    Hashes(d, sha256, i);
    Hashes(d, sha256, n - 1);
    assert |Before(d, n - 1)| < |d.revisions[n - 1].bytes|;
    assert Before(d, i) != d.revisions[n - 1].bytes;
    BeforeInStrings(d, i);
    assert d.revisions[n - 1] in d.revisions;
  }

  lemma LastIsLatest(d: Document, sha256: Bytes -> Text)
    requires OneLine(d, sha256) && InjectiveOn(sha256, Strings(d)) && d.revisions != []
    ensures IsLatest(d.revisions, |d.revisions| - 1) <==> CanContinue(d)
  {
    hide OneLine, InjectiveOn, Before;
    var n := |d.revisions|;
    Hashes(d, sha256, n - 1);
    if CanContinue(d) {
      forall i | 0 <= i < n ensures d.revisions[i].inputSha != d.revisions[n - 1].sha {
        LastUnused(d, sha256, i);
      }
    }
  }

  /** The query finds the last revision or nothing. */
  lemma LoadsLastOrNone(d: Document, latest: Option<nat>, sha256: Bytes -> Text)
    requires OneLine(d, sha256) && InjectiveOn(sha256, Strings(d)) && MayLoad(d.revisions, latest)
    ensures latest == if d.revisions != [] && CanContinue(d) then Some(|d.revisions| - 1) else None
  {
    hide OneLine, InjectiveOn, CanContinue;
    if d.revisions != [] {
      LastIsLatest(d, sha256);
      if latest.Some? && latest.value + 1 < |d.revisions| {
        EarlierNotLatest(d, sha256, latest.value);
      }
    }
  }

  lemma ContinuesLast(d: Document, sha256: Bytes -> Text)
    requires OneLine(d, sha256) && InjectiveOn(sha256, Strings(d)) && d.revisions != [] && CanContinue(d)
    ensures CheckChain(d.revisions, d.consentedSha, d.revisions[|d.revisions| - 1].sha) == None
  {
    hide OneLine, InjectiveOn, Before;
    var last := d.revisions[|d.revisions| - 1];
    assert last in d.revisions;
    forall r | r in d.revisions ensures r.inputSha != last.sha {
      var i :| 0 <= i < |d.revisions| && d.revisions[i] == r;
      LastUnused(d, sha256, i);
    }
  }

  lemma CanonicalRefused(d: Document, sha256: Bytes -> Text)
    requires OneLine(d, sha256) && d.revisions != []
    ensures CheckChain(d.revisions, d.consentedSha, d.consentedSha).Some?
  {
    Hashes(d, sha256, 0);
    assert d.revisions[0] in d.revisions && d.revisions[0].inputSha == d.consentedSha;
  }

  /**
   * Where signing can go on: with honest services, a signature is recorded exactly when the document
   * is unsigned or its last revision passed validation and added to its input. After any other
   * verdict the fallback to the canonical PDF is refused by the guard.
   */
  lemma NextSignature(d: Document, latest: Option<nat>, stored: Bytes, signed: Bytes, sha256: Bytes -> Text)
    requires OneLine(d, sha256) && InjectiveOn(sha256, Strings(d)) && MayLoad(d.revisions, latest)
    requires latest.Some? ==> latest.value < |d.revisions|
    requires sha256(stored) == ExpectedSha(d, latest) && stored <= signed
    ensures Signed(d, latest, stored, signed, sha256(signed), sha256).Ok? <==> CanContinue(d)
  {
    hide OneLine, MayLoad, InjectiveOn;
    LoadsLastOrNone(d, latest, sha256);
    if d.revisions != [] {
      if CanContinue(d) {
        ContinuesLast(d, sha256);
      } else {
        CanonicalRefused(d, sha256);
      }
    }
  }

  /* ---- One signature, check by check ---- */

  /** The checks of a signature in order: hashes, then the bytes, then the chain. */
  lemma SignatureChecks(d: Document, latest: Option<nat>, stored: Bytes, signed: Bytes, claimedSha: Text, sha256: Bytes -> Text)
    requires latest.Some? ==> latest.value < |d.revisions|
    ensures var (r, input) := (Signed(d, latest, stored, signed, claimedSha, sha256), sha256(stored));
            if latest.None? && input != d.consentedSha then r == Err("CANONICAL_DOCUMENT_HASH_MISMATCH")
            else if latest.Some? && input != d.revisions[latest.value].sha then r == Err("SIGNED_REVISION_HASH_MISMATCH")
            else if sha256(signed) != claimedSha then r == Err("SIGNSERVICE_ARTIFACT_HASH_MISMATCH")
            else if |signed| < |stored| || exists i :: 0 <= i < |stored| && signed[i] != stored[i] then r == Err("SIGNED_REVISION_NOT_INCREMENTAL")
            else match CheckChain(d.revisions, d.consentedSha, input)
              case Some(e) => r == Err(e)
              case None => r == Ok(Document(d.canonical, d.consentedSha, d.revisions + [Revision(input, claimedSha, signed, Unjudged)]))
  {
    hide CheckChain;
    PrefixIs(stored, signed);
  }

  lemma PrefixIs(a: Bytes, b: Bytes)
    ensures a <= b <==> |a| <= |b| && forall i :: 0 <= i < |a| ==> b[i] == a[i]
  {
  }

  /** The chain's three refusals in order. */
  lemma ChainChecks(revisions: seq<Revision>, canonicalSha: Text, input: Text)
    ensures CheckChain(revisions, canonicalSha, input) ==
              if |revisions| == 0 then
                if input != canonicalSha then Some("the first signature on a document must be applied to its canonical revision") else None
              else if forall i :: 0 <= i < |revisions| ==> revisions[i].sha != input then
                Some("signature must continue from an existing signed revision of the same document")
              else if exists i :: 0 <= i < |revisions| && revisions[i].inputSha == input then
                Some("two signatures cannot branch from the same document revision")
              else None
  {
    if r :| r in revisions && r.sha == input {
      var i :| 0 <= i < |revisions| && revisions[i] == r;
    }
    if r :| r in revisions && r.inputSha == input {
      var i :| 0 <= i < |revisions| && revisions[i] == r;
    }
    if i :| 0 <= i < |revisions| && revisions[i].sha == input {
      assert revisions[i] in revisions;
    }
    if i :| 0 <= i < |revisions| && revisions[i].inputSha == input {
      assert revisions[i] in revisions;
    }
  }

  /** A verdict is recorded once, on its own revision, and changes nothing else. */
  lemma VerdictIs(d: Document, i: nat, verdict: Verdict)
    ensures Judged(d, i, verdict) ==
              if i < |d.revisions| && d.revisions[i].verdict == Unjudged then
                Document(d.canonical, d.consentedSha,
                         d.revisions[i := Revision(d.revisions[i].inputSha, d.revisions[i].sha, d.revisions[i].bytes, verdict)])
              else d
  {
  }
}
