/** What each signing job does to the rows, whatever the services around it answer. */
module SigningHandlers {
  import opened Results
  import opened SigningRows
  import opened SigningSafety
  import SigningProgress

  const NO_TRANSACTION := "IDENTITY_TRANSACTION_NOT_FOUND"
  const SESSION_TERMINAL := "TIC_SESSION_TERMINAL"
  const VALIDATE_STATE := "SIGNATURE_VALIDATE_STATE_INVALID"
  const NOT_VERIFIED := "SIGNING_INTENT_NOT_VERIFIED"
  const NOT_APPLICABLE := "PADES_NOT_APPLICABLE_TO_DECISION_MODE"
  const CREATE_STATE := "PADES_CREATE_STATE_INVALID"
  const NO_DOCUMENTS := "SIGNING_INTENT_HAS_NO_DOCUMENTS"
  const NO_SIGNABLE := "SIGNING_INTENT_HAS_NO_SIGNABLE_DOCUMENT"
  const NO_LEVEL := "ELECTRONIC_SIGNATURE_POLICY_REQUIRES_A_PADES_LEVEL"
  const NO_ARTIFACT := "SIGNATURE_ARTIFACT_NOT_FOUND"
  const PADES_STATE := "PADES_VALIDATE_STATE_INVALID"
  const NO_CASE := "SIGNATURE_CASE_NOT_FOUND"
  const NOT_EXPIRED := "CASE_NOT_EXPIRED_YET"
  const GUARD := "a database guard raised"

  /** What the identity provider's collect call gave: evidence, something unreadable, or no answer. */
  datatype Evidence = Readable | Unreadable(code: string) | Unavailable(code: string)

  /** A delivery of a job: its payload, with the answers its services give this time. */
  datatype Delivery =
    | TicCollect(transactionId: Id, evidence: Evidence)
    | ValidateIdentity(transactionId: Id, pass: Result<bool>)
    | CreatePades(intentId: Id, electronic: bool, leveled: bool, signatures: seq<Result<Id>>)
    | ValidatePades(intentId: Id, attemptId: Id, admitted: Result<bool>, group: set<Id>)
    | BuildSignerPackage(caseId: Id, signerId: Id)
    | BuildCasePackage(caseId: Id)
    | ExpireCase(caseId: Id, overdue: bool)

  datatype Handled = Handled(world: World, result: Result<()>)

  /** A transaction commits, or a guard rolls it back and the error escapes. */
  function Settle(w: World, outcome: Option<World>): Handled {
    match outcome
    case Some(v) => Handled(v, Ok(()))
    case None => Handled(w, Err(GUARD))
  }

  function CollectedEvidence(w: World, t: Id, evidence: Evidence): Handled {
    if t !in w.transactions || w.transactions[t].intentId !in w.intents then Handled(w, Err(NO_TRANSACTION))
    else if w.transactions[t].status == CompleteCollected || w.transactions[t].status == IdVerified then Handled(w, Ok(()))
    else if !IsWaiting(w.transactions[t]) then Handled(w, Err(SESSION_TERMINAL))
    else match evidence
      case Unavailable(code) => Handled(w, Err(code))
      case Unreadable(code) =>
        var failed := Settle(w, FailedIdentity(w, t));
        if failed.result.Ok? then Handled(failed.world, Err(code)) else failed
      case Readable => Settle(w, Collected(w, t))
  }

  function ValidatedIdentity(w: World, t: Id, pass: Result<bool>): Handled {
    if t !in w.transactions || w.transactions[t].intentId !in w.intents then Handled(w, Err(NO_TRANSACTION))
    else if w.transactions[t].status == IdVerified then Handled(w, Ok(()))
    else if w.transactions[t].status != CompleteCollected then Handled(w, Err(VALIDATE_STATE))
    else match pass
      case Err(e) => Handled(w, Err(e))
      case Ok(verdict) => Settle(w, IdentityJudged(w, t, verdict))
  }

  predicate IsVerified(w: World, intentId: Id) {
    intentId in w.intents && IsIdentified(w, intentId)
  }

  predicate HasAttempt(w: World, signerId: Id, versionId: Id) {
    exists a :: a in w.attempts && w.attempts[a].signerId == signerId && w.attempts[a].versionId == versionId
  }

  function Signable(documents: seq<IntentDocument>): (r: seq<IntentDocument>)
    ensures forall d :: d in r <==> d in documents && d.signable
  {
    if documents == [] then []
    else if documents[0].signable then [documents[0]] + Signable(documents[1..])
    else Signable(documents[1..])
  }

  /** The loop of handlePadesCreate over the documents that remain; signatures holds each one's new attempt, or why there is none. */
  function SignEach(w: World, i: Id, documents: seq<IntentDocument>, signatures: seq<Result<Id>>): Handled
    requires i in w.intents && |signatures| == |documents|
    decreases |documents|
  {
    if documents == [] then Handled(w, Ok(()))
    else if HasAttempt(w, w.intents[i].signerId, documents[0].versionId) then SignEach(w, i, documents[1..], signatures[1..])
    else match signatures[0]
      case Err(e) => Handled(w, Err(e))
      case Ok(a) =>
        if a in w.attempts then Handled(w, Err(GUARD))
        else SignEach(AttemptRecorded(w, i, documents[0].versionId, a).value, i, documents[1..], signatures[1..])
  }

  function CreatedPades(w: World, i: Id, electronic: bool, leveled: bool, signatures: seq<Result<Id>>): Handled
    requires i in w.intents ==> |signatures| == |Signable(w.intents[i].documents)|
  {
    if !IsVerified(w, i) then Handled(w, Err(NOT_VERIFIED))
    else if !electronic then Handled(w, Err(NOT_APPLICABLE))
    else if w.intents[i].status == Packaged then Handled(w, Ok(()))
    else if w.intents[i].status != Verified then Handled(w, Err(CREATE_STATE))
    else if w.intents[i].documents == [] then Handled(w, Err(NO_DOCUMENTS))
    else if Signable(w.intents[i].documents) == [] then Handled(w, Err(NO_SIGNABLE))
    else if !leveled then Handled(w, Err(NO_LEVEL))
    else
      var started := Settle(w, SigningStarted(w, i));
      if started.result.Err? then started
      else SignEach(started.world, i, Signable(w.intents[i].documents), signatures)
  }

  function ValidatedPades(w: World, i: Id, a: Id, admitted: Result<bool>, group: set<Id>): Handled {
    if i !in w.intents || a !in w.attempts then Handled(w, Err(NO_ARTIFACT))
    else if w.attempts[a].status == AttemptValidated then Handled(w, Ok(()))
    else if w.attempts[a].status != AttemptSigned then Handled(w, Err(PADES_STATE))
    else match admitted
      case Err(e) => Handled(w, Err(e))
      case Ok(verdict) => Settle(w, SignatureJudged(w, i, a, verdict, group))
  }

  function ExpiredCase(w: World, c: Id, overdue: bool): Handled {
    if c !in w.cases then Handled(w, Err(NO_CASE))
    else if IsClosed(w.cases[c]) then Handled(w, Ok(()))
    else if !overdue then Handled(w, Err(NOT_EXPIRED))
    else Settle(w, Expired(w, c))
  }

  /** The sign service is asked once for each signable document. */
  predicate IsFor(w: World, d: Delivery) {
    d.CreatePades? && d.intentId in w.intents ==> |d.signatures| == |Signable(w.intents[d.intentId].documents)|
  }

  function Handle(w: World, d: Delivery): Handled
    requires IsFor(w, d)
  {
    match d
    case TicCollect(t, evidence) => CollectedEvidence(w, t, evidence)
    case ValidateIdentity(t, pass) => ValidatedIdentity(w, t, pass)
    case CreatePades(i, electronic, leveled, signatures) => CreatedPades(w, i, electronic, leveled, signatures)
    case ValidatePades(i, a, admitted, group) => ValidatedPades(w, i, a, admitted, group)
    case BuildSignerPackage(c, s) => Handled(SignerPackaged(w, c, s), Ok(()))
    case BuildCasePackage(c) => Settle(w, CasePackaged(w, c))
    case ExpireCase(c, overdue) => ExpiredCase(w, c, overdue)
  }

  /** The job that a delivery is of has been enqueued. */
  predicate IsQueued(w: World, d: Delivery) {
    match d
    case ValidateIdentity(t, _) => SignatureValidate(t) in w.jobs
    case CreatePades(i, _, _, _) => PadesCreate(i) in w.jobs
    case ValidatePades(i, a, _, _) => PadesValidate(i, a) in w.jobs
    case BuildSignerPackage(c, s) => SignerPackage(c, s) in w.jobs
    case BuildCasePackage(c) => CasePackage(c) in w.jobs
    case _ => true
  }

  /** Two deliveries of one job, whatever its services answer each time. */
  predicate SameJob(d: Delivery, e: Delivery) {
    match (d, e)
    case (TicCollect(t, _), TicCollect(u, _)) => t == u
    case (ValidateIdentity(t, _), ValidateIdentity(u, _)) => t == u
    case (CreatePades(i, _, _, _), CreatePades(j, _, _, _)) => i == j
    case (ValidatePades(i, a, _, _), ValidatePades(j, b, _, _)) => i == j && a == b
    case (ExpireCase(c, _), ExpireCase(x, _)) => c == x
    case _ => d == e
  }

  /* ---- Safety ---- */

  lemma SettleSafe(w: World, step: Step)
    requires Safe(w) && Enabled(w, step)
    ensures Safe(Settle(w, Effect(w, step)).world)
  {
    hide Safe, Enabled, Effect;
    StepSafe(w, step);
  }

  lemma VerifiedIsIdentified(w: World, i: Id)
    requires IsVerified(w, i)
    ensures IsIdentified(w, i) && i in w.intents
  {
  }

  lemma RecordKeeps(w: World, i: Id, versionId: Id, a: Id)
    requires i in w.intents && a !in w.attempts
    ensures AttemptRecorded(w, i, versionId, a).Some?
    ensures var v := AttemptRecorded(w, i, versionId, a).value;
      v.intents == w.intents && v.signers == w.signers && v.jobs >= w.jobs && (IsIdentified(w, i) ==> IsIdentified(v, i))
  {
  }

  lemma {:induction false} SignEachSafe(w: World, i: Id, documents: seq<IntentDocument>, signatures: seq<Result<Id>>)
    requires i in w.intents && |signatures| == |documents| && Safe(w)
    requires PadesCreate(i) in w.jobs && IsIdentified(w, i)
    requires forall d :: d in documents ==> d.signable && d in w.intents[i].documents
    ensures Safe(SignEach(w, i, documents, signatures).world)
    decreases |documents|
  {
    hide Safe, IsIdentified, HasAttempt, AttemptRecorded;
    if documents != [] {
      var versionId := documents[0].versionId;
      if HasAttempt(w, w.intents[i].signerId, versionId) {
        SignEachSafe(w, i, documents[1..], signatures[1..]);
      } else if signatures[0].Ok? && signatures[0].value !in w.attempts {
        var a := signatures[0].value;
        RecordSafe(w, i, documents[0], a);
        RecordKeeps(w, i, versionId, a);
        SignEachSafe(AttemptRecorded(w, i, versionId, a).value, i, documents[1..], signatures[1..]);
      }
    }
  }

  lemma RecordSafe(w: World, i: Id, d: IntentDocument, a: Id)
    requires i in w.intents && Safe(w) && PadesCreate(i) in w.jobs && IsIdentified(w, i) && a !in w.attempts
    requires d.signable && d in w.intents[i].documents
    ensures AttemptRecorded(w, i, d.versionId, a).Some? && Safe(AttemptRecorded(w, i, d.versionId, a).value)
  {
    hide Safe, IsIdentified;
    assert d == IntentDocument(d.versionId, true);
    SettleSafe(w, RecordAttempt(i, d.versionId, a));
  }

  lemma StartKeeps(w: World, i: Id)
    requires i in w.intents && SigningStarted(w, i).Some?
    ensures var v := SigningStarted(w, i).value;
      v.intents == w.intents && v.jobs == w.jobs && v.attempts == w.attempts && v.transactions == w.transactions && v.evidence == w.evidence
    ensures var v := SigningStarted(w, i).value;
      w.intents[i].signerId in v.signers ==> v.signers[w.intents[i].signerId].status != IdentityVerified
  {
  }

  lemma CreatedSafe(w: World, i: Id, electronic: bool, leveled: bool, signatures: seq<Result<Id>>)
    requires i in w.intents ==> |signatures| == |Signable(w.intents[i].documents)|
    requires Safe(w) && PadesCreate(i) in w.jobs
    ensures Safe(CreatedPades(w, i, electronic, leveled, signatures).world)
  {
    hide Safe, IsIdentified, IsVerified, SigningStarted, SignEach;
    if IsVerified(w, i) {
      VerifiedIsIdentified(w, i);
      SettleSafe(w, StartSigning(i));
      if SigningStarted(w, i).Some? {
        var v := SigningStarted(w, i).value;
        StartKeeps(w, i);
        StillIdentified(w, v, i);
        SignEachSafe(v, i, Signable(w.intents[i].documents), signatures);
      }
    }
  }

  lemma StillIdentified(w: World, v: World, i: Id)
    requires IsIdentified(w, i) && v.transactions == w.transactions && v.evidence == w.evidence
    ensures IsIdentified(v, i)
  {
  }

  /** Handling any queued job, whatever its services answer, keeps the invariant of the step system. */
  lemma HandledSafe(w: World, d: Delivery)
    requires IsFor(w, d) && Safe(w) && IsQueued(w, d)
    ensures Safe(Handle(w, d).world)
  {
    hide Safe, CreatedPades, Collected, FailedIdentity, IdentityJudged, SignatureJudged, CasePackaged, SignerPackaged, Expired;
    match d
    case TicCollect(t, evidence) =>
      if t in w.transactions && w.transactions[t].intentId in w.intents {
        SettleSafe(w, Collect(t));
        SettleSafe(w, FailIdentity(t));
      }
    case ValidateIdentity(t, pass) =>
      if t in w.transactions && w.transactions[t].intentId in w.intents && pass.Ok? {
        SettleSafe(w, JudgeIdentity(t, pass.value));
      }
    case CreatePades(i, electronic, leveled, signatures) =>
      CreatedSafe(w, i, electronic, leveled, signatures);
    case ValidatePades(i, a, admitted, group) =>
      if i in w.intents && a in w.attempts && admitted.Ok? {
        SettleSafe(w, JudgeSignature(i, a, admitted.value, group));
      }
    case BuildSignerPackage(c, s) =>
      SettleSafe(w, PackageSigner(c, s));
    case BuildCasePackage(c) =>
      SettleSafe(w, PackageCase(c));
    case ExpireCase(c, overdue) =>
      if c in w.cases {
        SettleSafe(w, Expire(c));
      }
  }

  /* ---- What handlePadesCreate leaves ---- */

  predicate SameTarget(a: Attempt, b: Attempt) {
    a.signerId == b.signerId && a.versionId == b.versionId
  }

  /** No signer has two attempts at one document. */
  ghost predicate OneAttemptEach(w: World) {
    forall a, b :: a in w.attempts && b in w.attempts && SameTarget(w.attempts[a], w.attempts[b]) ==> a == b
  }

  lemma RecordAddsOne(w: World, i: Id, versionId: Id, a: Id)
    requires i in w.intents && a !in w.attempts && !HasAttempt(w, w.intents[i].signerId, versionId) && OneAttemptEach(w)
    ensures OneAttemptEach(AttemptRecorded(w, i, versionId, a).value)
  {
  }

  lemma RecordKeepsAttempts(w: World, i: Id, versionId: Id, a: Id, signerId: Id, other: Id)
    requires i in w.intents && a !in w.attempts
    ensures var v := AttemptRecorded(w, i, versionId, a).value;
      && HasAttempt(v, w.intents[i].signerId, versionId)
      && (HasAttempt(w, signerId, other) ==> HasAttempt(v, signerId, other))
  {
    var v := AttemptRecorded(w, i, versionId, a).value;
    assert a in v.attempts && v.attempts[a] == Attempt(w.intents[i].signerId, versionId, AttemptSigned);
    if HasAttempt(w, signerId, other) {
      var b :| b in w.attempts && w.attempts[b].signerId == signerId && w.attempts[b].versionId == other;
      assert b in v.attempts && v.attempts[b] == w.attempts[b];
    }
  }

  lemma {:induction false} SignEachKeepsAttempts(w: World, i: Id, documents: seq<IntentDocument>, signatures: seq<Result<Id>>, versionId: Id)
    requires i in w.intents && |signatures| == |documents| && HasAttempt(w, w.intents[i].signerId, versionId)
    ensures HasAttempt(SignEach(w, i, documents, signatures).world, w.intents[i].signerId, versionId)
    decreases |documents|
  {
    hide HasAttempt, AttemptRecorded;
    if documents != [] {
      if HasAttempt(w, w.intents[i].signerId, documents[0].versionId) {
        SignEachKeepsAttempts(w, i, documents[1..], signatures[1..], versionId);
      } else if signatures[0].Ok? && signatures[0].value !in w.attempts {
        var a := signatures[0].value;
        RecordKeeps(w, i, documents[0].versionId, a);
        RecordKeepsAttempts(w, i, documents[0].versionId, a, w.intents[i].signerId, versionId);
        SignEachKeepsAttempts(AttemptRecorded(w, i, documents[0].versionId, a).value, i, documents[1..], signatures[1..], versionId);
      }
    }
  }

  /** The loop never gives a signer a second attempt, touches no row but attempts and jobs, and when it ends normally leaves no document without one. */
  lemma {:induction false} SignEachOnce(w: World, i: Id, documents: seq<IntentDocument>, signatures: seq<Result<Id>>)
    requires i in w.intents && |signatures| == |documents|
    ensures var v := SignEach(w, i, documents, signatures);
      && v.world.intents == w.intents && v.world.signers == w.signers
      && (OneAttemptEach(w) ==> OneAttemptEach(v.world))
      && (v.result.Ok? ==> forall d :: d in documents ==> HasAttempt(v.world, w.intents[i].signerId, d.versionId))
    decreases |documents|
  {
    hide HasAttempt, AttemptRecorded, OneAttemptEach;
    if documents != [] {
      var signerId, versionId := w.intents[i].signerId, documents[0].versionId;
      assert forall d :: d in documents ==> d == documents[0] || d in documents[1..];
      if HasAttempt(w, signerId, versionId) {
        SignEachOnce(w, i, documents[1..], signatures[1..]);
        SignEachKeepsAttempts(w, i, documents[1..], signatures[1..], versionId);
      } else if signatures[0].Ok? && signatures[0].value !in w.attempts {
        var a := signatures[0].value;
        RecordKeeps(w, i, versionId, a);
        var u := AttemptRecorded(w, i, versionId, a).value;
        RecordKeepsAttempts(w, i, versionId, a, signerId, versionId);
        if OneAttemptEach(w) {
          RecordAddsOne(w, i, versionId, a);
        }
        SignEachOnce(u, i, documents[1..], signatures[1..]);
        SignEachKeepsAttempts(u, i, documents[1..], signatures[1..], versionId);
      }
    }
  }

  lemma {:induction false} NothingToSign(w: World, i: Id, documents: seq<IntentDocument>, signatures: seq<Result<Id>>)
    requires i in w.intents && |signatures| == |documents|
    requires forall d :: d in documents ==> HasAttempt(w, w.intents[i].signerId, d.versionId)
    ensures SignEach(w, i, documents, signatures) == Handled(w, Ok(()))
    decreases |documents|
  {
    hide HasAttempt, AttemptRecorded;
    if documents != [] {
      assert documents[0] in documents;
      assert forall d :: d in documents[1..] ==> d in documents;
      NothingToSign(w, i, documents[1..], signatures[1..]);
    }
  }

  /** The signer of the intent has an attempt at every signable document. */
  predicate AllAttempted(w: World, i: Id) {
    && i in w.intents
    && forall d :: d in w.intents[i].documents && d.signable ==> HasAttempt(w, w.intents[i].signerId, d.versionId)
  }

  /** A signing job that ends normally has given its signer an attempt at every signable document, or was for a packaged intent. */
  lemma CreatedEach(w: World, i: Id, electronic: bool, leveled: bool, signatures: seq<Result<Id>>)
    requires i in w.intents ==> |signatures| == |Signable(w.intents[i].documents)|
    ensures var v := CreatedPades(w, i, electronic, leveled, signatures);
      && (OneAttemptEach(w) ==> OneAttemptEach(v.world))
      && (v.result.Ok? && w.intents[i].status != Packaged ==> AllAttempted(v.world, i))
  {
    hide IsVerified, SigningStarted, SignEach, HasAttempt;
    if IsVerified(w, i) {
      VerifiedIsIdentified(w, i);
      if SigningStarted(w, i).Some? {
        StartKeeps(w, i);
        SignEachOnce(SigningStarted(w, i).value, i, Signable(w.intents[i].documents), signatures);
      }
    }
  }

  /* ---- At-least-once delivery ---- */

  lemma StartedAgain(w: World, v: World, i: Id)
    requires i in w.intents && SigningStarted(w, i).Some? && v.intents == w.intents && v.signers == SigningStarted(w, i).value.signers
    ensures SigningStarted(v, i) == Some(v)
  {
  }

  lemma {:induction false} SignEachRows(w: World, i: Id, documents: seq<IntentDocument>, signatures: seq<Result<Id>>)
    requires i in w.intents && |signatures| == |documents|
    ensures var v := SignEach(w, i, documents, signatures).world;
      v.intents == w.intents && v.signers == w.signers && v.transactions == w.transactions && v.evidence == w.evidence
    decreases |documents|
  {
    hide HasAttempt;
    if documents != [] {
      SignEachRows(w, i, documents[1..], signatures[1..]);
      if signatures[0].Ok? && signatures[0].value !in w.attempts {
        SignEachRows(AttemptRecorded(w, i, documents[0].versionId, signatures[0].value).value, i, documents[1..], signatures[1..]);
      }
    }
  }

  lemma SameVerified(w: World, v: World, i: Id)
    requires v.transactions == w.transactions && v.evidence == w.evidence && v.intents == w.intents
    ensures IsVerified(v, i) == IsVerified(w, i)
  {
  }

  lemma CreatedAgain(w: World, i: Id, electronic: bool, leveled: bool, signatures: seq<Result<Id>>,
                     electronicAgain: bool, leveledAgain: bool, again: seq<Result<Id>>)
    requires i in w.intents ==> |signatures| == |Signable(w.intents[i].documents)| == |again|
    requires CreatedPades(w, i, electronic, leveled, signatures).result.Ok?
    ensures var v := CreatedPades(w, i, electronic, leveled, signatures).world;
      v.intents == w.intents && CreatedPades(v, i, electronicAgain, leveledAgain, again).world == v
  {
    hide IsVerified, SigningStarted, SignEach, HasAttempt;
    var v := CreatedPades(w, i, electronic, leveled, signatures).world;
    VerifiedIsIdentified(w, i);
    if w.intents[i].status != Packaged {
      var started := SigningStarted(w, i).value;
      var documents := Signable(w.intents[i].documents);
      StartKeeps(w, i);
      SignEachRows(started, i, documents, signatures);
      SignEachOnce(started, i, documents, signatures);
      SameVerified(w, v, i);
      StartedAgain(w, v, i);
      NothingToSign(v, i, documents, again);
    }
  }

  lemma CreatedVerified(w: World, i: Id, electronic: bool, leveled: bool, signatures: seq<Result<Id>>)
    requires i in w.intents ==> |signatures| == |Signable(w.intents[i].documents)|
    requires CreatedPades(w, i, electronic, leveled, signatures).result.Ok?
    ensures i in w.intents
  {
  }

  lemma CreatedRows(w: World, i: Id, electronic: bool, leveled: bool, signatures: seq<Result<Id>>)
    requires i in w.intents ==> |signatures| == |Signable(w.intents[i].documents)|
    ensures CreatedPades(w, i, electronic, leveled, signatures).world.intents == w.intents
  {
    hide IsIdentified, SigningStarted, SignEach;
    if IsVerified(w, i) {
      if SigningStarted(w, i).Some? {
        StartKeeps(w, i);
        SignEachRows(SigningStarted(w, i).value, i, Signable(w.intents[i].documents), signatures);
      }
    }
  }

  lemma CollectedOnce(w: World, t: Id)
    requires t in w.transactions && IsWaiting(w.transactions[t]) && Collected(w, t).Some?
    ensures var v := Collected(w, t).value; t in v.transactions && v.transactions[t].status == CompleteCollected
  {
  }

  lemma JudgedOnce(w: World, t: Id, pass: bool)
    requires t in w.transactions && w.transactions[t].intentId in w.intents
    requires w.transactions[t].status == CompleteCollected && IdentityJudged(w, t, pass).Some?
    ensures var v := IdentityJudged(w, t, pass).value;
      t in v.transactions && v.transactions[t].status == if pass then IdVerified else IdFailed
  {
    var intentId := w.transactions[t].intentId;
    var signerId := w.intents[intentId].signerId;
    var recorded := if t in w.evidence then w else w.(evidence := w.evidence[t := pass]);
    if pass {
      var w1 := SetTransaction(recorded, t, IdVerified).value;
      MoveIntentOnly(w1, intentId, EvidenceCollected, Verified);
      MoveSignerOnly(MoveIntent(w1, intentId, EvidenceCollected, Verified), signerId, IdentityStarted, IdentityVerified);
    } else {
      var w1 := SetTransaction(recorded, t, IdFailed).value;
      MoveIntentOnly(w1, intentId, EvidenceCollected, IntentFailed);
      FailSignerOnly(MoveIntent(w1, intentId, EvidenceCollected, IntentFailed), signerId);
    }
  }

  lemma SignatureJudgedOnce(w: World, i: Id, a: Id, admitted: bool, group: set<Id>)
    requires i in w.intents && a in w.attempts && w.attempts[a].status == AttemptSigned
    requires SignatureJudged(w, i, a, admitted, group).Some?
    ensures var v := SignatureJudged(w, i, a, admitted, group).value;
      i in v.intents && a in v.attempts && v.attempts[a].status == if admitted then AttemptValidated else AttemptFailed
  {
    hide AllValidated, AllRequiredSigned, Activated, SignerMay;
    var signerId := w.attempts[a].signerId;
    if admitted {
      var w1 := SetAttempt(w, a, AttemptValidated).value;
      if AllValidated(w1, i, signerId) {
        MoveSignerOnly(w1, signerId, Signing, Signed);
        var w2 := MoveSigner(w1, signerId, Signing, Signed).value;
        MoveIntentOnly(w2, i, Verified, Packaged);
        var w3 := Enqueue(MoveIntent(w2, i, Verified, Packaged), SignerPackage(w.intents[i].caseId, signerId));
        ActivatedOnly(w3, w.intents[i].caseId, group);
      }
    } else {
      MoveSignerOnly(SetAttempt(w, a, AttemptFailed).value, signerId, Signing, SignerFailed);
    }
  }

  lemma PackagedOnce(w: World, c: Id, s: Id)
    ensures SignerPackaged(SignerPackaged(w, c, s), c, s) == SignerPackaged(w, c, s)
  {
    var v := SignerPackaged(w, c, s);
    assert SignerPackaged(v, c, s).intents == v.intents;
  }

  lemma ExpiredOnce(w: World, c: Id)
    requires c in w.cases && Expired(w, c).Some?
    ensures c in Expired(w, c).value.cases && IsClosed(Expired(w, c).value.cases[c])
  {
  }

  /** Delivering a job again after it has been handled changes no row, whatever its services answer the second time. */
  lemma Redelivered(w: World, d: Delivery, e: Delivery)
    requires IsFor(w, d) && Handle(w, d).result.Ok? && SameJob(d, e) && IsFor(Handle(w, d).world, e)
    ensures Handle(Handle(w, d).world, e).world == Handle(w, d).world
  {
    hide CreatedPades, Collected, FailedIdentity, IdentityJudged, SignatureJudged, SignerPackaged, Expired;
    match d
    case TicCollect(t, _) =>
      if IsWaiting(w.transactions[t]) {
        CollectedOnce(w, t);
      }
    case ValidateIdentity(t, pass) =>
      if w.transactions[t].status == CompleteCollected {
        JudgedOnce(w, t, pass.value);
      }
    case CreatePades(i, electronic, leveled, signatures) =>
      CreatedVerified(w, i, electronic, leveled, signatures);
      CreatedRows(w, i, electronic, leveled, signatures);
      CreatedAgain(w, i, electronic, leveled, signatures, e.electronic, e.leveled, e.signatures);
    case ValidatePades(i, a, admitted, group) =>
      if w.attempts[a].status == AttemptSigned {
        SignatureJudgedOnce(w, i, a, admitted.value, group);
      }
    case BuildSignerPackage(c, s) =>
      PackagedOnce(w, c, s);
    case BuildCasePackage(c) =>
    case ExpireCase(c, _) =>
      if !IsClosed(w.cases[c]) {
        ExpiredOnce(w, c);
      }
  }

  /* ---- After a failed or partial delivery ---- */

  /** No attempt is lost or changed, and no enqueued job. */
  ghost predicate KeepsDone(v: World, u: World) {
    && (forall a :: a in v.attempts ==> a in u.attempts && u.attempts[a] == v.attempts[a])
    && v.jobs <= u.jobs
    && u == v.(attempts := u.attempts, jobs := u.jobs, signers := u.signers)
  }

  lemma KeepsDoneTransitive(a: World, b: World, c: World)
    requires KeepsDone(a, b) && KeepsDone(b, c)
    ensures KeepsDone(a, c)
  {
  }

  lemma RecordKeepsDone(w: World, i: Id, versionId: Id, a: Id)
    requires i in w.intents && a !in w.attempts
    ensures AttemptRecorded(w, i, versionId, a).Some? && KeepsDone(w, AttemptRecorded(w, i, versionId, a).value)
    ensures AttemptRecorded(w, i, versionId, a).value.signers == w.signers
  {
  }

  lemma {:induction false} SignEachKeepsDone(w: World, i: Id, documents: seq<IntentDocument>, signatures: seq<Result<Id>>)
    requires i in w.intents && |signatures| == |documents|
    ensures KeepsDone(w, SignEach(w, i, documents, signatures).world)
    ensures SignEach(w, i, documents, signatures).world.signers == w.signers
    decreases |documents|
  {
    hide HasAttempt, AttemptRecorded, KeepsDone;
    SelfKeepsDone(w);
    if documents != [] {
      if HasAttempt(w, w.intents[i].signerId, documents[0].versionId) {
        SignEachKeepsDone(w, i, documents[1..], signatures[1..]);
      } else if signatures[0].Ok? && signatures[0].value !in w.attempts {
        RecordKeepsDone(w, i, documents[0].versionId, signatures[0].value);
        RecordKeeps(w, i, documents[0].versionId, signatures[0].value);
        var u := AttemptRecorded(w, i, documents[0].versionId, signatures[0].value).value;
        SignEachKeepsDone(u, i, documents[1..], signatures[1..]);
        KeepsDoneTransitive(w, u, SignEach(u, i, documents[1..], signatures[1..]).world);
      }
    }
  }

  lemma SelfKeepsDone(w: World)
    ensures KeepsDone(w, w)
  {
  }

  lemma StartKeepsDone(w: World, i: Id)
    requires i in w.intents && SigningStarted(w, i).Some?
    ensures KeepsDone(w, SigningStarted(w, i).value)
  {
  }

  lemma CreatedKeepsDone(w: World, i: Id, electronic: bool, leveled: bool, signatures: seq<Result<Id>>)
    requires i in w.intents ==> |signatures| == |Signable(w.intents[i].documents)|
    ensures var v := CreatedPades(w, i, electronic, leveled, signatures).world;
      && KeepsDone(w, v)
      && (v == w || (i in w.intents && SigningStarted(w, i).Some? && v.signers == SigningStarted(w, i).value.signers))
  {
    hide IsVerified, SigningStarted, SignEach, KeepsDone;
    SelfKeepsDone(w);
    VerifiedExists(w, i);
    if IsVerified(w, i) && SigningStarted(w, i).Some? {
      var started := SigningStarted(w, i).value;
      StartKeeps(w, i);
      StartKeepsDone(w, i);
      SignEachKeepsDone(started, i, Signable(w.intents[i].documents), signatures);
      KeepsDoneTransitive(w, started, SignEach(started, i, Signable(w.intents[i].documents), signatures).world);
    }
  }

  lemma VerifiedExists(w: World, i: Id)
    ensures IsVerified(w, i) ==> i in w.intents
  {
  }

  /** A signing job that has started its signer, whether it ended or failed on the way, leaves nothing of that to a later delivery. */
  lemma CreatedStarted(w: World, v: World, i: Id, electronic: bool, leveled: bool, signatures: seq<Result<Id>>)
    requires i in w.intents && SigningStarted(w, i).Some? && v.intents == w.intents && v.signers == SigningStarted(w, i).value.signers
    requires |signatures| == |Signable(v.intents[i].documents)|
    ensures CreatedPades(v, i, electronic, leveled, signatures).world.signers == v.signers
  {
    hide IsVerified, SigningStarted, SignEach;
    StartedAgain(w, v, i);
    SignEachKeepsDone(v, i, Signable(v.intents[i].documents), signatures);
  }

  lemma FailedOnce(w: World, t: Id)
    requires t in w.transactions && w.transactions[t].intentId in w.intents && IsWaiting(w.transactions[t]) && FailedIdentity(w, t).Some?
    ensures var v := FailedIdentity(w, t).value; t in v.transactions && v.transactions[t].status == IdFailed
  {
    hide SignerMay;
    var intentId := w.transactions[t].intentId;
    var w1 := SetTransaction(w, t, IdFailed).value;
    MoveIntentOnly(w1, intentId, ProviderStarted, IntentFailed);
    FailSignerOnly(MoveIntent(w1, intentId, ProviderStarted, IntentFailed), w.intents[intentId].signerId);
  }

  /**
   * Delivering a job again after it failed, whatever its services answer the second time. A failed
   * signing job may have signed some documents: their attempts and jobs stay exactly as they are and
   * the signer has started only once. Of every other job a failure leaves nothing, unless it
   * was the verdict that the evidence cannot be read, and then the second delivery changes nothing.
   */
  lemma Retried(w: World, d: Delivery, e: Delivery)
    requires IsFor(w, d) && Handle(w, d).result.Err? && SameJob(d, e) && IsFor(Handle(w, d).world, e)
    ensures var v := Handle(w, d).world; var u := Handle(v, e).world;
      if d.CreatePades? then KeepsDone(v, u) && (v != w ==> u.signers == v.signers) else v == w || u == v
  {
    hide CreatedPades, Collected, FailedIdentity, IdentityJudged, SignatureJudged, SignerPackaged, CasePackaged, Expired, KeepsDone, SigningStarted;
    var v := Handle(w, d).world;
    match d
    case TicCollect(t, evidence) =>
      if t in w.transactions && w.transactions[t].intentId in w.intents && IsWaiting(w.transactions[t]) && evidence.Unreadable? && FailedIdentity(w, t).Some? {
        FailedOnce(w, t);
      }
    case CreatePades(i, electronic, leveled, signatures) =>
      CreatedKeepsDone(w, i, electronic, leveled, signatures);
      CreatedRows(w, i, electronic, leveled, signatures);
      CreatedKeepsDone(v, i, e.electronic, e.leveled, e.signatures);
      if v != w {
        CreatedStarted(w, v, i, e.electronic, e.leveled, e.signatures);
      }
    case _ =>
  }

  /* ---- Any number of deliveries ---- */

  /** The world after deliveries in any order and number; one that asks for other documents than there are is not made. */
  function DeliverAll(w: World, ds: seq<Delivery>): World {
    if ds == [] then w
    else
      var v := DeliverAll(w, ds[..|ds| - 1]);
      if IsFor(v, ds[|ds| - 1]) then Handle(v, ds[|ds| - 1]).world else v
  }

  /** No attempt is lost or given to another signer or document. */
  ghost predicate KeepsTargets(v: World, u: World) {
    forall a :: a in v.attempts ==> a in u.attempts && SameTarget(v.attempts[a], u.attempts[a])
  }

  lemma JudgedKeepsTargets(w: World, i: Id, a: Id, admitted: bool, group: set<Id>)
    requires i in w.intents && a in w.attempts && SignatureJudged(w, i, a, admitted, group).Some?
    ensures var v := SignatureJudged(w, i, a, admitted, group).value;
      KeepsTargets(w, v) && (OneAttemptEach(w) ==> OneAttemptEach(v))
  {
    hide SignatureJudged;
    SigningProgress.SignatureLeaves(w, i, a, admitted, group);
  }

  lemma DoneKeepsTargets(v: World, u: World)
    requires KeepsDone(v, u)
    ensures KeepsTargets(v, u)
  {
  }

  lemma SameAttempts(w: World, v: World)
    requires v.attempts == w.attempts
    ensures KeepsTargets(w, v) && (OneAttemptEach(w) ==> OneAttemptEach(v))
  {
  }

  lemma HandledOnce(w: World, d: Delivery)
    requires IsFor(w, d)
    ensures KeepsTargets(w, Handle(w, d).world)
    ensures OneAttemptEach(w) ==> OneAttemptEach(Handle(w, d).world)
  {
    hide CreatedPades, Collected, FailedIdentity, IdentityJudged, SignatureJudged, KeepsTargets, OneAttemptEach;
    SameAttempts(w, w);
    match d
    case TicCollect(t, evidence) =>
      if t in w.transactions && w.transactions[t].intentId in w.intents {
        if Collected(w, t).Some? {
          SigningProgress.CollectLeaves(w, t);
          SameAttempts(w, Collected(w, t).value);
        }
        if FailedIdentity(w, t).Some? {
          SigningProgress.FailLeaves(w, t);
          SameAttempts(w, FailedIdentity(w, t).value);
        }
      }
    case ValidateIdentity(t, pass) =>
      if t in w.transactions && w.transactions[t].intentId in w.intents && pass.Ok? && IdentityJudged(w, t, pass.value).Some? {
        SigningProgress.IdentityLeaves(w, t, pass.value);
        SameAttempts(w, IdentityJudged(w, t, pass.value).value);
      }
    case CreatePades(i, electronic, leveled, signatures) =>
      CreatedEach(w, i, electronic, leveled, signatures);
      CreatedKeepsDone(w, i, electronic, leveled, signatures);
      DoneKeepsTargets(w, Handle(w, d).world);
    case ValidatePades(i, a, admitted, group) =>
      if i in w.intents && a in w.attempts && admitted.Ok? && SignatureJudged(w, i, a, admitted.value, group).Some? {
        JudgedKeepsTargets(w, i, a, admitted.value, group);
      }
    case BuildSignerPackage(c, s) =>
      SameAttempts(w, SignerPackaged(w, c, s));
    case BuildCasePackage(c) =>
      SameAttempts(w, Handle(w, d).world);
    case ExpireCase(c, overdue) =>
      SameAttempts(w, Handle(w, d).world);
  }

  /** However often and in whatever order jobs are delivered, failing or not, no signer gets a second attempt at a document and none is lost. */
  lemma {:induction false} DeliveredOnce(w: World, ds: seq<Delivery>)
    ensures KeepsTargets(w, DeliverAll(w, ds))
    ensures OneAttemptEach(w) ==> OneAttemptEach(DeliverAll(w, ds))
  {
    hide Handle, OneAttemptEach, IsFor;
    if ds != [] {
      var v := DeliverAll(w, ds[..|ds| - 1]);
      DeliveredOnce(w, ds[..|ds| - 1]);
      if IsFor(v, ds[|ds| - 1]) {
        HandledOnce(v, ds[|ds| - 1]);
      }
    }
  }
}
