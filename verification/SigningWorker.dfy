/** The signing handlers as the workers run them: statement by statement on a tenant's tables. */
module SigningWorker {
  import opened Results
  import opened SigningRows
  import opened SigningSafety
  import opened SigningHandlers

  class Tenant {
    var cases: map<Id, CaseStatus>
    var signers: map<Id, Signer>
    var intents: map<Id, Intent>
    var transactions: map<Id, Transaction>
    var evidence: map<Id, bool>
    var attempts: map<Id, Attempt>
    var jobs: set<Job>

    function Rows(): World
      reads this
    {
      World(cases, signers, intents, transactions, evidence, attempts, jobs)
    }

    /** Rolls a transaction back. */
    method Restore(saved: World)
      modifies this
      ensures Rows() == saved
    {
      cases, signers, intents := saved.cases, saved.signers, saved.intents;
      transactions, evidence, attempts, jobs := saved.transactions, saved.evidence, saved.attempts, saved.jobs;
    }

    /* ---- Statements: raised means that a guard refused the update ---- */

    method UpdateSigner(id: Id, status: SignerStatus) returns (raised: bool)
      modifies `signers
      ensures raised == SetSigner(old(Rows()), id, status).None?
      ensures Rows() == if raised then old(Rows()) else SetSigner(old(Rows()), id, status).value
    {
      if id !in signers {
        return false;
      }
      if !SignerMay(signers[id].status, status) {
        return true;
      }
      signers := signers[id := signers[id].(status := status)];
      raised := false;
    }

    method UpdateSignerFrom(id: Id, from: SignerStatus, to: SignerStatus) returns (raised: bool)
      modifies `signers
      ensures raised == MoveSigner(old(Rows()), id, from, to).None?
      ensures Rows() == if raised then old(Rows()) else MoveSigner(old(Rows()), id, from, to).value
    {
      raised := false;
      if id in signers && signers[id].status == from {
        raised := UpdateSigner(id, to);
      }
    }

    method UpdateSignerFailed(id: Id) returns (raised: bool)
      modifies `signers
      ensures raised == FailSigner(old(Rows()), id).None?
      ensures Rows() == if raised then old(Rows()) else FailSigner(old(Rows()), id).value
    {
      raised := false;
      if id in signers && signers[id].status != Signed && signers[id].status != Declined && signers[id].status != SignerCancelled {
        raised := UpdateSigner(id, SignerFailed);
      }
    }

    method UpdateIntentFrom(id: Id, from: IntentStatus, to: IntentStatus)
      modifies `intents
      ensures Rows() == MoveIntent(old(Rows()), id, from, to)
    {
      if id in intents && intents[id].status == from {
        intents := intents[id := intents[id].(status := to)];
      }
    }

    method UpdateTransaction(id: Id, status: IdentityStatus) returns (raised: bool)
      modifies `transactions
      ensures raised == SetTransaction(old(Rows()), id, status).None?
      ensures Rows() == if raised then old(Rows()) else SetTransaction(old(Rows()), id, status).value
    {
      if id !in transactions {
        return false;
      }
      if !IdentityMay(transactions[id].status, status) {
        return true;
      }
      if status == IdVerified && transactions[id].status != IdVerified && !(id in evidence && evidence[id]) {
        return true;
      }
      transactions := transactions[id := transactions[id].(status := status)];
      raised := false;
    }

    method UpdateAttempt(id: Id, status: AttemptStatus) returns (raised: bool)
      modifies `attempts
      ensures raised == SetAttempt(old(Rows()), id, status).None?
      ensures Rows() == if raised then old(Rows()) else SetAttempt(old(Rows()), id, status).value
    {
      if id !in attempts {
        return false;
      }
      if !AttemptMay(attempts[id].status, status) {
        return true;
      }
      attempts := attempts[id := attempts[id].(status := status)];
      raised := false;
    }

    method InsertJob(job: Job)
      modifies `jobs
      ensures Rows() == Enqueue(old(Rows()), job)
    {
      jobs := jobs + {job};
    }

    /* ---- Transactions ---- */

    method CollectTransaction(t: Id) returns (r: Result<()>)
      requires t in transactions
      modifies this
      ensures Handled(Rows(), r) == Settle(old(Rows()), Collected(old(Rows()), t))
    {
      hide SetTransaction, MoveIntent, Enqueue;
      var intentId := transactions[t].intentId;
      if IsWaiting(transactions[t]) {
        var raised := UpdateTransaction(t, CompleteCollected);
        if raised {
          return Err(GUARD);
        }
      }
      UpdateIntentFrom(intentId, ProviderStarted, EvidenceCollected);
      InsertJob(SignatureValidate(t));
      r := Ok(());
    }

    method FailIdentityTransaction(t: Id, signerId: Id) returns (r: Result<()>)
      requires t in transactions && transactions[t].intentId in intents && intents[transactions[t].intentId].signerId == signerId
      modifies this
      ensures Handled(Rows(), r) == Settle(old(Rows()), FailedIdentity(old(Rows()), t))
    {
      hide SetTransaction, MoveIntent, FailSigner;
      var saved, intentId := Rows(), transactions[t].intentId;
      if IsWaiting(transactions[t]) {
        var raised := UpdateTransaction(t, IdFailed);
        if raised {
          return Err(GUARD);
        }
      }
      UpdateIntentFrom(intentId, ProviderStarted, IntentFailed);
      var raised := UpdateSignerFailed(signerId);
      if raised {
        Restore(saved);
        return Err(GUARD);
      }
      r := Ok(());
    }

    method JudgeIdentityTransaction(t: Id, pass: bool) returns (r: Result<()>)
      requires t in transactions && transactions[t].intentId in intents
      modifies this
      ensures Handled(Rows(), r) == Settle(old(Rows()), IdentityJudged(old(Rows()), t, pass))
    {
      hide SetTransaction, MoveIntent, FailSigner, MoveSigner, Enqueue;
      var saved, intentId, status := Rows(), transactions[t].intentId, transactions[t].status;
      var signerId := intents[intentId].signerId;
      if t !in evidence {
        evidence := evidence[t := pass];
      }
      var raised := false;
      if !pass {
        raised := UpdateTransaction(t, IdFailed);
        if !raised {
          UpdateIntentFrom(intentId, EvidenceCollected, IntentFailed);
          raised := UpdateSignerFailed(signerId);
        }
      } else {
        if status == CompleteCollected {
          raised := UpdateTransaction(t, IdVerified);
        }
        if !raised {
          UpdateIntentFrom(intentId, EvidenceCollected, Verified);
          raised := UpdateSignerFrom(signerId, IdentityStarted, IdentityVerified);
        }
        if !raised {
          InsertJob(PadesCreate(intentId));
        }
      }
      if raised {
        Restore(saved);
        return Err(GUARD);
      }
      r := Ok(());
    }

    /** The trusted service's transaction: attempt, artifact and validation job together. */
    method RecordAttempt(i: Id, versionId: Id, attemptId: Id)
      requires i in intents && attemptId !in attempts
      modifies this
      ensures Some(Rows()) == AttemptRecorded(old(Rows()), i, versionId, attemptId)
    {
      hide AttemptMay, SignerMay, IdentityMay, CaseMay;
      attempts := attempts[attemptId := Attempt(intents[i].signerId, versionId, AttemptSigned)];
      InsertJob(PadesValidate(i, attemptId));
    }

    method JudgeSignatureTransaction(i: Id, a: Id, admitted: bool, group: set<Id>) returns (r: Result<()>)
      requires i in intents && a in attempts
      modifies this
      ensures Handled(Rows(), r) == Settle(old(Rows()), SignatureJudged(old(Rows()), i, a, admitted, group))
    {
      hide SetAttempt, MoveSigner, MoveIntent, Enqueue, AllValidated, AllRequiredSigned;
      var saved, signerId, caseId := Rows(), attempts[a].signerId, intents[i].caseId;
      if !admitted {
        var raised := UpdateAttempt(a, AttemptFailed);
        if !raised {
          raised := UpdateSignerFrom(signerId, Signing, SignerFailed);
        }
        if raised {
          Restore(saved);
          return Err(GUARD);
        }
        return Ok(());
      }
      var raised := UpdateAttempt(a, AttemptValidated);
      if raised {
        return Err(GUARD);
      }
      if !AllValidated(Rows(), i, signerId) {
        return Ok(());
      }
      raised := UpdateSignerFrom(signerId, Signing, Signed);
      if raised {
        Restore(saved);
        return Err(GUARD);
      }
      UpdateIntentFrom(i, Verified, Packaged);
      InsertJob(SignerPackage(caseId, signerId));
      signers := map s | s in signers ::
        if s in group && signers[s].caseId == caseId && signers[s].status == Pending then signers[s].(status := Invited) else signers[s];
      if AllRequiredSigned(Rows(), caseId) {
        InsertJob(CasePackage(caseId));
      }
      r := Ok(());
    }

    /* ---- Handlers ---- */

    method HandleTicCollect(t: Id, reply: Evidence) returns (r: Result<()>)
      modifies this
      ensures Handled(Rows(), r) == CollectedEvidence(old(Rows()), t, reply)
    {
      hide Collected, FailedIdentity;
      if t !in transactions || transactions[t].intentId !in intents {
        return Err(NO_TRANSACTION);
      }
      var status := transactions[t].status;
      if status == CompleteCollected || status == IdVerified {
        return Ok(());
      }
      if status == IdCancelled || status == IdExpired || status == IdFailed {
        return Err(SESSION_TERMINAL);
      }
      match reply
      case Unavailable(code) =>
        r := Err(code);
      case Unreadable(code) =>
        r := FailIdentityTransaction(t, intents[transactions[t].intentId].signerId);
        if r.Ok? {
          r := Err(code);
        }
      case Readable =>
        r := CollectTransaction(t);
    }

    method HandleSignatureValidate(t: Id, pass: Result<bool>) returns (r: Result<()>)
      modifies this
      ensures Handled(Rows(), r) == ValidatedIdentity(old(Rows()), t, pass)
    {
      hide IdentityJudged;
      if t !in transactions || transactions[t].intentId !in intents {
        return Err(NO_TRANSACTION);
      }
      if transactions[t].status == IdVerified {
        return Ok(());
      }
      if transactions[t].status != CompleteCollected {
        return Err(VALIDATE_STATE);
      }
      match pass
      case Err(e) =>
        r := Err(e);
      case Ok(verdict) =>
        r := JudgeIdentityTransaction(t, verdict);
    }

    method HandlePadesCreate(i: Id, electronic: bool, leveled: bool, signatures: seq<Result<Id>>) returns (r: Result<()>)
      requires i in intents ==> |signatures| == |Signable(intents[i].documents)|
      modifies this
      ensures Handled(Rows(), r) == CreatedPades(old(Rows()), i, electronic, leveled, signatures)
    {
      hide IsVerified, HasAttempt, AttemptRecorded, SigningStarted;
      VerifiedExists(Rows(), i);
      if !IsVerified(Rows(), i) {
        return Err(NOT_VERIFIED);
      }
      if !electronic {
        return Err(NOT_APPLICABLE);
      }
      if intents[i].status == Packaged {
        return Ok(());
      }
      if intents[i].status != Verified {
        return Err(CREATE_STATE);
      }
      if intents[i].documents == [] {
        return Err(NO_DOCUMENTS);
      }
      var documents := Signable(intents[i].documents);
      if documents == [] {
        return Err(NO_SIGNABLE);
      }
      if !leveled {
        return Err(NO_LEVEL);
      }
      r := StartSigning(i);
      if r.Err? {
        return;
      }
      r := SignDocuments(i, documents, signatures);
    }

    method StartSigning(i: Id) returns (r: Result<()>)
      requires i in intents
      modifies `signers
      ensures Handled(Rows(), r) == Settle(old(Rows()), SigningStarted(old(Rows()), i))
    {
      hide MoveSigner;
      var raised := UpdateSignerFrom(intents[i].signerId, IdentityVerified, Signing);
      r := if raised then Err(GUARD) else Ok(());
    }

    method SignDocuments(i: Id, documents: seq<IntentDocument>, signatures: seq<Result<Id>>) returns (r: Result<()>)
      requires i in intents && |signatures| == |documents|
      modifies this
      ensures Handled(Rows(), r) == SignEach(old(Rows()), i, documents, signatures)
    {
      hide HasAttempt, AttemptRecorded;
      var start := Rows();
      for n := 0 to |documents|
        invariant i in intents
        invariant SignEach(Rows(), i, documents[n..], signatures[n..]) == SignEach(start, i, documents, signatures)
      {
        assert documents[n..][1..] == documents[n + 1..] && signatures[n..][1..] == signatures[n + 1..];
        if HasAttempt(Rows(), intents[i].signerId, documents[n].versionId) {
          continue;
        }
        match signatures[n] {
          case Err(e) =>
            return Err(e);
          case Ok(attemptId) =>
            if attemptId in attempts {
              return Err(GUARD);
            }
            RecordKeeps(Rows(), i, documents[n].versionId, attemptId);
            RecordAttempt(i, documents[n].versionId, attemptId);
        }
      }
      r := Ok(());
    }

    method HandlePadesValidate(i: Id, a: Id, admitted: Result<bool>, group: set<Id>) returns (r: Result<()>)
      modifies this
      ensures Handled(Rows(), r) == ValidatedPades(old(Rows()), i, a, admitted, group)
    {
      hide SignatureJudged;
      if i !in intents || a !in attempts {
        return Err(NO_ARTIFACT);
      }
      if attempts[a].status == AttemptValidated {
        return Ok(());
      }
      if attempts[a].status != AttemptSigned {
        return Err(PADES_STATE);
      }
      match admitted
      case Err(e) =>
        r := Err(e);
      case Ok(verdict) =>
        r := JudgeSignatureTransaction(i, a, verdict, group);
    }

    method HandleEvidencePackageBuild(caseId: Id, signerId: Option<Id>) returns (r: Result<()>)
      modifies this
      ensures Handled(Rows(), r) == match signerId
        case Some(s) => Handled(SignerPackaged(old(Rows()), caseId, s), Ok(()))
        case None => Settle(old(Rows()), CasePackaged(old(Rows()), caseId))
    {
      r := Ok(());
      match signerId
      case Some(s) =>
        intents := map i | i in intents ::
          if intents[i].caseId == caseId && intents[i].signerId == s && intents[i].status == Verified
          then intents[i].(status := Packaged) else intents[i];
      case None =>
        if caseId in cases && (cases[caseId] == Sent || cases[caseId] == InProgress || cases[caseId] == PartiallySigned) {
          if !CaseMay(cases[caseId], Completed) {
            return Err(GUARD);
          }
          cases := cases[caseId := Completed];
        }
    }

    method HandleCaseExpire(caseId: Id, overdue: bool) returns (r: Result<()>)
      modifies this
      ensures Handled(Rows(), r) == ExpiredCase(old(Rows()), caseId, overdue)
    {
      if caseId !in cases {
        return Err(NO_CASE);
      }
      if IsClosed(cases[caseId]) {
        return Ok(());
      }
      if !overdue {
        return Err(NOT_EXPIRED);
      }
      var saved := Rows();
      if !CaseMay(cases[caseId], CaseExpired) {
        return Err(GUARD);
      }
      cases := cases[caseId := CaseExpired];
      if exists s :: s in signers && ToExpire(signers[s], caseId) && !SignerMay(signers[s].status, SignerExpired) {
        Restore(saved);
        return Err(GUARD);
      }
      signers := map s | s in signers :: if ToExpire(signers[s], caseId) then signers[s].(status := SignerExpired) else signers[s];
      r := Ok(());
    }

    /** A worker's delivery: whatever the services answer, the rows stay safe. */
    method Deliver(d: Delivery) returns (r: Result<()>)
      requires IsFor(Rows(), d)
      modifies this
      ensures Handled(Rows(), r) == Handle(old(Rows()), d)
      ensures old(Safe(Rows()) && IsQueued(Rows(), d)) ==> Safe(Rows())
    {
      hide Safe, CollectedEvidence, ValidatedIdentity, CreatedPades, ValidatedPades, SignerPackaged, CasePackaged, ExpiredCase;
      if Safe(Rows()) && IsQueued(Rows(), d) {
        HandledSafe(Rows(), d);
      }
      match d
      case TicCollect(t, reply) => r := HandleTicCollect(t, reply);
      case ValidateIdentity(t, pass) => r := HandleSignatureValidate(t, pass);
      case CreatePades(i, electronic, leveled, signatures) => r := HandlePadesCreate(i, electronic, leveled, signatures);
      case ValidatePades(i, a, admitted, group) => r := HandlePadesValidate(i, a, admitted, group);
      case BuildSignerPackage(c, s) => r := HandleEvidencePackageBuild(c, Some(s));
      case BuildCasePackage(c) => r := HandleEvidencePackageBuild(c, None);
      case ExpireCase(c, overdue) => r := HandleCaseExpire(c, overdue);
    }
  }
}
