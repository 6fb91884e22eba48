/** The rows of the signing pipeline, their transition guards, and the workers' transactions on them. */
module SigningRows {
  import opened Results

  type Id = string

  datatype SignerStatus =
    | Pending | Invited | Opened | IdentityStarted | IdentityVerified | Signing | Signed
    | Declined | SignerExpired | SignerCancelled | SignerFailed

  datatype CaseStatus =
    | Draft | Preparing | Ready | Sent | InProgress | PartiallySigned | Completed
    | CaseDeclined | CaseExpired | CaseCancelled | CaseFailed | Archiving | Archived

  datatype IntentStatus = Prepared | ProviderStarted | EvidenceCollected | Verified | Packaged | IntentFailed | IntentCancelled

  datatype IdentityStatus = IdPending | UserActionRequired | CompleteCollected | IdVerified | IdCancelled | IdExpired | IdFailed

  /** An attempt is first seen when the transaction that makes it commits: already signed. */
  datatype AttemptStatus = AttemptSigned | AttemptValidated | AttemptFailed

  datatype Signer = Signer(caseId: Id, required: bool, status: SignerStatus)
  datatype IntentDocument = IntentDocument(versionId: Id, signable: bool)
  datatype Intent = Intent(caseId: Id, signerId: Id, status: IntentStatus, documents: seq<IntentDocument>)
  datatype Transaction = Transaction(intentId: Id, status: IdentityStatus)
  datatype Attempt = Attempt(signerId: Id, versionId: Id, status: AttemptStatus)

  datatype Job =
    | SignatureValidate(transactionId: Id)
    | PadesCreate(intentId: Id)
    | PadesValidate(intent: Id, attemptId: Id)
    | SignerPackage(packageCase: Id, signerId: Id)
    | CasePackage(caseId: Id)

  /** One tenant's rows; evidence maps an identity transaction to whether its artifact says PASS. */
  datatype World = World(
    cases: map<Id, CaseStatus>, signers: map<Id, Signer>, intents: map<Id, Intent>,
    transactions: map<Id, Transaction>, evidence: map<Id, bool>, attempts: map<Id, Attempt>, jobs: set<Job>)

  /* ---- The transition guards of the database ---- */

  predicate SignerMay(from: SignerStatus, to: SignerStatus) {
    from == to ||
    match from
    case Pending => (to == Invited || to == SignerCancelled)
    case Invited => (to == Opened || to == IdentityStarted || to == Declined || to == SignerExpired || to == SignerCancelled || to == SignerFailed)
    case Opened => (to == IdentityStarted || to == Declined || to == SignerExpired || to == SignerCancelled || to == SignerFailed)
    case IdentityStarted => (to == IdentityVerified || to == Declined || to == SignerExpired || to == SignerCancelled || to == SignerFailed)
    case IdentityVerified => (to == Signing || to == Declined || to == SignerExpired || to == SignerCancelled || to == SignerFailed)
    case Signing => (to == Signed || to == Declined || to == SignerExpired || to == SignerCancelled || to == SignerFailed)
    case _ => false
  }

  predicate CaseMay(from: CaseStatus, to: CaseStatus) {
    from == to ||
    match from
    case Draft => (to == Preparing || to == CaseCancelled)
    case Preparing => (to == Ready || to == CaseFailed || to == CaseCancelled)
    case Ready => (to == Sent || to == CaseCancelled)
    case Sent => (to == InProgress || to == CaseDeclined || to == CaseExpired || to == CaseCancelled || to == CaseFailed)
    case InProgress => (to == PartiallySigned || to == Completed || to == CaseDeclined || to == CaseExpired || to == CaseCancelled || to == CaseFailed)
    case PartiallySigned => (to == Completed || to == CaseDeclined || to == CaseExpired || to == CaseCancelled || to == CaseFailed)
    case Archiving => (to == Archived || to == CaseFailed)
    case Archived => false
    case _ => to == Archiving
  }

  predicate IdentityMay(from: IdentityStatus, to: IdentityStatus) {
    from == to ||
    match from
    case IdPending => (to == UserActionRequired || to == CompleteCollected || to == IdCancelled || to == IdExpired || to == IdFailed)
    case UserActionRequired => (to == IdPending || to == CompleteCollected || to == IdCancelled || to == IdExpired || to == IdFailed)
    case CompleteCollected => (to == IdVerified || to == IdFailed)
    case _ => false
  }

  predicate AttemptMay(from: AttemptStatus, to: AttemptStatus) {
    from == to || from == AttemptSigned
  }

  /* ---- Statements; None is a guard that raises and so rolls its transaction back ---- */

  function SetSigner(w: World, id: Id, status: SignerStatus): Option<World> {
    if id !in w.signers then Some(w)
    else if !SignerMay(w.signers[id].status, status) then None
    else Some(w.(signers := w.signers[id := w.signers[id].(status := status)]))
  }

  /** update ... where status = from */
  function MoveSigner(w: World, id: Id, from: SignerStatus, to: SignerStatus): Option<World> {
    if id in w.signers && w.signers[id].status == from then SetSigner(w, id, to) else Some(w)
  }

  /** update ... where status not in ('signed','declined','cancelled') */
  function FailSigner(w: World, id: Id): Option<World> {
    if id in w.signers && (w.signers[id].status != Signed && w.signers[id].status != Declined && w.signers[id].status != SignerCancelled) then SetSigner(w, id, SignerFailed) else Some(w)
  }

  function MoveIntent(w: World, id: Id, from: IntentStatus, to: IntentStatus): World {
    if id in w.intents && w.intents[id].status == from then w.(intents := w.intents[id := w.intents[id].(status := to)]) else w
  }

  function SetTransaction(w: World, id: Id, status: IdentityStatus): Option<World> {
    if id !in w.transactions then Some(w)
    else if !IdentityMay(w.transactions[id].status, status) then None
    else if status == IdVerified && w.transactions[id].status != IdVerified && !(id in w.evidence && w.evidence[id]) then None
    else Some(w.(transactions := w.transactions[id := w.transactions[id].(status := status)]))
  }

  predicate IsWaiting(t: Transaction) {
    t.status == IdPending || t.status == UserActionRequired
  }

  function SetAttempt(w: World, id: Id, status: AttemptStatus): Option<World> {
    if id !in w.attempts then Some(w)
    else if !AttemptMay(w.attempts[id].status, status) then None
    else Some(w.(attempts := w.attempts[id := w.attempts[id].(status := status)]))
  }

  function Enqueue(w: World, job: Job): World {
    w.(jobs := w.jobs + {job})
  }

  /* ---- The transactions of the handlers ---- */

  /** handleTicCollect, once the provider's evidence is stored. */
  function Collected(w: World, transactionId: Id): Option<World>
    requires transactionId in w.transactions
  {
    var t := w.transactions[transactionId];
    match (if IsWaiting(t) then SetTransaction(w, transactionId, CompleteCollected) else Some(w))
    case None => None
    case Some(w1) => Some(Enqueue(MoveIntent(w1, t.intentId, ProviderStarted, EvidenceCollected), SignatureValidate(transactionId)))
  }

  /** failIdentityTransaction. */
  function FailedIdentity(w: World, transactionId: Id): Option<World>
    requires transactionId in w.transactions && w.transactions[transactionId].intentId in w.intents
  {
    var t := w.transactions[transactionId];
    match (if IsWaiting(t) then SetTransaction(w, transactionId, IdFailed) else Some(w))
    case None => None
    case Some(w1) => FailSigner(MoveIntent(w1, t.intentId, ProviderStarted, IntentFailed), w.intents[t.intentId].signerId)
  }

  /** The last transaction of handleSignatureValidate, for the verdict it reached. */
  function IdentityJudged(w: World, transactionId: Id, pass: bool): Option<World>
    requires transactionId in w.transactions && w.transactions[transactionId].intentId in w.intents
  {
    var intentId := w.transactions[transactionId].intentId;
    var signerId := w.intents[intentId].signerId;
    var recorded := if transactionId in w.evidence then w else w.(evidence := w.evidence[transactionId := pass]);
    if !pass then
      match SetTransaction(recorded, transactionId, IdFailed)
      case None => None
      case Some(w1) => FailSigner(MoveIntent(w1, intentId, EvidenceCollected, IntentFailed), signerId)
    else
      match (if w.transactions[transactionId].status == CompleteCollected then SetTransaction(recorded, transactionId, IdVerified) else Some(recorded))
      case None => None
      case Some(w1) =>
        match MoveSigner(MoveIntent(w1, intentId, EvidenceCollected, Verified), signerId, IdentityStarted, IdentityVerified)
        case None => None
        case Some(w2) => Some(Enqueue(w2, PadesCreate(intentId)))
  }

  /** An identity transaction of the intent has a PASS artifact. */
  ghost predicate IsEvidenced(w: World, intentId: Id) {
    exists t :: t in w.transactions && w.transactions[t].intentId == intentId && t in w.evidence && w.evidence[t]
  }

  /** What loadIntent joins on: a verified identity transaction of the intent with a PASS artifact. */
  predicate IsIdentified(w: World, intentId: Id) {
    exists t :: t in w.transactions && w.transactions[t] == Transaction(intentId, IdVerified) && t in w.evidence && w.evidence[t]
  }

  /** handlePadesCreate's first transaction: the signer starts signing. */
  function SigningStarted(w: World, intentId: Id): Option<World>
    requires intentId in w.intents
  {
    MoveSigner(w, w.intents[intentId].signerId, IdentityVerified, Signing)
  }

  /** Its transaction for one document: a new attempt with its artifact, and the validation job. */
  function AttemptRecorded(w: World, intentId: Id, versionId: Id, attemptId: Id): Option<World>
    requires intentId in w.intents && attemptId !in w.attempts
  {
    Some(Enqueue(w.(attempts := w.attempts[attemptId := Attempt(w.intents[intentId].signerId, versionId, AttemptSigned)]),
                 PadesValidate(intentId, attemptId)))
  }

  predicate IsValidated(w: World, signerId: Id, versionId: Id) {
    exists a :: a in w.attempts && w.attempts[a] == Attempt(signerId, versionId, AttemptValidated)
  }

  /** Every signable document of the intent has a validated attempt of the signer. */
  predicate AllValidated(w: World, intentId: Id, signerId: Id)
    requires intentId in w.intents
  {
    forall d :: d in w.intents[intentId].documents && d.signable ==> IsValidated(w, signerId, d.versionId)
  }

  predicate AllRequiredSigned(w: World, caseId: Id) {
    forall s :: s in w.signers && w.signers[s].caseId == caseId && w.signers[s].required ==> w.signers[s].status == Signed
  }

  /** activateNextSigningGroup: pending signers of the case, as the database's turn order names them, are invited. */
  function Activated(w: World, caseId: Id, group: set<Id>): World {
    w.(signers := map s | s in w.signers ::
      if s in group && w.signers[s].caseId == caseId && w.signers[s].status == Pending then w.signers[s].(status := Invited) else w.signers[s])
  }

  /** The last transaction of handlePadesValidate, for the decision of validator and admission gate. */
  function SignatureJudged(w: World, intentId: Id, attemptId: Id, admitted: bool, group: set<Id>): Option<World>
    requires intentId in w.intents && attemptId in w.attempts
  {
    var signerId, caseId := w.attempts[attemptId].signerId, w.intents[intentId].caseId;
    if !admitted then
      match SetAttempt(w, attemptId, AttemptFailed)
      case None => None
      case Some(w1) => MoveSigner(w1, signerId, Signing, SignerFailed)
    else
      match SetAttempt(w, attemptId, AttemptValidated)
      case None => None
      case Some(w1) =>
        if !AllValidated(w1, intentId, signerId) then Some(w1)
        else match MoveSigner(w1, signerId, Signing, Signed)
          case None => None
          case Some(w2) =>
            var w3 := Activated(Enqueue(MoveIntent(w2, intentId, Verified, Packaged), SignerPackage(caseId, signerId)), caseId, group);
            Some(if AllRequiredSigned(w3, caseId) then Enqueue(w3, CasePackage(caseId)) else w3)
  }

  /** handleEvidencePackageBuild's transaction for a signer's package... */
  function SignerPackaged(w: World, caseId: Id, signerId: Id): World {
    w.(intents := map i | i in w.intents ::
      if w.intents[i].caseId == caseId && w.intents[i].signerId == signerId && w.intents[i].status == Verified
      then w.intents[i].(status := Packaged) else w.intents[i])
  }

  /** ...and for a whole case's. */
  function CasePackaged(w: World, caseId: Id): Option<World> {
    if caseId !in w.cases || (w.cases[caseId] != Sent && w.cases[caseId] != InProgress && w.cases[caseId] != PartiallySigned) then Some(w)
    else if !CaseMay(w.cases[caseId], Completed) then None
    else Some(w.(cases := w.cases[caseId := Completed]))
  }

  /** The statuses that handleCaseExpire leaves alone. */
  predicate IsClosed(status: CaseStatus) {
    status == Completed || status == CaseDeclined || status == CaseExpired || status == CaseCancelled || status == CaseFailed || status == Archived
  }

  /** The statuses from which the guard lets a case expire. */
  predicate IsUnderWay(status: CaseStatus) {
    status == Sent || status == InProgress || status == PartiallySigned
  }

  predicate ToExpire(s: Signer, caseId: Id) {
    s.caseId == caseId && (s.status != Signed && s.status != Declined && s.status != SignerCancelled && s.status != SignerFailed)
  }

  /** handleCaseExpire, for a case whose time has passed. */
  function Expired(w: World, caseId: Id): Option<World>
    requires caseId in w.cases
  {
    if IsClosed(w.cases[caseId]) then Some(w)
    else if !CaseMay(w.cases[caseId], CaseExpired) then None
    else if exists s :: s in w.signers && ToExpire(w.signers[s], caseId) && !SignerMay(w.signers[s].status, SignerExpired) then None
    else Some(w.(cases := w.cases[caseId := CaseExpired],
                 signers := map s | s in w.signers ::
                   if ToExpire(w.signers[s], caseId) then w.signers[s].(status := SignerExpired) else w.signers[s]))
  }

  predicate NonePending(w: World, caseId: Id) {
    forall s :: s in w.signers && w.signers[s].caseId == caseId ==> w.signers[s].status != Pending
  }

  /** The case has expired with all its open signers, and nothing else has changed. */
  ghost predicate HasExpired(w: World, v: World, caseId: Id) {
    && v == w.(cases := w.cases[caseId := CaseExpired], signers := v.signers) && v.signers.Keys == w.signers.Keys
    && forall s :: s in w.signers ==>
         v.signers[s] == if ToExpire(w.signers[s], caseId) then w.signers[s].(status := SignerExpired) else w.signers[s]
  }

  lemma OnlyPendingKept(s: Signer, caseId: Id)
    requires ToExpire(s, caseId)
    ensures SignerMay(s.status, SignerExpired) <==> s.status != Pending
  {
  }

  /**
   * An overdue case does not always expire. The job's transaction commits exactly for closed cases,
   * which it leaves as they are, and for cases under way none of whose signers is pending, which then
   * expire with every open signer. One signer whose turn has not come rolls the expiry back, and so
   * does a case that is still being prepared or already being archived.
   */
  lemma ExpiryCommits(w: World, caseId: Id)
    requires caseId in w.cases
    ensures Expired(w, caseId).Some? <==> IsClosed(w.cases[caseId]) || (IsUnderWay(w.cases[caseId]) && NonePending(w, caseId))
    ensures IsClosed(w.cases[caseId]) ==> Expired(w, caseId) == Some(w)
    ensures Expired(w, caseId).Some? && !IsClosed(w.cases[caseId]) ==> HasExpired(w, Expired(w, caseId).value, caseId)
  {
    hide SignerMay;
    forall s | s in w.signers && ToExpire(w.signers[s], caseId)
      ensures SignerMay(w.signers[s].status, SignerExpired) <==> w.signers[s].status != Pending
    {
      OnlyPendingKept(w.signers[s], caseId);
    }
  }

  /**
   * Completion commits from in_progress and partially_signed only: a case that is still 'sent' is
   * selected by the statement but refused by the guard, and its package transaction rolls back.
   */
  lemma CompletionCommits(w: World, caseId: Id)
    requires caseId in w.cases
    ensures CasePackaged(w, caseId).Some? && CasePackaged(w, caseId).value.cases[caseId] == Completed
       <==> (w.cases[caseId] == InProgress || w.cases[caseId] == PartiallySigned || w.cases[caseId] == Completed)
    ensures CasePackaged(w, caseId) == None <==> w.cases[caseId] == Sent
  {
  }
}
