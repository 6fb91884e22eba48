/** What every interleaving of the signing workers keeps. */
module SigningSafety {
  import opened Results
  import opened SigningRows

  /* ---- Steps ---- */

  /** One committed or rolled-back transaction of a worker, or a move of everything else. */
  datatype Step =
    | Collect(transactionId: Id)
    | FailIdentity(transactionId: Id)
    | JudgeIdentity(transactionId: Id, pass: bool)
    | StartSigning(intentId: Id)
    | RecordAttempt(intentId: Id, versionId: Id, attemptId: Id)
    | JudgeSignature(intentId: Id, attemptId: Id, admitted: bool, group: set<Id>)
    | PackageSigner(caseId: Id, signerId: Id)
    | PackageCase(caseId: Id)
    | Expire(caseId: Id)
    | Environment(next: World)

  predicate IsEditable(status: CaseStatus) {
    status == Draft || status == Preparing || status == Ready
  }

  /**
   * What the rest of the system may do: it obeys the transition guards, changes who must sign only
   * while the case is being prepared, creates intents for cases that have been sent, starts, ends and
   * cancels identity transactions, and leaves to the workers what only they record.
   */
  ghost predicate EnvironmentMoves(w: World, v: World) {
    && v.evidence == w.evidence && v.attempts == w.attempts && v.jobs == w.jobs
    && (forall c :: c in w.cases ==> c in v.cases && CaseMay(w.cases[c], v.cases[c]) && (v.cases[c] == Completed ==> w.cases[c] == Completed))
    && (forall c :: c in v.cases && c !in w.cases ==> IsEditable(v.cases[c]))
    && (forall s :: s in w.signers ==>
         && s in v.signers && v.signers[s].caseId == w.signers[s].caseId
         && SignerMay(w.signers[s].status, v.signers[s].status)
         && (IsPastIdentity(v.signers[s].status) ==> v.signers[s].status == w.signers[s].status))
    && (forall s :: s in v.signers && (s !in w.signers || v.signers[s].required != w.signers[s].required) ==>
         v.signers[s].caseId in w.cases ==> IsEditable(w.cases[v.signers[s].caseId]))
    && (forall s :: s in v.signers && s !in w.signers ==> v.signers[s].status == Pending)
    && (forall i :: i in w.intents ==>
         && i in v.intents && v.intents[i].caseId == w.intents[i].caseId && v.intents[i].signerId == w.intents[i].signerId
         && v.intents[i].documents == w.intents[i].documents)
    && (forall i :: i in v.intents && i !in w.intents ==>
         && v.intents[i].caseId in v.cases && !IsEditable(v.cases[v.intents[i].caseId])
         && v.intents[i].signerId in v.signers)
    && (forall t :: t in w.transactions ==>
         && t in v.transactions && v.transactions[t].intentId == w.transactions[t].intentId
         && IdentityMay(w.transactions[t].status, v.transactions[t].status)
         && ((v.transactions[t].status == CompleteCollected || v.transactions[t].status == IdVerified) ==> v.transactions[t].status == w.transactions[t].status))
    && (forall t :: t in v.transactions && t !in w.transactions ==>
         v.transactions[t].intentId in v.intents && v.transactions[t].status == IdPending && t !in w.evidence)
  }

  /** The signable documents of an intent. */
  predicate HasDocument(intent: Intent, versionId: Id) {
    IntentDocument(versionId, true) in intent.documents
  }

  /** A worker's transaction runs for jobs that have been enqueued, any number of times. */
  ghost predicate Enabled(w: World, step: Step) {
    match step
    case Collect(t) => t in w.transactions && w.transactions[t].intentId in w.intents
    case FailIdentity(t) => t in w.transactions && w.transactions[t].intentId in w.intents
    case JudgeIdentity(t, _) => SignatureValidate(t) in w.jobs && t in w.transactions && w.transactions[t].intentId in w.intents
    case StartSigning(i) => PadesCreate(i) in w.jobs && i in w.intents && IsIdentified(w, i)
    case RecordAttempt(i, v, a) =>
      PadesCreate(i) in w.jobs && i in w.intents && IsIdentified(w, i) && HasDocument(w.intents[i], v) && a !in w.attempts
    case JudgeSignature(i, a, _, _) => PadesValidate(i, a) in w.jobs && i in w.intents && a in w.attempts
    case PackageSigner(c, s) => SignerPackage(c, s) in w.jobs
    case PackageCase(c) => CasePackage(c) in w.jobs
    case Expire(c) => c in w.cases
    case Environment(next) => EnvironmentMoves(w, next)
  }

  function Effect(w: World, step: Step): Option<World>
    requires Enabled(w, step)
  {
    match step
    case Collect(t) => Collected(w, t)
    case FailIdentity(t) => FailedIdentity(w, t)
    case JudgeIdentity(t, pass) => IdentityJudged(w, t, pass)
    case StartSigning(i) => SigningStarted(w, i)
    case RecordAttempt(i, v, a) => AttemptRecorded(w, i, v, a)
    case JudgeSignature(i, a, admitted, group) => SignatureJudged(w, i, a, admitted, group)
    case PackageSigner(c, s) => Some(SignerPackaged(w, c, s))
    case PackageCase(c) => CasePackaged(w, c)
    case Expire(c) => Expired(w, c)
    case Environment(next) => Some(next)
  }

  ghost function Apply(w: World, step: Step): World {
    if !Enabled(w, step) then w
    else match Effect(w, step)
      case None => w
      case Some(next) => next
  }

  ghost function Run(w: World, steps: seq<Step>): World {
    if steps == [] then w else Apply(Run(w, steps[..|steps| - 1]), steps[|steps| - 1])
  }

  /* ---- The invariant ---- */

  ghost predicate Wired(w: World) {
    && (forall i :: i in w.intents ==>
         && w.intents[i].signerId in w.signers
         && w.intents[i].caseId in w.cases && !IsEditable(w.cases[w.intents[i].caseId]))
    && (forall t :: t in w.transactions ==> w.transactions[t].intentId in w.intents)
    && (forall t :: t in w.evidence ==> t in w.transactions)
    && (forall t :: t in w.transactions && w.transactions[t].status == IdVerified ==> t in w.evidence && w.evidence[t])
  }

  /** Statuses that no transition leaves. */
  predicate IsFinal(status: SignerStatus) {
    (status == Signed || status == Declined || status == SignerExpired || status == SignerCancelled || status == SignerFailed)
  }

  /** A failed verdict has ended the identity transaction and its signer's chances. */
  ghost predicate FailuresEnd(w: World) {
    forall t :: t in w.evidence && !w.evidence[t] ==> FailureEnds(w, t)
  }

  predicate FailureEnds(w: World, t: Id) {
    && t in w.transactions && w.transactions[t].intentId in w.intents
    && w.intents[w.transactions[t].intentId].signerId in w.signers
    && IsFinal(w.signers[w.intents[w.transactions[t].intentId].signerId].status)
  }

  predicate IsPastIdentity(status: SignerStatus) {
    status == IdentityVerified || status == Signing || status == Signed
  }

  /** Some intent of the signer has passing evidence. */
  ghost predicate SignerEvidenced(w: World, s: Id) {
    exists i :: i in w.intents && w.intents[i].signerId == s && IsEvidenced(w, i)
  }

  /** Some intent of the signer is identified. */
  ghost predicate SignerIdentified(w: World, s: Id) {
    exists i :: i in w.intents && w.intents[i].signerId == s && IsIdentified(w, i)
  }

  /** Some identified intent of the signer has signable documents, all of them with a validated attempt. */
  ghost predicate FullySigned(w: World, s: Id) {
    exists i :: i in w.intents && w.intents[i].signerId == s && IsIdentified(w, i)
      && AllValidated(w, i, s) && exists v :: HasDocument(w.intents[i], v)
  }

  ghost predicate SignersEarned(w: World) {
    forall s :: s in w.signers ==>
      && (IsPastIdentity(w.signers[s].status) ==> SignerEvidenced(w, s))
      && (w.signers[s].status == Signing ==> SignerIdentified(w, s))
      && (w.signers[s].status == Signed ==> FullySigned(w, s))
  }

  ghost predicate JobsEarned(w: World) {
    && (forall i, a :: PadesValidate(i, a) in w.jobs ==>
         && i in w.intents && a in w.attempts && w.attempts[a].signerId == w.intents[i].signerId && IsIdentified(w, i)
         && exists v :: HasDocument(w.intents[i], v))
    && (forall c :: CasePackage(c) in w.jobs ==> c in w.cases && !IsEditable(w.cases[c]) && AllRequiredSigned(w, c))
  }

  ghost predicate CasesEarned(w: World) {
    forall c :: c in w.cases && w.cases[c] == Completed ==> AllRequiredSigned(w, c)
  }

  ghost predicate Safe(w: World) {
    Wired(w) && FailuresEnd(w) && SignersEarned(w) && JobsEarned(w) && CasesEarned(w)
  }

  /* ---- What is never taken back ---- */

  ghost predicate IntentsKept(a: map<Id, Intent>, b: map<Id, Intent>) {
    forall i :: i in a ==> i in b && b[i].caseId == a[i].caseId && b[i].signerId == a[i].signerId && b[i].documents == a[i].documents
  }

  ghost predicate TransactionsKept(a: map<Id, Transaction>, b: map<Id, Transaction>) {
    forall t :: t in a ==> t in b && b[t].intentId == a[t].intentId && (a[t].status == IdVerified ==> b[t].status == IdVerified)
  }

  ghost predicate EvidenceKept(a: map<Id, bool>, b: map<Id, bool>) {
    forall t :: t in a ==> t in b && b[t] == a[t]
  }

  ghost predicate AttemptsKept(a: map<Id, Attempt>, b: map<Id, Attempt>) {
    forall n :: n in a ==>
      && n in b && b[n].signerId == a[n].signerId && b[n].versionId == a[n].versionId
      && (a[n].status == AttemptValidated ==> b[n].status == AttemptValidated)
  }

  ghost predicate SignersKept(a: map<Id, Signer>, b: map<Id, Signer>) {
    forall s :: s in a ==> s in b && b[s].caseId == a[s].caseId && (IsFinal(a[s].status) ==> b[s].status == a[s].status)
  }

  ghost predicate CasesKept(a: map<Id, CaseStatus>, b: map<Id, CaseStatus>) {
    forall c :: c in a ==> c in b && (!IsEditable(a[c]) ==> !IsEditable(b[c]))
  }

  /** Everything the invariant builds on only grows. */
  ghost predicate Grows(w: World, v: World) {
    && IntentsKept(w.intents, v.intents) && TransactionsKept(w.transactions, v.transactions)
    && EvidenceKept(w.evidence, v.evidence) && AttemptsKept(w.attempts, v.attempts)
    && SignersKept(w.signers, v.signers) && CasesKept(w.cases, v.cases) && w.jobs <= v.jobs
  }

  lemma IdentifiedStays(w: World, v: World, i: Id)
    requires Grows(w, v) && IsIdentified(w, i)
    ensures IsIdentified(v, i)
  {
    var t :| t in w.transactions && w.transactions[t] == Transaction(i, IdVerified) && t in w.evidence && w.evidence[t];
    assert v.transactions[t] == Transaction(i, IdVerified) && t in v.evidence && v.evidence[t];
  }

  lemma SignerEvidencedStays(w: World, v: World, s: Id)
    requires Grows(w, v) && SignerEvidenced(w, s)
    ensures SignerEvidenced(v, s)
  {
    hide IsEvidenced;
    var i :| i in w.intents && w.intents[i].signerId == s && IsEvidenced(w, i);
    EvidencedStays(w, v, i);
    assert i in v.intents && v.intents[i].signerId == s;
  }

  lemma EvidencedStays(w: World, v: World, i: Id)
    requires Grows(w, v) && IsEvidenced(w, i)
    ensures IsEvidenced(v, i)
  {
    var t :| t in w.transactions && w.transactions[t].intentId == i && t in w.evidence && w.evidence[t];
    assert t in v.transactions && v.transactions[t].intentId == i && t in v.evidence && v.evidence[t];
  }

  lemma SignerIdentifiedStays(w: World, v: World, s: Id)
    requires Grows(w, v) && SignerIdentified(w, s)
    ensures SignerIdentified(v, s)
  {
    hide IsIdentified;
    var i :| i in w.intents && w.intents[i].signerId == s && IsIdentified(w, i);
    IdentifiedStays(w, v, i);
    assert i in v.intents && v.intents[i].signerId == s;
  }

  lemma ValidatedStays(w: World, v: World, signerId: Id, versionId: Id)
    requires Grows(w, v) && IsValidated(w, signerId, versionId)
    ensures IsValidated(v, signerId, versionId)
  {
    var a :| a in w.attempts && w.attempts[a] == Attempt(signerId, versionId, AttemptValidated);
    assert v.attempts[a] == Attempt(signerId, versionId, AttemptValidated);
  }

  lemma FullySignedStays(w: World, v: World, s: Id)
    requires Grows(w, v) && FullySigned(w, s)
    ensures FullySigned(v, s)
  {
    hide IsIdentified, IsValidated;
    var i :| i in w.intents && w.intents[i].signerId == s && IsIdentified(w, i)
      && AllValidated(w, i, s) && exists x :: HasDocument(w.intents[i], x);
    IdentifiedStays(w, v, i);
    var x :| HasDocument(w.intents[i], x);
    assert HasDocument(v.intents[i], x);
    forall d | d in v.intents[i].documents && d.signable ensures IsValidated(v, s, d.versionId) {
      ValidatedStays(w, v, s, d.versionId);
    }
    assert i in v.intents && v.intents[i].signerId == s && AllValidated(v, i, s);
  }

  /** The required signers of a case that is not being prepared stay the same. */
  ghost predicate RequiredFixed(w: World, v: World) {
    && (forall s :: s in v.signers && v.signers[s].required && v.signers[s].caseId in w.cases && !IsEditable(w.cases[v.signers[s].caseId]) ==>
         s in w.signers && w.signers[s].required)
  }

  lemma AllSignedStays(w: World, v: World, c: Id)
    requires Grows(w, v) && RequiredFixed(w, v) && c in w.cases && !IsEditable(w.cases[c]) && AllRequiredSigned(w, c)
    ensures AllRequiredSigned(v, c) && !IsEditable(v.cases[c])
  {
  }

  /* ---- What one step can do ---- */

  /** Which steps make a signer identified, signing or signed, and from where. */
  ghost predicate SignersMove(w: World, v: World, step: Step) {
    forall s :: s in v.signers ==>
      if s !in w.signers then v.signers[s].status == Pending
      else SignerMoves(w, v, step, s)
  }

  ghost predicate SignerMoves(w: World, v: World, step: Step, s: Id)
    requires s in w.signers && s in v.signers
  {
    && (v.signers[s].status == IdentityVerified && w.signers[s].status != IdentityVerified ==>
         && step.JudgeIdentity? && step.pass && w.signers[s].status == IdentityStarted
         && step.transactionId in w.transactions && w.transactions[step.transactionId].intentId in w.intents
         && w.intents[w.transactions[step.transactionId].intentId].signerId == s)
    && (v.signers[s].status == Signing && w.signers[s].status != Signing ==>
         && step.StartSigning? && w.signers[s].status == IdentityVerified
         && step.intentId in w.intents && w.intents[step.intentId].signerId == s)
    && (v.signers[s].status == Signed && w.signers[s].status != Signed ==>
         && step.JudgeSignature? && step.admitted && w.signers[s].status == Signing
         && step.attemptId in w.attempts && w.attempts[step.attemptId].signerId == s
         && step.intentId in v.intents && AllValidated(v, step.intentId, s))
  }

  ghost predicate JobsMove(w: World, v: World, step: Step) {
    && (forall i, a :: PadesValidate(i, a) in v.jobs && PadesValidate(i, a) !in w.jobs ==>
         && step.RecordAttempt? && step.intentId == i && step.attemptId == a && a in v.attempts && i in w.intents
         && v.attempts[a].signerId == w.intents[i].signerId && IsIdentified(w, i) && HasDocument(w.intents[i], step.versionId))
    && (forall c :: CasePackage(c) in v.jobs && CasePackage(c) !in w.jobs ==>
         step.JudgeSignature? && step.intentId in w.intents && w.intents[step.intentId].caseId == c && AllRequiredSigned(v, c))
  }

  ghost predicate CasesMove(w: World, v: World, step: Step) {
    forall c :: c in v.cases && v.cases[c] == Completed ==>
      c in w.cases && (w.cases[c] == Completed || (step == PackageCase(c) && CasePackage(c) in w.jobs))
  }

  ghost predicate Facts(w: World, v: World, step: Step) {
    && Grows(w, v) && RequiredFixed(w, v) && Wired(v) && FailuresEnd(v)
    && SignersMove(w, v, step) && JobsMove(w, v, step) && CasesMove(w, v, step)
  }

  /* ---- The workers' statements ---- */

  /** A worker adds no signer, intent, identity transaction or case, and changes no signer's role. */
  ghost predicate Steady(w: World, v: World) {
    && Grows(w, v)
    && v.signers.Keys == w.signers.Keys && v.intents.Keys == w.intents.Keys
    && v.transactions.Keys == w.transactions.Keys && v.cases.Keys == w.cases.Keys
    && forall s :: s in w.signers ==> v.signers[s].required == w.signers[s].required
  }

  lemma Unchanged(w: World)
    ensures IntentsKept(w.intents, w.intents) && TransactionsKept(w.transactions, w.transactions)
    ensures EvidenceKept(w.evidence, w.evidence) && AttemptsKept(w.attempts, w.attempts)
    ensures SignersKept(w.signers, w.signers) && CasesKept(w.cases, w.cases)
  {
  }

  lemma GrowsTransitive(a: World, b: World, c: World)
    requires Grows(a, b) && Grows(b, c)
    ensures Grows(a, c)
  {
  }

  lemma SteadyTransitive(a: World, b: World, c: World)
    requires Steady(a, b) && Steady(b, c)
    ensures Steady(a, c)
  {
    GrowsTransitive(a, b, c);
    hide Grows;
  }

  lemma FinalStuck(from: SignerStatus, to: SignerStatus)
    ensures SignerMay(from, to) && IsFinal(from) ==> from == to
  {
  }

  lemma VerifiedStuck(to: IdentityStatus)
    ensures IdentityMay(IdVerified, to) ==> to == IdVerified
  {
  }

  lemma SetSignerSteady(w: World, id: Id, status: SignerStatus)
    ensures SetSigner(w, id, status).Some? ==> Steady(w, SetSigner(w, id, status).value)
  {
    hide IntentsKept, TransactionsKept, EvidenceKept, AttemptsKept, CasesKept, SignerMay;
    if id in w.signers {
      FinalStuck(w.signers[id].status, status);
    }
    Unchanged(w);
  }

  lemma MoveIntentSteady(w: World, id: Id, from: IntentStatus, to: IntentStatus)
    ensures Steady(w, MoveIntent(w, id, from, to))
  {
    hide TransactionsKept, EvidenceKept, AttemptsKept, SignersKept, CasesKept;
    Unchanged(w);
  }

  lemma SetTransactionSteady(w: World, id: Id, status: IdentityStatus)
    ensures SetTransaction(w, id, status).Some? ==> Steady(w, SetTransaction(w, id, status).value)
  {
    hide IntentsKept, EvidenceKept, AttemptsKept, SignersKept, CasesKept, IdentityMay;
    VerifiedStuck(status);
    Unchanged(w);
  }

  lemma SetAttemptSteady(w: World, id: Id, status: AttemptStatus)
    ensures SetAttempt(w, id, status).Some? ==> Steady(w, SetAttempt(w, id, status).value)
  {
    hide IntentsKept, TransactionsKept, EvidenceKept, SignersKept, CasesKept;
    Unchanged(w);
  }

  lemma EnqueueSteady(w: World, job: Job)
    ensures Steady(w, Enqueue(w, job)) && Steady(w, w)
  {
    hide IntentsKept, TransactionsKept, EvidenceKept, AttemptsKept, SignersKept, CasesKept;
    Unchanged(w);
  }

  lemma ActivatedSteady(w: World, c: Id, group: set<Id>)
    ensures Steady(w, Activated(w, c, group))
  {
    hide IntentsKept, TransactionsKept, EvidenceKept, AttemptsKept, CasesKept;
    Unchanged(w);
  }

  lemma SteadyRequired(w: World, v: World)
    requires Steady(w, v)
    ensures Grows(w, v) && RequiredFixed(w, v)
  {
  }

  /** What links evidence to identity transactions. */
  ghost predicate EvidenceWired(w: World) {
    && (forall t :: t in w.evidence ==> t in w.transactions)
    && (forall t :: t in w.transactions && w.transactions[t].status == IdVerified ==> t in w.evidence && w.evidence[t])
  }

  lemma SteadyWired(w: World, v: World)
    requires Wired(w) && Steady(w, v) && EvidenceWired(v)
    ensures Wired(v)
  {
  }

  lemma FailureStays(w: World, v: World, t: Id)
    requires FailureEnds(w, t) && Grows(w, v)
    ensures FailureEnds(v, t)
  {
    hide AttemptsKept, EvidenceKept, CasesKept;
  }

  lemma SameFailures(w: World, v: World)
    requires FailuresEnd(w) && Steady(w, v) && v.evidence == w.evidence
    ensures FailuresEnd(v)
  {
    hide FailureEnds, Grows;
    forall t | t in v.evidence && !v.evidence[t] ensures FailureEnds(v, t) {
      FailureStays(w, v, t);
    }
  }

  /** Everything that can be said of a step from what it leaves unchanged. */
  lemma FactsOf(w: World, v: World, step: Step)
    requires Wired(w) && Steady(w, v) && EvidenceWired(v) && FailuresEnd(v)
    requires SignersMove(w, v, step) && JobsMove(w, v, step) && CasesMove(w, v, step)
    ensures Facts(w, v, step)
  {
    hide Wired, Steady, EvidenceWired, FailuresEnd, SignersMove, JobsMove, CasesMove, Grows, RequiredFixed;
    SteadyRequired(w, v);
    SteadyWired(w, v);
  }

  lemma NoMoves(w: World, v: World, step: Step)
    ensures v.signers == w.signers ==> SignersMove(w, v, step)
    ensures v.cases == w.cases ==> CasesMove(w, v, step)
    ensures v.jobs <= w.jobs ==> JobsMove(w, v, step)
  {
    hide IsIdentified, AllRequiredSigned, AllValidated, HasDocument;
  }

  lemma OtherJob(w: World, v: World, step: Step, job: Job)
    requires v.jobs <= w.jobs + {job} && !job.PadesValidate? && !job.CasePackage?
    ensures JobsMove(w, v, step)
  {
    hide IsIdentified, AllRequiredSigned, HasDocument;
  }

  /** One signer's move that reaches none of the earned statuses. */
  lemma OneSignerFails(w: World, v: World, step: Step, id: Id)
    requires v.signers == w.signers
          || (id in w.signers && v.signers == w.signers[id := w.signers[id].(status := SignerFailed)])
    ensures SignersMove(w, v, step)
  {
    hide AllValidated;
  }

  lemma WiredEvidence(w: World)
    requires Wired(w)
    ensures EvidenceWired(w)
  {
  }

  lemma SameEvidence(w: World, v: World)
    requires EvidenceWired(w) && v.evidence == w.evidence && v.transactions == w.transactions
    ensures EvidenceWired(v)
  {
  }

  lemma SetTransactionWired(w: World, id: Id, status: IdentityStatus)
    requires EvidenceWired(w)
    ensures SetTransaction(w, id, status).Some? ==> EvidenceWired(SetTransaction(w, id, status).value)
  {
    hide IdentityMay;
  }

  lemma RecordWired(w: World, t: Id, pass: bool)
    requires EvidenceWired(w) && t in w.transactions
    ensures EvidenceWired(if t in w.evidence then w else w.(evidence := w.evidence[t := pass]))
  {
  }

  lemma WiredTransaction(w: World, t: Id)
    requires Wired(w) && t in w.transactions
    ensures w.transactions[t].intentId in w.intents && w.intents[w.transactions[t].intentId].signerId in w.signers
  {
  }

  lemma SetTransactionOnly(w: World, id: Id, status: IdentityStatus)
    ensures SetTransaction(w, id, status).Some? ==>
      SetTransaction(w, id, status).value == w.(transactions := SetTransaction(w, id, status).value.transactions)
  {
    hide IdentityMay;
  }

  lemma CollectFacts(w: World, t: Id)
    requires Wired(w) && FailuresEnd(w) && t in w.transactions && Collected(w, t).Some?
    ensures Facts(w, Collected(w, t).value, Collect(t))
  {
    hide Facts, Steady, SignersMove, JobsMove, CasesMove, MoveIntent, FailuresEnd, Wired, EvidenceWired, SetTransaction;
    WiredTransaction(w, t);
    WiredEvidence(w);
    SetTransactionWired(w, t, CompleteCollected);
    SetTransactionOnly(w, t, CompleteCollected);
    var v := Collected(w, t).value;
    var w1 := (if IsWaiting(w.transactions[t]) then SetTransaction(w, t, CompleteCollected) else Some(w)).value;
    var w2 := MoveIntent(w1, w.transactions[t].intentId, ProviderStarted, EvidenceCollected);
    SetTransactionSteady(w, t, CompleteCollected);
    EnqueueSteady(w, SignatureValidate(t));
    MoveIntentSteady(w1, w.transactions[t].intentId, ProviderStarted, EvidenceCollected);
    MoveIntentOnly(w1, w.transactions[t].intentId, ProviderStarted, EvidenceCollected);
    EnqueueSteady(w2, SignatureValidate(t));
    SteadyTransitive(w, w1, w2);
    SteadyTransitive(w, w2, v);
    SameEvidence(w1, v);
    SameFailures(w, v);
    NoMoves(w, v, Collect(t));
    OtherJob(w, v, Collect(t), SignatureValidate(t));
    FactsOf(w, v, Collect(t));
  }

  lemma MoveIntentOnly(w: World, id: Id, from: IntentStatus, to: IntentStatus)
    ensures MoveIntent(w, id, from, to) == w.(intents := MoveIntent(w, id, from, to).intents)
  {
  }

  lemma FailSignerOnly(w: World, id: Id)
    ensures FailSigner(w, id).Some? ==>
      var v := FailSigner(w, id).value;
      && Steady(w, v) && v == w.(signers := v.signers)
      && (v.signers == w.signers || (id in w.signers && v.signers == w.signers[id := w.signers[id].(status := SignerFailed)]))
      && (id in w.signers ==> IsFinal(v.signers[id].status))
  {
    hide Steady;
    SetSignerSteady(w, id, SignerFailed);
    EnqueueSteady(w, SignatureValidate(id));
  }

  lemma FailIdentityFacts(w: World, t: Id)
    requires Wired(w) && FailuresEnd(w) && t in w.transactions && FailedIdentity(w, t).Some?
    ensures Facts(w, FailedIdentity(w, t).value, FailIdentity(t))
  {
    hide Facts, Steady, SignersMove, JobsMove, CasesMove, MoveIntent, FailSigner, FailuresEnd, Wired, EvidenceWired, SetTransaction;
    WiredTransaction(w, t);
    WiredEvidence(w);
    SetTransactionWired(w, t, IdFailed);
    SetTransactionOnly(w, t, IdFailed);
    var v, i := FailedIdentity(w, t).value, w.transactions[t].intentId;
    var w1 := (if IsWaiting(w.transactions[t]) then SetTransaction(w, t, IdFailed) else Some(w)).value;
    var w2 := MoveIntent(w1, i, ProviderStarted, IntentFailed);
    SetTransactionSteady(w, t, IdFailed);
    EnqueueSteady(w, SignatureValidate(t));
    MoveIntentSteady(w1, i, ProviderStarted, IntentFailed);
    MoveIntentOnly(w1, i, ProviderStarted, IntentFailed);
    FailSignerOnly(w2, w.intents[i].signerId);
    SteadyTransitive(w, w1, w2);
    SteadyTransitive(w, w2, v);
    SameEvidence(w1, v);
    SameFailures(w, v);
    NoMoves(w, v, FailIdentity(t));
    OneSignerFails(w, v, FailIdentity(t), w.intents[i].signerId);
    FactsOf(w, v, FailIdentity(t));
  }

  lemma RecordSteady(w: World, t: Id, pass: bool)
    ensures Steady(w, if t in w.evidence then w else w.(evidence := w.evidence[t := pass]))
  {
    hide IntentsKept, TransactionsKept, AttemptsKept, SignersKept, CasesKept;
    Unchanged(w);
  }

  lemma RejectIdentityFacts(w: World, t: Id)
    requires Wired(w) && FailuresEnd(w) && t in w.transactions && IdentityJudged(w, t, false).Some?
    ensures Facts(w, IdentityJudged(w, t, false).value, JudgeIdentity(t, false))
  {
    hide Facts, Steady, SignersMove, JobsMove, CasesMove, MoveIntent, FailSigner, FailuresEnd, Wired, EvidenceWired, SetTransaction;
    WiredTransaction(w, t);
    WiredEvidence(w);
    RecordWired(w, t, false);
    var v, i := IdentityJudged(w, t, false).value, w.transactions[t].intentId;
    var recorded := if t in w.evidence then w else w.(evidence := w.evidence[t := false]);
    SetTransactionWired(recorded, t, IdFailed);
    SetTransactionOnly(recorded, t, IdFailed);
    var w1 := SetTransaction(recorded, t, IdFailed).value;
    var w2 := MoveIntent(w1, i, EvidenceCollected, IntentFailed);
    RecordSteady(w, t, false);
    SetTransactionSteady(recorded, t, IdFailed);
    MoveIntentSteady(w1, i, EvidenceCollected, IntentFailed);
    MoveIntentOnly(w1, i, EvidenceCollected, IntentFailed);
    FailSignerOnly(w2, w.intents[i].signerId);
    SteadyTransitive(w, recorded, w1);
    SteadyTransitive(w, w1, w2);
    SteadyTransitive(w, w2, v);
    SameEvidence(w1, v);
    SameIntents(w, v, i);
    RejectionEnds(w, v, t);
    NoMoves(w, v, JudgeIdentity(t, false));
    OneSignerFails(w, v, JudgeIdentity(t, false), w.intents[i].signerId);
    FactsOf(w, v, JudgeIdentity(t, false));
  }

  lemma SameIntents(w: World, v: World, i: Id)
    requires Steady(w, v) && i in w.intents && w.intents[i].signerId in w.signers
    ensures w.intents[i].signerId in v.signers
  {
  }

  lemma RejectionEnds(w: World, v: World, t: Id)
    requires FailuresEnd(w) && Steady(w, v) && t in w.transactions && w.transactions[t].intentId in w.intents
    requires v.evidence == (if t in w.evidence then w.evidence else w.evidence[t := false])
    requires w.intents[w.transactions[t].intentId].signerId in v.signers
    requires IsFinal(v.signers[w.intents[w.transactions[t].intentId].signerId].status)
    ensures FailuresEnd(v)
  {
    hide FailureEnds, Grows;
    forall n | n in v.evidence && !v.evidence[n] ensures FailureEnds(v, n) {
      if n in w.evidence {
        FailureStays(w, v, n);
      } else {
        NewFailure(w, v, n);
      }
    }
  }

  lemma NewFailure(w: World, v: World, t: Id)
    requires Steady(w, v) && t in w.transactions && w.transactions[t].intentId in w.intents
    requires w.intents[w.transactions[t].intentId].signerId in v.signers
    requires IsFinal(v.signers[w.intents[w.transactions[t].intentId].signerId].status)
    ensures FailureEnds(v, t)
  {
    hide AttemptsKept, EvidenceKept, CasesKept, SignersKept;
  }

  lemma AcceptIdentityFacts(w: World, t: Id)
    requires Wired(w) && FailuresEnd(w) && t in w.transactions && IdentityJudged(w, t, true).Some?
    ensures Facts(w, IdentityJudged(w, t, true).value, JudgeIdentity(t, true))
  {
    hide Facts, Steady, SignersMove, JobsMove, CasesMove, MoveIntent, MoveSigner, FailuresEnd, Wired, EvidenceWired, SetTransaction;
    WiredTransaction(w, t);
    WiredEvidence(w);
    RecordWired(w, t, true);
    var v, i := IdentityJudged(w, t, true).value, w.transactions[t].intentId;
    var s := w.intents[i].signerId;
    var recorded := if t in w.evidence then w else w.(evidence := w.evidence[t := true]);
    SetTransactionWired(recorded, t, IdVerified);
    SetTransactionOnly(recorded, t, IdVerified);
    var w1 := (if w.transactions[t].status == CompleteCollected then SetTransaction(recorded, t, IdVerified) else Some(recorded)).value;
    var w2 := MoveIntent(w1, i, EvidenceCollected, Verified);
    var w3 := MoveSigner(w2, s, IdentityStarted, IdentityVerified).value;
    RecordSteady(w, t, true);
    SetTransactionSteady(recorded, t, IdVerified);
    EnqueueSteady(recorded, PadesCreate(i));
    MoveIntentSteady(w1, i, EvidenceCollected, Verified);
    MoveIntentOnly(w1, i, EvidenceCollected, Verified);
    MoveSignerOnly(w2, s, IdentityStarted, IdentityVerified);
    EnqueueSteady(w3, PadesCreate(i));
    SteadyTransitive(w, recorded, w1);
    SteadyTransitive(w, w1, w2);
    SteadyTransitive(w, w2, w3);
    SteadyTransitive(w, w3, v);
    SameEvidence(w1, v);
    AcceptanceEnds(w, v, t);
    NoMoves(w, v, JudgeIdentity(t, true));
    OtherJob(w, v, JudgeIdentity(t, true), PadesCreate(i));
    IdentityMoves(w, v, t);
    FactsOf(w, v, JudgeIdentity(t, true));
  }

  lemma MoveSignerOnly(w: World, id: Id, from: SignerStatus, to: SignerStatus)
    ensures MoveSigner(w, id, from, to).Some? ==>
      var v := MoveSigner(w, id, from, to).value;
      && Steady(w, v) && v == w.(signers := v.signers)
      && v.signers == (if id in w.signers && w.signers[id].status == from then w.signers[id := w.signers[id].(status := to)] else w.signers)
  {
    hide Steady;
    SetSignerSteady(w, id, to);
    EnqueueSteady(w, SignatureValidate(id));
  }

  lemma AcceptanceEnds(w: World, v: World, t: Id)
    requires FailuresEnd(w) && Steady(w, v)
    requires v.evidence == (if t in w.evidence then w.evidence else w.evidence[t := true])
    ensures FailuresEnd(v)
  {
    hide FailureEnds, Grows;
    forall n | n in v.evidence && !v.evidence[n] ensures FailureEnds(v, n) {
      FailureStays(w, v, n);
    }
  }

  lemma IdentityMoves(w: World, v: World, t: Id)
    requires t in w.transactions && w.transactions[t].intentId in w.intents
    requires var id := w.intents[w.transactions[t].intentId].signerId;
             v.signers == (if id in w.signers && w.signers[id].status == IdentityStarted
                           then w.signers[id := w.signers[id].(status := IdentityVerified)] else w.signers)
    ensures SignersMove(w, v, JudgeIdentity(t, true))
  {
    hide AllValidated;
  }

  lemma JudgeIdentityFacts(w: World, t: Id, pass: bool)
    requires Wired(w) && FailuresEnd(w) && t in w.transactions && IdentityJudged(w, t, pass).Some?
    ensures Facts(w, IdentityJudged(w, t, pass).value, JudgeIdentity(t, pass))
  {
    hide Facts, Wired, FailuresEnd, IdentityJudged;
    if pass {
      AcceptIdentityFacts(w, t);
    } else {
      RejectIdentityFacts(w, t);
    }
  }

  lemma StartSigningFacts(w: World, i: Id)
    requires Wired(w) && FailuresEnd(w) && i in w.intents && SigningStarted(w, i).Some?
    ensures Facts(w, SigningStarted(w, i).value, StartSigning(i))
  {
    hide Facts, Steady, SignersMove, JobsMove, CasesMove, MoveSigner, Wired, EvidenceWired, FailuresEnd;
    var v := SigningStarted(w, i).value;
    WiredEvidence(w);
    MoveSignerOnly(w, w.intents[i].signerId, IdentityVerified, Signing);
    SameEvidence(w, v);
    SameFailures(w, v);
    NoMoves(w, v, StartSigning(i));
    SigningMoves(w, v, i);
    FactsOf(w, v, StartSigning(i));
  }

  lemma SigningMoves(w: World, v: World, i: Id)
    requires i in w.intents
    requires var id := w.intents[i].signerId;
             v.signers == (if id in w.signers && w.signers[id].status == IdentityVerified
                           then w.signers[id := w.signers[id].(status := Signing)] else w.signers)
    ensures SignersMove(w, v, StartSigning(i))
  {
    hide AllValidated;
  }

  lemma AttemptSteady(w: World, a: Id, attempt: Attempt, job: Job)
    requires a !in w.attempts
    ensures Steady(w, Enqueue(w.(attempts := w.attempts[a := attempt]), job))
  {
    hide IntentsKept, TransactionsKept, EvidenceKept, SignersKept, CasesKept;
    Unchanged(w);
  }

  lemma RecordAttemptFacts(w: World, i: Id, version: Id, a: Id)
    requires Wired(w) && FailuresEnd(w) && i in w.intents && IsIdentified(w, i) && HasDocument(w.intents[i], version) && a !in w.attempts
    ensures AttemptRecorded(w, i, version, a).Some?
    ensures Facts(w, AttemptRecorded(w, i, version, a).value, RecordAttempt(i, version, a))
  {
    hide Facts, SignersMove, CasesMove, IsIdentified, HasDocument, AllRequiredSigned, FailuresEnd, Wired, EvidenceWired, Steady;
    var v := AttemptRecorded(w, i, version, a).value;
    AttemptSteady(w, a, Attempt(w.intents[i].signerId, version, AttemptSigned), PadesValidate(i, a));
    WiredEvidence(w);
    SameEvidence(w, v);
    SameFailures(w, v);
    NoMoves(w, v, RecordAttempt(i, version, a));
    FactsOf(w, v, RecordAttempt(i, version, a));
  }

  lemma RejectSignatureFacts(w: World, i: Id, a: Id, group: set<Id>)
    requires Wired(w) && FailuresEnd(w) && i in w.intents && a in w.attempts && SignatureJudged(w, i, a, false, group).Some?
    ensures Facts(w, SignatureJudged(w, i, a, false, group).value, JudgeSignature(i, a, false, group))
  {
    hide Facts, Steady, SignersMove, JobsMove, CasesMove, MoveSigner, AllValidated, AllRequiredSigned, Wired, EvidenceWired, FailuresEnd;
    WiredEvidence(w);
    var step, v := JudgeSignature(i, a, false, group), SignatureJudged(w, i, a, false, group).value;
    var w1 := SetAttempt(w, a, AttemptFailed).value;
    SetAttemptSteady(w, a, AttemptFailed);
    MoveSignerOnly(w1, w.attempts[a].signerId, Signing, SignerFailed);
    SteadyTransitive(w, w1, v);
    SameEvidence(w, v);
    SameFailures(w, v);
    NoMoves(w, v, step);
    OneSignerFails(w, v, step, w.attempts[a].signerId);
    FactsOf(w, v, step);
  }

  lemma AdmitSignatureFacts(w: World, i: Id, a: Id, group: set<Id>)
    requires Wired(w) && FailuresEnd(w) && i in w.intents && a in w.attempts && SignatureJudged(w, i, a, true, group).Some?
    ensures Facts(w, SignatureJudged(w, i, a, true, group).value, JudgeSignature(i, a, true, group))
  {
    hide Facts, Steady, SignersMove, JobsMove, CasesMove, MoveSigner, MoveIntent, AllValidated, AllRequiredSigned, Activated, Wired, EvidenceWired, FailuresEnd;
    WiredEvidence(w);
    var step, v := JudgeSignature(i, a, true, group), SignatureJudged(w, i, a, true, group).value;
    var s, c := w.attempts[a].signerId, w.intents[i].caseId;
    var w1 := SetAttempt(w, a, AttemptValidated).value;
    SetAttemptSteady(w, a, AttemptValidated);
    if !AllValidated(w1, i, s) {
      SameEvidence(w, v);
      SameFailures(w, v);
      NoMoves(w, v, step);
      FactsOf(w, v, step);
    } else {
      var w2 := MoveSigner(w1, s, Signing, Signed).value;
      MoveSignerOnly(w1, s, Signing, Signed);
      SteadyTransitive(w, w1, w2);
      FinishFacts(w, w1, w2, i, a, group);
    }
  }

  /** The rest of an admission that finishes the signer. */
  function Finished(w2: World, i: Id, s: Id, group: set<Id>): World
    requires i in w2.intents
  {
    var c := w2.intents[i].caseId;
    Activated(Enqueue(MoveIntent(w2, i, Verified, Packaged), SignerPackage(c, s)), c, group)
  }

  lemma FinishedOnly(w2: World, i: Id, s: Id, group: set<Id>)
    requires i in w2.intents
    ensures var (w3, c) := (Finished(w2, i, s, group), w2.intents[i].caseId);
            && Steady(w2, w3) && w3.transactions == w2.transactions && w3.evidence == w2.evidence && w3.cases == w2.cases
            && w3.attempts == w2.attempts && w3.jobs == w2.jobs + {SignerPackage(c, s)} && w3.signers.Keys == w2.signers.Keys
            && forall n :: n in w2.signers ==> w3.signers[n] == w2.signers[n] || (w2.signers[n].status == Pending && w3.signers[n].status == Invited)
  {
    hide Steady, MoveIntent, Activated;
    var c := w2.intents[i].caseId;
    var moved := MoveIntent(w2, i, Verified, Packaged);
    var queued := Enqueue(moved, SignerPackage(c, s));
    MoveIntentSteady(w2, i, Verified, Packaged);
    MoveIntentOnly(w2, i, Verified, Packaged);
    EnqueueSteady(moved, SignerPackage(c, s));
    ActivatedSteady(queued, c, group);
    ActivatedOnly(queued, c, group);
    SteadyTransitive(w2, moved, queued);
    SteadyTransitive(w2, queued, Finished(w2, i, s, group));
  }

  /** The rest of an admission that finishes the signer. */
  lemma FinishFacts(w: World, w1: World, w2: World, i: Id, a: Id, group: set<Id>)
    requires Wired(w) && FailuresEnd(w) && i in w.intents && a in w.attempts
    requires w1 == w.(attempts := w1.attempts) && w2 == w1.(signers := w2.signers) && Steady(w, w2)
    requires AllValidated(w1, i, w.attempts[a].signerId)
    requires var s := w.attempts[a].signerId;
             w2.signers == (if s in w.signers && w.signers[s].status == Signing then w.signers[s := w.signers[s].(status := Signed)] else w.signers)
    ensures var c := w.intents[i].caseId;
            var w3 := Finished(w2, i, w.attempts[a].signerId, group);
            Facts(w, if AllRequiredSigned(w3, c) then Enqueue(w3, CasePackage(c)) else w3, JudgeSignature(i, a, true, group))
  {
    hide Facts, Steady, SignersMove, JobsMove, CasesMove, AllValidated, AllRequiredSigned, FailuresEnd, Wired, EvidenceWired, Finished;
    var s, c := w.attempts[a].signerId, w.intents[i].caseId;
    var step := JudgeSignature(i, a, true, group);
    var w3 := Finished(w2, i, s, group);
    var v := if AllRequiredSigned(w3, c) then Enqueue(w3, CasePackage(c)) else w3;
    FinishedOnly(w2, i, s, group);
    EnqueueSteady(w3, CasePackage(c));
    SteadyTransitive(w, w2, w3);
    SteadyTransitive(w, w3, v);
    WiredEvidence(w);
    SameEvidence(w, v);
    SameFailures(w, v);
    NoMoves(w, v, step);
    SteadyIntents(w, v);
    AdmissionMoves(w, w1, v, i, a, group);
    RequiredSignedOf(w3, v, c);
    AdmissionJobs(w, v, i, a, group);
    FactsOf(w, v, step);
  }

  lemma SteadyIntents(w: World, v: World)
    requires Steady(w, v)
    ensures v.signers.Keys == w.signers.Keys
    ensures forall i :: i in w.intents ==> i in v.intents && v.intents[i].documents == w.intents[i].documents
  {
  }

  lemma ActivatedOnly(w: World, c: Id, group: set<Id>)
    ensures var v := Activated(w, c, group);
            && v == w.(signers := v.signers) && v.signers.Keys == w.signers.Keys
            && forall s :: s in w.signers ==> v.signers[s] == w.signers[s] || (w.signers[s].status == Pending && v.signers[s].status == Invited)
  {
  }

  lemma RequiredSignedOf(w: World, v: World, c: Id)
    requires v.signers == w.signers
    ensures AllRequiredSigned(v, c) == AllRequiredSigned(w, c)
  {
  }

  lemma AdmissionJobs(w: World, v: World, i: Id, a: Id, group: set<Id>)
    requires i in w.intents && (forall job :: job in v.jobs && job !in w.jobs ==> job.SignerPackage? || job == CasePackage(w.intents[i].caseId))
    requires CasePackage(w.intents[i].caseId) in v.jobs ==> CasePackage(w.intents[i].caseId) in w.jobs || AllRequiredSigned(v, w.intents[i].caseId)
    ensures JobsMove(w, v, JudgeSignature(i, a, true, group))
  {
    hide AllRequiredSigned;
  }

  lemma AdmissionMoves(w: World, w1: World, v: World, i: Id, a: Id, group: set<Id>)
    requires a in w.attempts && i in w1.intents && AllValidated(w1, i, w.attempts[a].signerId)
    requires v.attempts == w1.attempts && i in v.intents && v.intents[i].documents == w1.intents[i].documents
    requires v.signers.Keys == w.signers.Keys
    requires forall s :: s in w.signers ==>
      || v.signers[s].status == w.signers[s].status
      || v.signers[s].status == Invited
      || (s == w.attempts[a].signerId && w.signers[s].status == Signing && v.signers[s].status == Signed)
    ensures SignersMove(w, v, JudgeSignature(i, a, true, group))
  {
    assert AllValidated(v, i, w.attempts[a].signerId) by {
      forall d | d in v.intents[i].documents && d.signable ensures IsValidated(v, w.attempts[a].signerId, d.versionId) {
        assert IsValidated(w1, w.attempts[a].signerId, d.versionId);
      }
    }
    hide AllValidated, IsValidated;
  }

  lemma JudgeSignatureFacts(w: World, i: Id, a: Id, admitted: bool, group: set<Id>)
    requires Wired(w) && FailuresEnd(w) && i in w.intents && a in w.attempts && SignatureJudged(w, i, a, admitted, group).Some?
    ensures Facts(w, SignatureJudged(w, i, a, admitted, group).value, JudgeSignature(i, a, admitted, group))
  {
    hide Facts, Wired, FailuresEnd, SignatureJudged;
    if admitted {
      AdmitSignatureFacts(w, i, a, group);
    } else {
      RejectSignatureFacts(w, i, a, group);
    }
  }

  lemma SignerPackagedSteady(w: World, c: Id, s: Id)
    ensures Steady(w, SignerPackaged(w, c, s))
  {
    hide TransactionsKept, EvidenceKept, AttemptsKept, SignersKept, CasesKept;
    Unchanged(w);
  }

  lemma PackageSignerFacts(w: World, c: Id, s: Id)
    requires Wired(w) && FailuresEnd(w)
    ensures Facts(w, SignerPackaged(w, c, s), PackageSigner(c, s))
  {
    hide Facts, SignersMove, JobsMove, CasesMove, Wired, EvidenceWired, FailuresEnd, Steady;
    var v := SignerPackaged(w, c, s);
    SignerPackagedSteady(w, c, s);
    WiredEvidence(w);
    SameEvidence(w, v);
    SameFailures(w, v);
    NoMoves(w, v, PackageSigner(c, s));
    FactsOf(w, v, PackageSigner(c, s));
  }

  lemma CasePackagedSteady(w: World, c: Id)
    requires CasePackage(c) in w.jobs && CasePackaged(w, c).Some?
    ensures var v := CasePackaged(w, c).value;
            v == w.(cases := v.cases) && Steady(w, v) && CasesMove(w, v, PackageCase(c))
  {
    hide IntentsKept, TransactionsKept, EvidenceKept, AttemptsKept, SignersKept;
    Unchanged(w);
  }

  lemma PackageCaseFacts(w: World, c: Id)
    requires Wired(w) && FailuresEnd(w) && CasePackage(c) in w.jobs && CasePackaged(w, c).Some?
    ensures Facts(w, CasePackaged(w, c).value, PackageCase(c))
  {
    hide Facts, SignersMove, JobsMove, FailuresEnd, Wired, Steady, CasesMove;
    var v := CasePackaged(w, c).value;
    CasePackagedSteady(w, c);
    WiredEvidence(w);
    SameEvidence(w, v);
    SameFailures(w, v);
    NoMoves(w, v, PackageCase(c));
    FactsOf(w, v, PackageCase(c));
  }

  lemma ExpiredOnly(w: World, c: Id)
    requires c in w.cases && Expired(w, c).Some?
    ensures var v := Expired(w, c).value;
            && v == w.(signers := v.signers, cases := v.cases) && v.signers.Keys == w.signers.Keys && v.cases.Keys == w.cases.Keys
            && (forall s :: s in w.signers ==>
                 || v.signers[s] == w.signers[s]
                 || (v.signers[s] == w.signers[s].(status := SignerExpired) && !IsFinal(w.signers[s].status)))
            && (forall d :: d in w.cases ==> v.cases[d] == w.cases[d] || v.cases[d] == CaseExpired)
  {
  }

  lemma ExpiredSteady(w: World, c: Id)
    requires c in w.cases && Expired(w, c).Some?
    ensures Steady(w, Expired(w, c).value)
    ensures SignersMove(w, Expired(w, c).value, Expire(c)) && CasesMove(w, Expired(w, c).value, Expire(c))
  {
    hide IntentsKept, TransactionsKept, EvidenceKept, AttemptsKept, Expired, AllValidated;
    Unchanged(w);
    ExpiredOnly(w, c);
  }

  lemma ExpireFacts(w: World, c: Id)
    requires Wired(w) && FailuresEnd(w) && c in w.cases && Expired(w, c).Some?
    ensures Facts(w, Expired(w, c).value, Expire(c))
  {
    hide Facts, JobsMove, Expired, FailuresEnd, Wired, EvidenceWired, Steady, SignersMove, CasesMove;
    var v := Expired(w, c).value;
    ExpiredOnly(w, c);
    ExpiredSteady(w, c);
    WiredEvidence(w);
    SameEvidence(w, v);
    SameFailures(w, v);
    NoMoves(w, v, Expire(c));
    FactsOf(w, v, Expire(c));
  }

  lemma EnvironmentFacts(w: World, next: World)
    requires Wired(w) && FailuresEnd(w) && EnvironmentMoves(w, next)
    ensures Facts(w, next, Environment(next))
  {
    hide EnvironmentMoves, Grows, RequiredFixed, Wired, FailuresEnd, SignersMove, JobsMove, CasesMove;
    EnvironmentGrows(w, next);
    EnvironmentWired(w, next);
    EnvironmentFailures(w, next);
    EnvironmentSigners(w, next);
    EnvironmentOthers(w, next);
  }

  lemma EnvironmentGrows(w: World, next: World)
    requires EnvironmentMoves(w, next)
    ensures Grows(w, next) && RequiredFixed(w, next)
  {
    hide SignerMay, CaseMay, IdentityMay, SignersKept, CasesKept, TransactionsKept;
    Unchanged(w);
    EnvironmentTransactionsKept(w, next);
    EnvironmentSignersKept(w, next);
    EnvironmentCasesKept(w, next);
  }

  lemma EnvironmentTransactionsKept(w: World, next: World)
    requires EnvironmentMoves(w, next)
    ensures TransactionsKept(w.transactions, next.transactions)
  {
    hide SignerMay, CaseMay, IdentityMay;
    forall t | t in w.transactions ensures w.transactions[t].status == IdVerified ==> next.transactions[t].status == IdVerified {
      VerifiedStuck(next.transactions[t].status);
    }
  }

  lemma EnvironmentSignersKept(w: World, next: World)
    requires EnvironmentMoves(w, next)
    ensures SignersKept(w.signers, next.signers)
  {
    hide CaseMay, IdentityMay;
  }

  lemma EnvironmentCasesKept(w: World, next: World)
    requires EnvironmentMoves(w, next)
    ensures CasesKept(w.cases, next.cases)
  {
    hide SignerMay, IdentityMay;
  }

  lemma EnvironmentWired(w: World, next: World)
    requires Wired(w) && EnvironmentMoves(w, next)
    ensures Wired(next)
  {
    hide IdentityMay, SignerMay, CaseMay;
    EnvironmentCasesKept(w, next);
  }

  lemma EnvironmentFailures(w: World, next: World)
    requires FailuresEnd(w) && EnvironmentMoves(w, next)
    ensures FailuresEnd(next)
  {
    hide FailureEnds, Grows, IdentityMay, SignerMay, CaseMay, RequiredFixed;
    EnvironmentGrows(w, next);
    forall t | t in next.evidence && !next.evidence[t] ensures FailureEnds(next, t) {
      FailureStays(w, next, t);
    }
  }

  lemma EnvironmentSigners(w: World, next: World)
    requires EnvironmentMoves(w, next)
    ensures SignersMove(w, next, Environment(next))
  {
    hide AllValidated, IdentityMay, SignerMay, CaseMay;
  }

  lemma EnvironmentOthers(w: World, next: World)
    requires EnvironmentMoves(w, next)
    ensures JobsMove(w, next, Environment(next)) && CasesMove(w, next, Environment(next))
  {
    hide JobsMove, IdentityMay, SignerMay, CaseMay;
    NoMoves(w, next, Environment(next));
  }

  lemma StepFacts(w: World, step: Step)
    requires Wired(w) && FailuresEnd(w) && Enabled(w, step) && Effect(w, step).Some?
    ensures Facts(w, Effect(w, step).value, step)
  {
    hide Facts, Collected, FailedIdentity, IdentityJudged, SigningStarted, AttemptRecorded, SignatureJudged, SignerPackaged,
         CasePackaged, Expired, EnvironmentMoves, Wired, FailuresEnd, IsIdentified, HasDocument;
    match step
    case Collect(t) => CollectFacts(w, t);
    case FailIdentity(t) => FailIdentityFacts(w, t);
    case JudgeIdentity(t, pass) => JudgeIdentityFacts(w, t, pass);
    case StartSigning(i) => StartSigningFacts(w, i);
    case RecordAttempt(i, v, a) => RecordAttemptFacts(w, i, v, a);
    case JudgeSignature(i, a, admitted, group) => JudgeSignatureFacts(w, i, a, admitted, group);
    case PackageSigner(c, s) => PackageSignerFacts(w, c, s);
    case PackageCase(c) => PackageCaseFacts(w, c);
    case Expire(c) => ExpireFacts(w, c);
    case Environment(next) => EnvironmentFacts(w, next);
  }

  /* ---- Each step keeps the invariant ---- */

  lemma JudgedIsEvidenced(w: World, t: Id, s: Id)
    requires Wired(w) && FailuresEnd(w) && t in w.transactions && IdentityJudged(w, t, true).Some?
    requires s == w.intents[w.transactions[t].intentId].signerId && s in w.signers && w.signers[s].status == IdentityStarted
    ensures SignerEvidenced(IdentityJudged(w, t, true).value, s)
  {
    hide FailuresEnd, Wired, SetTransaction, IdentityJudged, RequiredFixed, SignersMove, JobsMove, CasesMove;
    WiredTransaction(w, t);
    var v, i := IdentityJudged(w, t, true).value, w.transactions[t].intentId;
    AcceptIdentityFacts(w, t);
    NotRejected(w, t);
    JudgedEvidence(w, t);
    assert t in v.transactions && v.transactions[t].intentId == i && t in v.evidence && v.evidence[t];
    assert IsEvidenced(v, i);
    assert i in v.intents && v.intents[i].signerId == s;
  }

  lemma JudgedEvidence(w: World, t: Id)
    requires t in w.transactions && w.transactions[t].intentId in w.intents && IdentityJudged(w, t, true).Some?
    ensures IdentityJudged(w, t, true).value.evidence == if t in w.evidence then w.evidence else w.evidence[t := true]
  {
    hide SetTransaction, MoveIntent, MoveSigner, Steady;
    var i := w.transactions[t].intentId;
    var recorded := if t in w.evidence then w else w.(evidence := w.evidence[t := true]);
    var w1 := (if w.transactions[t].status == CompleteCollected then SetTransaction(recorded, t, IdVerified) else Some(recorded)).value;
    SetTransactionOnly(recorded, t, IdVerified);
    MoveIntentOnly(w1, i, EvidenceCollected, Verified);
    MoveSignerOnly(MoveIntent(w1, i, EvidenceCollected, Verified), w.intents[i].signerId, IdentityStarted, IdentityVerified);
  }

  lemma NotRejected(w: World, t: Id)
    requires Wired(w) && FailuresEnd(w) && t in w.transactions
    requires w.signers[w.intents[w.transactions[t].intentId].signerId].status == IdentityStarted
    ensures t in w.evidence ==> w.evidence[t]
  {
  }

  lemma JudgedIsFullySigned(w: World, v: World, i: Id, a: Id, s: Id)
    requires JobsEarned(w) && Grows(w, v) && PadesValidate(i, a) in w.jobs
    requires a in w.attempts && w.attempts[a].signerId == s && i in v.intents && AllValidated(v, i, s)
    ensures FullySigned(v, s)
  {
    hide IsIdentified, IsValidated, AllRequiredSigned, AllValidated, HasDocument;
    IdentifiedStays(w, v, i);
    var x :| HasDocument(w.intents[i], x);
    DocumentStays(w, v, i, x);
  }

  lemma DocumentStays(w: World, v: World, i: Id, x: Id)
    requires Grows(w, v) && i in w.intents && HasDocument(w.intents[i], x)
    ensures i in v.intents && v.intents[i].signerId == w.intents[i].signerId && HasDocument(v.intents[i], x)
  {
  }

  lemma SignersStep(w: World, step: Step)
    requires Safe(w) && Enabled(w, step) && Effect(w, step).Some? && Facts(w, Effect(w, step).value, step)
    ensures SignersEarned(Effect(w, step).value)
  {
    hide IsIdentified, IsValidated, SignerIdentified, SignerEvidenced, FullySigned, AllValidated, Effect, Grows, Collected, FailedIdentity, IdentityJudged,
         SigningStarted, AttemptRecorded, SignatureJudged, SignerPackaged, CasePackaged, Expired, EnvironmentMoves, Wired, FailuresEnd,
         JobsEarned, CasesEarned, RequiredFixed, JobsMove, CasesMove, HasDocument;
    var v := Effect(w, step).value;
    forall s | s in v.signers
      ensures IsPastIdentity(v.signers[s].status) ==> SignerEvidenced(v, s)
      ensures v.signers[s].status == Signing ==> SignerIdentified(v, s)
      ensures v.signers[s].status == Signed ==> FullySigned(v, s)
    {
      if s in w.signers {
        assert SignerMoves(w, v, step, s);
        SignerStep(w, step, s);
      }
    }
  }

  lemma SignerStep(w: World, step: Step, s: Id)
    requires Safe(w) && Enabled(w, step) && Effect(w, step).Some? && Grows(w, Effect(w, step).value)
    requires s in w.signers && s in Effect(w, step).value.signers && SignerMoves(w, Effect(w, step).value, step, s)
    ensures IsPastIdentity(Effect(w, step).value.signers[s].status) ==> SignerEvidenced(Effect(w, step).value, s)
    ensures Effect(w, step).value.signers[s].status == Signing ==> SignerIdentified(Effect(w, step).value, s)
    ensures Effect(w, step).value.signers[s].status == Signed ==> FullySigned(Effect(w, step).value, s)
  {
    hide IsIdentified, IsValidated, SignerIdentified, SignerEvidenced, FullySigned, AllValidated, Grows, Collected, FailedIdentity, IdentityJudged,
         SigningStarted, AttemptRecorded, SignatureJudged, SignerPackaged, CasePackaged, Expired, EnvironmentMoves, Wired, FailuresEnd,
         JobsEarned, CasesEarned, HasDocument;
    var v := Effect(w, step).value;
    if IsPastIdentity(w.signers[s].status) {
      SignerEvidencedStays(w, v, s);
    } else if v.signers[s].status == IdentityVerified {
      JudgedIsEvidenced(w, step.transactionId, s);
    }
    if v.signers[s].status == Signing {
      SigningIdentified(w, step, s);
      SignerIdentifiedStays(w, v, s);
    }
    if w.signers[s].status == Signed {
      FullySignedStays(w, v, s);
    } else if v.signers[s].status == Signed {
      JudgedIsFullySigned(w, v, step.intentId, step.attemptId, s);
    }
  }

  /** Who is signing, or starts to, has an identified intent. */
  lemma SigningIdentified(w: World, step: Step, s: Id)
    requires SignersEarned(w) && Enabled(w, step) && s in w.signers
    requires w.signers[s].status == Signing
          || (step.StartSigning? && step.intentId in w.intents && w.intents[step.intentId].signerId == s)
    ensures SignerIdentified(w, s)
  {
    hide IsIdentified, FullySigned, SignerEvidenced, EnvironmentMoves;
  }

  lemma JobsStep(w: World, v: World, step: Step)
    requires Wired(w) && JobsEarned(w) && Facts(w, v, step)
    ensures JobsEarned(v)
  {
    hide IsIdentified, IsValidated, AllValidated, AllRequiredSigned, HasDocument, Wired, FailuresEnd, SignersMove, CasesMove;
    forall i, a | PadesValidate(i, a) in v.jobs
      ensures i in v.intents && a in v.attempts && v.attempts[a].signerId == v.intents[i].signerId && IsIdentified(v, i)
      ensures exists x :: HasDocument(v.intents[i], x)
    {
      ValidateJobStays(w, v, step, i, a);
    }
    forall c | CasePackage(c) in v.jobs ensures c in v.cases && !IsEditable(v.cases[c]) && AllRequiredSigned(v, c) {
      CaseJobStays(w, v, step, c);
    }
  }

  lemma ValidateJobStays(w: World, v: World, step: Step, i: Id, a: Id)
    requires JobsEarned(w) && Grows(w, v) && JobsMove(w, v, step) && PadesValidate(i, a) in v.jobs
    ensures i in v.intents && a in v.attempts && v.attempts[a].signerId == v.intents[i].signerId && IsIdentified(v, i)
    ensures exists x :: HasDocument(v.intents[i], x)
  {
    hide IsIdentified, AllRequiredSigned, HasDocument;
    IdentifiedStays(w, v, i);
    var x :| HasDocument(w.intents[i], x);
    DocumentStays(w, v, i, x);
  }

  lemma CaseJobStays(w: World, v: World, step: Step, c: Id)
    requires Wired(w) && JobsEarned(w) && Grows(w, v) && RequiredFixed(w, v) && JobsMove(w, v, step) && CasePackage(c) in v.jobs
    ensures c in v.cases && !IsEditable(v.cases[c]) && AllRequiredSigned(v, c)
  {
    hide IsIdentified, AllRequiredSigned, HasDocument;
    if CasePackage(c) in w.jobs {
      AllSignedStays(w, v, c);
    }
  }

  lemma CasesStep(w: World, v: World, step: Step)
    requires JobsEarned(w) && CasesEarned(w) && Facts(w, v, step)
    ensures CasesEarned(v)
  {
    hide IsIdentified, IsValidated, AllValidated, AllRequiredSigned, Wired, FailuresEnd, SignersMove, JobsMove;
    forall c | c in v.cases && v.cases[c] == Completed ensures AllRequiredSigned(v, c) {
      AllSignedStays(w, v, c);
    }
  }

  lemma StepSafe(w: World, step: Step)
    requires Safe(w)
    ensures Safe(Apply(w, step))
  {
    hide Enabled, Effect, Wired, FailuresEnd, SignersEarned, JobsEarned, CasesEarned, Grows, RequiredFixed, SignersMove, JobsMove, CasesMove;
    if Enabled(w, step) && Effect(w, step).Some? {
      var v := Effect(w, step).value;
      StepFacts(w, step);
      SignersStep(w, step);
      JobsStep(w, v, step);
      CasesStep(w, v, step);
    }
  }

  /**
   * In every interleaving: a signer who signs or has signed has a verified identity transaction with
   * passing evidence, a signed one also a validated attempt for every signable document, and in a
   * completed case every required signer is signed.
   */
  lemma {:induction false} RunSafe(w: World, steps: seq<Step>)
    requires Safe(w)
    ensures Safe(Run(w, steps))
  {
    hide Safe, Apply;
    if steps != [] {
      RunSafe(w, steps[..|steps| - 1]);
      StepSafe(Run(w, steps[..|steps| - 1]), steps[|steps| - 1]);
    }
  }

  /** An empty tenant is where a run starts. */
  lemma EmptySafe()
    ensures Safe(World(map[], map[], map[], map[], map[], map[], {}))
  {
  }

  lemma SignerApplied(w: World, step: Step, s: Id)
    requires Safe(w) && s in Apply(w, step).signers
    ensures s !in w.signers ==> Apply(w, step).signers[s].status == Pending
    ensures s in w.signers ==> SignerMoves(w, Apply(w, step), step, s) || Apply(w, step) == w
    ensures s in w.signers && w.signers[s].status == Signed ==> Apply(w, step).signers[s].status == Signed
  {
    hide Enabled, Effect, Wired, FailuresEnd, SignersEarned, JobsEarned, CasesEarned, RequiredFixed, JobsMove, CasesMove, SignerMoves;
    if Enabled(w, step) && Effect(w, step).Some? {
      StepFacts(w, step);
    }
  }

  lemma SignerRemains(w: World, step: Step, s: Id)
    requires Safe(w) && s in w.signers
    ensures s in Apply(w, step).signers
  {
    hide Enabled, Effect, Wired, FailuresEnd, SignersEarned, JobsEarned, CasesEarned, RequiredFixed, JobsMove, CasesMove, SignersMove;
    if Enabled(w, step) && Effect(w, step).Some? {
      StepFacts(w, step);
    }
  }

  /** 'signed' is never left. */
  lemma {:induction false} SignedStays(w: World, steps: seq<Step>, s: Id)
    requires Safe(w) && s in w.signers && w.signers[s].status == Signed
    ensures s in Run(w, steps).signers && Run(w, steps).signers[s].status == Signed
  {
    hide Safe, Apply;
    if steps != [] {
      var front, last := steps[..|steps| - 1], steps[|steps| - 1];
      SignedStays(w, front, s);
      RunSafe(w, front);
      SignerRemains(Run(w, front), last, s);
      SignerApplied(Run(w, front), last, s);
    }
  }

  /** Before the run's end the signer has had this status. */
  ghost predicate Visited(w: World, steps: seq<Step>, s: Id, status: SignerStatus) {
    exists n :: 0 <= n <= |steps| && s in Run(w, steps[..n]).signers && Run(w, steps[..n]).signers[s].status == status
  }

  /** 'signed' is reached through 'signing' and 'identity_verified' only. */
  lemma {:induction false} SignedVisited(w: World, steps: seq<Step>, s: Id)
    requires Safe(w) && (s in w.signers ==> !IsPastIdentity(w.signers[s].status))
    requires s in Run(w, steps).signers
    ensures Run(w, steps).signers[s].status == Signed ==> Visited(w, steps, s, Signing)
    ensures (Run(w, steps).signers[s].status == Signing || Run(w, steps).signers[s].status == Signed) ==> Visited(w, steps, s, IdentityVerified)
  {
    hide Safe, Apply, Run, Visited;
    RunNothing(w);
    if steps != [] {
      var front, last := steps[..|steps| - 1], steps[|steps| - 1];
      var before := Run(w, front);
      RunLast(w, steps);
      RunSafe(w, front);
      SignerApplied(before, last, s);
      if s in before.signers {
        SignedVisited(w, front, s);
        VisitedBefore(w, steps, s, Signing);
        VisitedBefore(w, steps, s, IdentityVerified);
      }
    }
  }

  lemma RunNothing(w: World)
    ensures Run(w, []) == w
  {
  }

  lemma RunLast(w: World, steps: seq<Step>)
    requires steps != []
    ensures Run(w, steps) == Apply(Run(w, steps[..|steps| - 1]), steps[|steps| - 1])
  {
    hide Apply;
  }

  /** A status held or visited before the last step has been visited. */
  lemma VisitedBefore(w: World, steps: seq<Step>, s: Id, status: SignerStatus)
    requires steps != []
    ensures Visited(w, steps[..|steps| - 1], s, status) ==> Visited(w, steps, s, status)
    ensures s in Run(w, steps[..|steps| - 1]).signers && Run(w, steps[..|steps| - 1]).signers[s].status == status
            ==> Visited(w, steps, s, status)
  {
    hide Run;
    var front := steps[..|steps| - 1];
    assert front[..|front|] == front && steps[..|front|] == front;
    if Visited(w, front, s, status) {
      var n :| 0 <= n <= |front| && s in Run(w, front[..n]).signers && Run(w, front[..n]).signers[s].status == status;
      assert steps[..n] == front[..n];
    }
  }
}
