/** Which cases can complete: none, unless something outside the workers starts them. */
module SigningProgress {
  import opened SigningRows
  import opened SigningSafety

  predicate IsUnstarted(status: CaseStatus) {
    status != InProgress && status != PartiallySigned && status != Completed
  }

  ghost predicate Unstarted(w: World) {
    forall c :: c in w.cases ==> IsUnstarted(w.cases[c])
  }

  /** The rest of the system puts no case into progress. */
  ghost predicate StartsNothing(steps: seq<Step>) {
    forall n :: 0 <= n < |steps| && steps[n].Environment? ==> NoneInProgress(steps[n].next)
  }

  ghost predicate NoneInProgress(w: World) {
    forall c :: c in w.cases ==> w.cases[c] != InProgress && w.cases[c] != PartiallySigned
  }

  lemma CollectLeaves(w: World, t: Id)
    requires t in w.transactions && Collected(w, t).Some?
    ensures Collected(w, t).value.cases == w.cases && Collected(w, t).value.attempts == w.attempts
  {
  }

  lemma FailLeaves(w: World, t: Id)
    requires t in w.transactions && w.transactions[t].intentId in w.intents && FailedIdentity(w, t).Some?
    ensures FailedIdentity(w, t).value.cases == w.cases && FailedIdentity(w, t).value.attempts == w.attempts
  {
    hide SetTransaction, MoveIntent, FailSigner;
    var intentId := w.transactions[t].intentId;
    var w1 := if IsWaiting(w.transactions[t]) then SetTransaction(w, t, IdFailed).value else w;
    SetTransactionOnly(w, t, IdFailed);
    MoveIntentOnly(w1, intentId, ProviderStarted, IntentFailed);
    FailSignerOnly(MoveIntent(w1, intentId, ProviderStarted, IntentFailed), w.intents[intentId].signerId);
  }

  lemma IdentityLeaves(w: World, t: Id, pass: bool)
    requires t in w.transactions && w.transactions[t].intentId in w.intents && IdentityJudged(w, t, pass).Some?
    ensures IdentityJudged(w, t, pass).value.cases == w.cases && IdentityJudged(w, t, pass).value.attempts == w.attempts
  {
    hide SetTransaction, MoveIntent, FailSigner, MoveSigner;
    var intentId := w.transactions[t].intentId;
    var signerId := w.intents[intentId].signerId;
    var recorded := if t in w.evidence then w else w.(evidence := w.evidence[t := pass]);
    var w1 := SetTransaction(recorded, t, if pass then IdVerified else IdFailed);
    SetTransactionOnly(recorded, t, if pass then IdVerified else IdFailed);
    if pass {
      var moved := if w.transactions[t].status == CompleteCollected then w1.value else recorded;
      MoveIntentOnly(moved, intentId, EvidenceCollected, Verified);
      MoveSignerOnly(MoveIntent(moved, intentId, EvidenceCollected, Verified), signerId, IdentityStarted, IdentityVerified);
    } else {
      MoveIntentOnly(w1.value, intentId, EvidenceCollected, IntentFailed);
      FailSignerOnly(MoveIntent(w1.value, intentId, EvidenceCollected, IntentFailed), signerId);
    }
  }

  lemma SignatureLeaves(w: World, i: Id, a: Id, admitted: bool, group: set<Id>)
    requires i in w.intents && a in w.attempts && SignatureJudged(w, i, a, admitted, group).Some?
    ensures SignatureJudged(w, i, a, admitted, group).value.cases == w.cases
    ensures SignatureJudged(w, i, a, admitted, group).value.attempts
         == w.attempts[a := w.attempts[a].(status := if admitted then AttemptValidated else AttemptFailed)]
  {
    hide AllValidated, AllRequiredSigned, Activated, MoveSigner, MoveIntent;
    var signerId := w.attempts[a].signerId;
    var w1 := SetAttempt(w, a, if admitted then AttemptValidated else AttemptFailed).value;
    if !admitted {
      MoveSignerOnly(w1, signerId, Signing, SignerFailed);
    } else if AllValidated(w1, i, signerId) {
      MoveSignerOnly(w1, signerId, Signing, Signed);
      var w2 := MoveSigner(w1, signerId, Signing, Signed).value;
      MoveIntentOnly(w2, i, Verified, Packaged);
      var w3 := Enqueue(MoveIntent(w2, i, Verified, Packaged), SignerPackage(w.intents[i].caseId, signerId));
      ActivatedOnly(w3, w.intents[i].caseId, group);
    }
  }

  /** Package builds complete no unstarted case, and expiry ends it. */
  lemma CaseSteps(w: World, c: Id)
    requires Unstarted(w)
    ensures CasePackaged(w, c).Some? ==> Unstarted(CasePackaged(w, c).value)
    ensures c in w.cases && Expired(w, c).Some? ==> Unstarted(Expired(w, c).value)
  {
  }

  lemma EnvironmentCases(w: World, next: World)
    requires Unstarted(w) && EnvironmentMoves(w, next) && NoneInProgress(next)
    ensures Unstarted(next)
  {
  }

  lemma StepStaysUnstarted(w: World, step: Step)
    requires Unstarted(w) && (step.Environment? ==> NoneInProgress(step.next))
    ensures Unstarted(Apply(w, step))
  {
    hide NoneInProgress, EnvironmentMoves, Collected, FailedIdentity, IdentityJudged, SignatureJudged, CasePackaged, Expired, IsIdentified;
    if Enabled(w, step) && Effect(w, step).Some? {
      match step
      case Collect(t) => CollectLeaves(w, t);
      case FailIdentity(t) => FailLeaves(w, t);
      case JudgeIdentity(t, pass) => IdentityLeaves(w, t, pass);
      case StartSigning(i) =>
      case RecordAttempt(i, v, a) =>
      case JudgeSignature(i, a, admitted, group) => SignatureLeaves(w, i, a, admitted, group);
      case PackageSigner(c, s) =>
      case PackageCase(c) => CaseSteps(w, c);
      case Expire(c) => CaseSteps(w, c);
      case Environment(next) => EnvironmentCases(w, next);
    }
  }

  /**
   * However all workers' transactions interleave, no case completes in a run in which nothing else
   * moves a case to in_progress or partially_signed: the workers themselves never do.
   */
  lemma {:induction false} NoneCompletes(w: World, steps: seq<Step>)
    requires Unstarted(w) && StartsNothing(steps)
    ensures Unstarted(Run(w, steps))
  {
    hide Unstarted, Apply, NoneInProgress;
    if steps != [] {
      var front := steps[..|steps| - 1];
      assert forall n :: 0 <= n < |front| ==> front[n] == steps[n];
      NoneCompletes(w, front);
      StepStaysUnstarted(Run(w, front), steps[|steps| - 1]);
    }
  }
}
