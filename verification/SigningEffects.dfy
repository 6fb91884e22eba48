/** What each signing job does to the tables, row by row, and how far a signer gets when every service agrees. */
module SigningEffects {
  import opened Results
  import opened SigningRows
  import opened SigningHandlers

  /* ---- The transition guards as tables ---- */

  lemma SignerTransitions(from: SignerStatus, to: SignerStatus)
    ensures SignerMay(from, to) <==>
              from == to ||
              (from, to) in {
                (Pending, Invited), (Pending, SignerCancelled),
                (Invited, Opened), (Invited, IdentityStarted), (Invited, Declined), (Invited, SignerExpired), (Invited, SignerCancelled), (Invited, SignerFailed),
                (Opened, IdentityStarted), (Opened, Declined), (Opened, SignerExpired), (Opened, SignerCancelled), (Opened, SignerFailed),
                (IdentityStarted, IdentityVerified), (IdentityStarted, Declined), (IdentityStarted, SignerExpired), (IdentityStarted, SignerCancelled), (IdentityStarted, SignerFailed),
                (IdentityVerified, Signing), (IdentityVerified, Declined), (IdentityVerified, SignerExpired), (IdentityVerified, SignerCancelled), (IdentityVerified, SignerFailed),
                (Signing, Signed), (Signing, Declined), (Signing, SignerExpired), (Signing, SignerCancelled), (Signing, SignerFailed)}
  {
  }

  lemma CaseTransitions(from: CaseStatus, to: CaseStatus)
    ensures CaseMay(from, to) <==>
              from == to ||
              (from, to) in {
                (Draft, Preparing), (Draft, CaseCancelled), (Preparing, Ready), (Preparing, CaseFailed), (Preparing, CaseCancelled),
                (Ready, Sent), (Ready, CaseCancelled),
                (Sent, InProgress), (Sent, CaseDeclined), (Sent, CaseExpired), (Sent, CaseCancelled), (Sent, CaseFailed),
                (InProgress, PartiallySigned), (InProgress, Completed), (InProgress, CaseDeclined), (InProgress, CaseExpired), (InProgress, CaseCancelled), (InProgress, CaseFailed),
                (PartiallySigned, Completed), (PartiallySigned, CaseDeclined), (PartiallySigned, CaseExpired), (PartiallySigned, CaseCancelled), (PartiallySigned, CaseFailed),
                (Completed, Archiving), (CaseDeclined, Archiving), (CaseExpired, Archiving), (CaseCancelled, Archiving), (CaseFailed, Archiving),
                (Archiving, Archived), (Archiving, CaseFailed)}
  {
  }

  lemma IdentityTransitions(from: IdentityStatus, to: IdentityStatus)
    ensures IdentityMay(from, to) <==>
              from == to ||
              (from, to) in {
                (IdPending, UserActionRequired), (IdPending, CompleteCollected), (IdPending, IdCancelled), (IdPending, IdExpired), (IdPending, IdFailed),
                (UserActionRequired, IdPending), (UserActionRequired, CompleteCollected), (UserActionRequired, IdCancelled), (UserActionRequired, IdExpired), (UserActionRequired, IdFailed),
                (CompleteCollected, IdVerified), (CompleteCollected, IdFailed)}
  {
  }

  /* ---- Rows with a new status ---- */

  /** The signers after `update .. where status = from`. */
  function SignersMoved(signers: map<Id, Signer>, s: Id, from: SignerStatus, to: SignerStatus): map<Id, Signer> {
    if s in signers && signers[s].status == from then signers[s := Signer(signers[s].caseId, signers[s].required, to)] else signers
  }

  function IntentsMoved(intents: map<Id, Intent>, i: Id, from: IntentStatus, to: IntentStatus): map<Id, Intent> {
    if i in intents && intents[i].status == from then intents[i := Intent(intents[i].caseId, intents[i].signerId, to, intents[i].documents)] else intents
  }

  /** The signers after one is failed, or None where a guard refuses that: a signer who waits for a turn or has expired. */
  function SignersFailed(signers: map<Id, Signer>, s: Id): Option<map<Id, Signer>> {
    if s !in signers then Some(signers)
    else match signers[s].status
      case Signed => Some(signers)
      case Declined => Some(signers)
      case SignerCancelled => Some(signers)
      case Pending => None
      case SignerExpired => None
      case _ => Some(signers[s := Signer(signers[s].caseId, signers[s].required, SignerFailed)])
  }

  lemma MovesSigner(w: World, s: Id, from: SignerStatus, to: SignerStatus)
    requires SignerMay(from, to)
    ensures MoveSigner(w, s, from, to) == Some(w.(signers := SignersMoved(w.signers, s, from, to)))
  {
    hide SignerMay;
  }

  lemma FailsSigner(w: World, s: Id)
    ensures FailSigner(w, s) == match SignersFailed(w.signers, s) case None => None case Some(signers) => Some(w.(signers := signers))
  {
  }

  lemma MovesIntent(w: World, i: Id, from: IntentStatus, to: IntentStatus)
    ensures MoveIntent(w, i, from, to) == w.(intents := IntentsMoved(w.intents, i, from, to))
  {
  }

  /* ---- Collecting and judging identity ---- */

  /** handleTicCollect, for every status of the transaction and every answer of the provider. */
  lemma CollectEffect(w: World, t: Id, evidence: Evidence)
    ensures var h := Handle(w, TicCollect(t, evidence));
            if t !in w.transactions || w.transactions[t].intentId !in w.intents then
              h == Handled(w, Err("IDENTITY_TRANSACTION_NOT_FOUND"))
            else
              var (i, status) := (w.transactions[t].intentId, w.transactions[t].status);
              var s := w.intents[i].signerId;
              if status == CompleteCollected || status == IdVerified then h == Handled(w, Ok(()))
              else if status == IdCancelled || status == IdExpired || status == IdFailed then h == Handled(w, Err("TIC_SESSION_TERMINAL"))
              else match evidence
                case Unavailable(code) => h == Handled(w, Err(code))
                case Readable =>
                  h == Handled(w.(transactions := w.transactions[t := Transaction(i, CompleteCollected)],
                                  intents := IntentsMoved(w.intents, i, ProviderStarted, EvidenceCollected),
                                  jobs := w.jobs + {SignatureValidate(t)}), Ok(()))
                case Unreadable(code) =>
                  (match SignersFailed(w.signers, s)
                   case None => h == Handled(w, Err("a database guard raised"))
                   case Some(signers) =>
                     h == Handled(w.(transactions := w.transactions[t := Transaction(i, IdFailed)],
                                     intents := IntentsMoved(w.intents, i, ProviderStarted, IntentFailed), signers := signers), Err(code)))
  {
    hide SignersFailed, IntentsMoved, MoveIntent, FailSigner;
    if t in w.transactions && w.transactions[t].intentId in w.intents && IsWaiting(w.transactions[t]) {
      var i := w.transactions[t].intentId;
      var collected, failed := SetTransaction(w, t, CompleteCollected).value, SetTransaction(w, t, IdFailed).value;
      MovesIntent(collected, i, ProviderStarted, EvidenceCollected);
      MovesIntent(failed, i, ProviderStarted, IntentFailed);
      FailsSigner(MoveIntent(failed, i, ProviderStarted, IntentFailed), w.intents[i].signerId);
    }
  }

  /**
   * handleSignatureValidate, for every status and verdict. From complete_collected, PASS verifies the
   * transaction, its intent and its signer and asks for the signature; FAIL ends all three.
   */
  lemma ValidateEffect(w: World, t: Id, pass: Result<bool>)
    ensures var h := Handle(w, ValidateIdentity(t, pass));
            if t !in w.transactions || w.transactions[t].intentId !in w.intents then
              h == Handled(w, Err("IDENTITY_TRANSACTION_NOT_FOUND"))
            else if w.transactions[t].status == IdVerified then h == Handled(w, Ok(()))
            else if w.transactions[t].status != CompleteCollected then h == Handled(w, Err("SIGNATURE_VALIDATE_STATE_INVALID"))
            else if pass.Err? then h == Handled(w, Err(pass.code))
            else
              var i := w.transactions[t].intentId;
              var s := w.intents[i].signerId;
              var evidence := if t in w.evidence then w.evidence else w.evidence[t := pass.value];
              if pass.value then
                if !evidence[t] then h == Handled(w, Err("a database guard raised"))
                else
                  h == Handled(w.(evidence := evidence, transactions := w.transactions[t := Transaction(i, IdVerified)],
                                  intents := IntentsMoved(w.intents, i, EvidenceCollected, Verified),
                                  signers := SignersMoved(w.signers, s, IdentityStarted, IdentityVerified),
                                  jobs := w.jobs + {PadesCreate(i)}), Ok(()))
              else match SignersFailed(w.signers, s)
                case None => h == Handled(w, Err("a database guard raised"))
                case Some(signers) =>
                  (h == Handled(w.(evidence := evidence, transactions := w.transactions[t := Transaction(i, IdFailed)],
                                   intents := IntentsMoved(w.intents, i, EvidenceCollected, IntentFailed), signers := signers), Ok(())))
  {
    hide SignersFailed, SignersMoved, IntentsMoved, MoveIntent, FailSigner, MoveSigner;
    if t in w.transactions && w.transactions[t].intentId in w.intents && w.transactions[t].status == CompleteCollected && pass.Ok? {
      var i := w.transactions[t].intentId;
      var s := w.intents[i].signerId;
      var recorded := if t in w.evidence then w else w.(evidence := w.evidence[t := pass.value]);
      if pass.value && recorded.evidence[t] {
        var w1 := SetTransaction(recorded, t, IdVerified).value;
        MovesIntent(w1, i, EvidenceCollected, Verified);
        MovesSigner(MoveIntent(w1, i, EvidenceCollected, Verified), s, IdentityStarted, IdentityVerified);
      } else if !pass.value {
        var w1 := SetTransaction(recorded, t, IdFailed).value;
        MovesIntent(w1, i, EvidenceCollected, IntentFailed);
        FailsSigner(MoveIntent(w1, i, EvidenceCollected, IntentFailed), s);
      }
    }
  }

  /* ---- Signing ---- */

  /** The documents to sign keep their order. */
  lemma {:induction false} SignableParts(a: seq<IntentDocument>, b: seq<IntentDocument>)
    ensures Signable(a + b) == Signable(a) + Signable(b)
    ensures forall d: IntentDocument :: Signable([d]) == if d.signable then [d] else []
  {
    if a == [] {
      assert a + b == b;
    } else {
      assert (a + b)[1..] == a[1..] + b;
      SignableParts(a[1..], b);
    }
  }

  /** The signer has an attempt at the document. */
  predicate Tried(attempts: map<Id, Attempt>, s: Id, versionId: Id) {
    exists a :: a in attempts && attempts[a].signerId == s && attempts[a].versionId == versionId
  }

  /** Document k needs a signature: neither an earlier attempt nor an earlier document of the list gives it one. */
  predicate Needs(attempts: map<Id, Attempt>, s: Id, documents: seq<IntentDocument>, k: nat)
    requires k < |documents|
  {
    !Tried(attempts, s, documents[k].versionId) && forall j :: 0 <= j < k ==> documents[j].versionId != documents[k].versionId
  }

  /** What a signature's attempt and job are. */
  predicate IsRecorded(attempts: map<Id, Attempt>, jobs: set<Job>, i: Id, s: Id, versionId: Id, a: Id) {
    a in attempts && attempts[a] == Attempt(s, versionId, AttemptSigned) && PadesValidate(i, a) in jobs
  }

  /** The tables after the first m documents: one attempt and one job for each that needed them, and nothing else. */
  ghost predicate SignedFirst(w: World, v: World, i: Id, s: Id, documents: seq<IntentDocument>, signatures: seq<Result<Id>>, m: nat)
    requires |signatures| == |documents| && m <= |documents|
  {
    && v == w.(attempts := v.attempts, jobs := v.jobs) && w.jobs <= v.jobs
    && (forall a :: a in w.attempts ==> a in v.attempts && v.attempts[a] == w.attempts[a])
    && (forall k :: 0 <= k < m && Needs(w.attempts, s, documents, k) ==>
          && signatures[k].Ok? && signatures[k].value !in w.attempts
          && IsRecorded(v.attempts, v.jobs, i, s, documents[k].versionId, signatures[k].value))
    && (forall a :: a in v.attempts && a !in w.attempts ==>
          exists k :: 0 <= k < m && Needs(w.attempts, s, documents, k) && signatures[k] == Ok(a))
    && (forall job :: job in v.jobs && job !in w.jobs ==>
          exists k :: 0 <= k < m && Needs(w.attempts, s, documents, k) && signatures[k].Ok? && job == PadesValidate(i, signatures[k].value))
  }

  /** How the loop ends: after all documents, or at the first signature that fails or repeats an attempt. */
  ghost predicate LoopEnds(v: World, r: Result<()>, w: World, s: Id, documents: seq<IntentDocument>, signatures: seq<Result<Id>>, m: nat)
    requires |signatures| == |documents| && m <= |documents|
  {
    if m == |documents| then r == Ok(())
    else
      && Needs(w.attempts, s, documents, m)
      && match signatures[m]
         case Err(e) => r == Err(e)
         case Ok(a) => a in v.attempts && r == Err("a database guard raised")
  }

  lemma {:induction false} LoopEffect(w: World, i: Id, documents: seq<IntentDocument>, signatures: seq<Result<Id>>) returns (m: nat)
    requires i in w.intents && |signatures| == |documents|
    ensures m <= |documents|
    ensures var h := SignEach(w, i, documents, signatures);
            && SignedFirst(w, h.world, i, w.intents[i].signerId, documents, signatures, m)
            && LoopEnds(h.world, h.result, w, w.intents[i].signerId, documents, signatures, m)
    decreases |documents|
  {
    hide HasAttempt, Tried, SignedFirst, LoopEnds, AttemptRecorded;
    m := 0;
    var s := w.intents[i].signerId;
    NothingSigned(w, i, s, documents, signatures);
    if documents != [] {
      var versionId := documents[0].versionId;
      TriedIs(w, s, versionId);
      if HasAttempt(w, s, versionId) {
        var n := LoopEffect(w, i, documents[1..], signatures[1..]);
        var h := SignEach(w, i, documents[1..], signatures[1..]);
        SkippedFirst(w, h, i, s, documents, signatures, n);
        m := n + 1;
      } else if signatures[0].Ok? && signatures[0].value !in w.attempts {
        RecordKeeps(w, i, versionId, signatures[0].value);
        var u := AttemptRecorded(w, i, versionId, signatures[0].value).value;
        var n := LoopEffect(u, i, documents[1..], signatures[1..]);
        var h := SignEach(u, i, documents[1..], signatures[1..]);
        RecordedFirst(w, u, h, i, s, documents, signatures, n);
        m := n + 1;
      } else {
        StoppedFirst(w, s, documents, signatures);
      }
    }
  }

  lemma TriedIs(w: World, s: Id, versionId: Id)
    ensures HasAttempt(w, s, versionId) <==> Tried(w.attempts, s, versionId)
  {
  }

  lemma NothingSigned(w: World, i: Id, s: Id, documents: seq<IntentDocument>, signatures: seq<Result<Id>>)
    requires |signatures| == |documents|
    ensures SignedFirst(w, w, i, s, documents, signatures, 0)
    ensures documents == [] ==> LoopEnds(w, Ok(()), w, s, documents, signatures, 0)
  {
  }

  lemma StoppedFirst(w: World, s: Id, documents: seq<IntentDocument>, signatures: seq<Result<Id>>)
    requires |signatures| == |documents| && documents != [] && !Tried(w.attempts, s, documents[0].versionId)
    requires signatures[0].Ok? ==> signatures[0].value in w.attempts
    ensures LoopEnds(w, match signatures[0] case Err(e) => Err(e) case Ok(_) => Err("a database guard raised"), w, s, documents, signatures, 0)
  {
  }

  /** A document that already has an attempt shifts the others by one. */
  lemma NeedsShift(w: World, u: World, s: Id, documents: seq<IntentDocument>, k: nat)
    requires k + 1 < |documents|
    requires forall x :: Tried(u.attempts, s, x) <==> Tried(w.attempts, s, x) || x == documents[0].versionId
    ensures Needs(u.attempts, s, documents[1..], k) <==> Needs(w.attempts, s, documents, k + 1)
  {
    hide Tried;
    var rest := documents[1..];
    assert rest[k] == documents[k + 1] && forall j :: 0 <= j < k ==> rest[j] == documents[j + 1];
    if Needs(u.attempts, s, rest, k) {
      forall j | 0 <= j < k + 1 ensures documents[j].versionId != documents[k + 1].versionId {
        assert j == 0 || rest[j - 1] == documents[j];
      }
    }
  }

  lemma SkippedFirst(w: World, h: Handled, i: Id, s: Id, documents: seq<IntentDocument>, signatures: seq<Result<Id>>, n: nat)
    requires |signatures| == |documents| && documents != [] && n < |documents| && Tried(w.attempts, s, documents[0].versionId)
    requires SignedFirst(w, h.world, i, s, documents[1..], signatures[1..], n)
    requires LoopEnds(h.world, h.result, w, s, documents[1..], signatures[1..], n)
    ensures SignedFirst(w, h.world, i, s, documents, signatures, n + 1)
    ensures LoopEnds(h.world, h.result, w, s, documents, signatures, n + 1)
  {
    hide Tried, Needs, IsRecorded;
    forall k: nat | k + 1 < |documents|
      ensures Needs(w.attempts, s, documents[1..], k) <==> Needs(w.attempts, s, documents, k + 1)
    {
      NeedsShift(w, w, s, documents, k);
    }
    NotNeeded(w, s, documents);
    ShiftSigned(w, w, h.world, i, s, documents, signatures, n);
  }

  lemma NotNeeded(w: World, s: Id, documents: seq<IntentDocument>)
    requires documents != [] && Tried(w.attempts, s, documents[0].versionId)
    ensures !Needs(w.attempts, s, documents, 0)
  {
    hide Tried;
  }

  /** The first document's own effect and the others' make the effect of all. */
  lemma ShiftSigned(w: World, u: World, v: World, i: Id, s: Id, documents: seq<IntentDocument>, signatures: seq<Result<Id>>, n: nat)
    requires |signatures| == |documents| && documents != [] && n < |documents|
    requires forall k: nat :: k + 1 < |documents| ==> (Needs(u.attempts, s, documents[1..], k) <==> Needs(w.attempts, s, documents, k + 1))
    requires SignedFirst(w, u, i, s, documents, signatures, 1)
    requires SignedFirst(u, v, i, s, documents[1..], signatures[1..], n)
    ensures SignedFirst(w, v, i, s, documents, signatures, n + 1)
  {
    hide Tried, Needs;
    forall k | 0 <= k < n + 1 && Needs(w.attempts, s, documents, k)
      ensures signatures[k].Ok? && signatures[k].value !in w.attempts
      ensures IsRecorded(v.attempts, v.jobs, i, s, documents[k].versionId, signatures[k].value)
    {
      if k > 0 {
        assert Needs(u.attempts, s, documents[1..], k - 1);
        assert signatures[1..][k - 1] == signatures[k] && documents[1..][k - 1] == documents[k];
      }
    }
    forall a | a in v.attempts && a !in w.attempts
      ensures exists k :: 0 <= k < n + 1 && Needs(w.attempts, s, documents, k) && signatures[k] == Ok(a)
    {
      if a !in u.attempts {
        var k :| 0 <= k < n && Needs(u.attempts, s, documents[1..], k) && signatures[1..][k] == Ok(a);
        assert Needs(w.attempts, s, documents, k + 1) && signatures[k + 1] == Ok(a);
      }
    }
    forall job | job in v.jobs && job !in w.jobs
      ensures exists k :: 0 <= k < n + 1 && Needs(w.attempts, s, documents, k) && signatures[k].Ok? && job == PadesValidate(i, signatures[k].value)
    {
      if job !in u.jobs {
        var k :| 0 <= k < n && Needs(u.attempts, s, documents[1..], k) && signatures[1..][k].Ok? && job == PadesValidate(i, signatures[1..][k].value);
        assert Needs(w.attempts, s, documents, k + 1) && signatures[k + 1] == signatures[1..][k];
      }
    }
  }

  lemma RecordedFirst(w: World, u: World, h: Handled, i: Id, s: Id, documents: seq<IntentDocument>, signatures: seq<Result<Id>>, n: nat)
    requires |signatures| == |documents| && documents != [] && n < |documents| && !Tried(w.attempts, s, documents[0].versionId)
    requires i in w.intents && s == w.intents[i].signerId
    requires signatures[0].Ok? && signatures[0].value !in w.attempts && Some(u) == AttemptRecorded(w, i, documents[0].versionId, signatures[0].value)
    requires SignedFirst(u, h.world, i, s, documents[1..], signatures[1..], n)
    requires LoopEnds(h.world, h.result, u, s, documents[1..], signatures[1..], n)
    ensures SignedFirst(w, h.world, i, s, documents, signatures, n + 1)
    ensures LoopEnds(h.world, h.result, w, s, documents, signatures, n + 1)
  {
    hide Tried, Needs;
    forall x ensures Tried(u.attempts, s, x) <==> Tried(w.attempts, s, x) || x == documents[0].versionId {
      RecordTries(w, u, i, documents[0].versionId, signatures[0].value, x);
    }
    forall k: nat | k + 1 < |documents|
      ensures Needs(u.attempts, s, documents[1..], k) <==> Needs(w.attempts, s, documents, k + 1)
    {
      NeedsShift(w, u, s, documents, k);
    }
    FirstNeeded(w, s, documents);
    ShiftSigned(w, u, h.world, i, s, documents, signatures, n);
  }

  lemma FirstNeeded(w: World, s: Id, documents: seq<IntentDocument>)
    requires documents != [] && !Tried(w.attempts, s, documents[0].versionId)
    ensures Needs(w.attempts, s, documents, 0)
  {
  }

  lemma RecordTries(w: World, u: World, i: Id, versionId: Id, a: Id, x: Id)
    requires i in w.intents && a !in w.attempts && Some(u) == AttemptRecorded(w, i, versionId, a)
    ensures Tried(u.attempts, w.intents[i].signerId, x) <==> Tried(w.attempts, w.intents[i].signerId, x) || x == versionId
  {
    var s := w.intents[i].signerId;
    assert u.attempts[a] == Attempt(s, versionId, AttemptSigned);
    if Tried(w.attempts, s, x) {
      var b :| b in w.attempts && w.attempts[b].signerId == s && w.attempts[b].versionId == x;
      assert u.attempts[b] == w.attempts[b];
    }
  }

  /** handlePadesCreate: its checks in order, the move to signing, and the loop. */
  lemma CreateEffect(w: World, i: Id, electronic: bool, leveled: bool, signatures: seq<Result<Id>>) returns (m: nat)
    requires i in w.intents ==> |signatures| == |Signable(w.intents[i].documents)|
    ensures var h := Handle(w, CreatePades(i, electronic, leveled, signatures));
            if i !in w.intents || !exists t :: t in w.transactions && w.transactions[t] == Transaction(i, IdVerified) && t in w.evidence && w.evidence[t] then
              h == Handled(w, Err("SIGNING_INTENT_NOT_VERIFIED"))
            else if !electronic then h == Handled(w, Err("PADES_NOT_APPLICABLE_TO_DECISION_MODE"))
            else if w.intents[i].status == Packaged then h == Handled(w, Ok(()))
            else if w.intents[i].status != Verified then h == Handled(w, Err("PADES_CREATE_STATE_INVALID"))
            else if w.intents[i].documents == [] then h == Handled(w, Err("SIGNING_INTENT_HAS_NO_DOCUMENTS"))
            else if forall d :: d in w.intents[i].documents ==> !d.signable then h == Handled(w, Err("SIGNING_INTENT_HAS_NO_SIGNABLE_DOCUMENT"))
            else if !leveled then h == Handled(w, Err("ELECTRONIC_SIGNATURE_POLICY_REQUIRES_A_PADES_LEVEL"))
            else
              var (s, documents) := (w.intents[i].signerId, Signable(w.intents[i].documents));
              var started := w.(signers := SignersMoved(w.signers, s, IdentityVerified, Signing));
              m <= |documents| && SignedFirst(started, h.world, i, s, documents, signatures, m)
              && LoopEnds(h.world, h.result, started, s, documents, signatures, m)
  {
    hide SignEach, SignersMoved, SignedFirst, LoopEnds, MoveSigner;
    m := 0;
    if i in w.intents {
      var s, documents := w.intents[i].signerId, Signable(w.intents[i].documents);
      assert documents == [] <==> forall d :: d in w.intents[i].documents ==> !d.signable by {
        if documents != [] {
          assert documents[0] in documents;
        }
      }
      MovesSigner(w, s, IdentityVerified, Signing);
      m := LoopEffect(w.(signers := SignersMoved(w.signers, s, IdentityVerified, Signing)), i, documents, signatures);
    }
  }

  /* ---- Judging a signature ---- */

  /** Every signable document has a validated attempt of the signer. */
  predicate IsComplete(attempts: map<Id, Attempt>, documents: seq<IntentDocument>, s: Id) {
    forall d :: d in documents && d.signable ==> exists a :: a in attempts && attempts[a] == Attempt(s, d.versionId, AttemptValidated)
  }

  /** The named signers of the case whose turn has not come are invited. */
  function GroupInvited(signers: map<Id, Signer>, c: Id, group: set<Id>): map<Id, Signer> {
    map s | s in signers ::
      if s in group && signers[s].caseId == c && signers[s].status == Pending then Signer(c, signers[s].required, Invited) else signers[s]
  }

  predicate AllSigned(signers: map<Id, Signer>, c: Id) {
    forall s :: s in signers && signers[s].caseId == c && signers[s].required ==> signers[s].status == Signed
  }

  /**
   * handlePadesValidate, for every status and decision. Admitted, the attempt is validated, and if it was the last
   * the signer is signed, the intent packaged, the package asked for, the next group invited, and the case package
   * asked for exactly when all required signers have signed.
   */
  lemma JudgeEffect(w: World, i: Id, a: Id, admitted: Result<bool>, group: set<Id>)
    ensures var h := Handle(w, ValidatePades(i, a, admitted, group));
            if i !in w.intents || a !in w.attempts then h == Handled(w, Err("SIGNATURE_ARTIFACT_NOT_FOUND"))
            else if w.attempts[a].status == AttemptValidated then h == Handled(w, Ok(()))
            else if w.attempts[a].status == AttemptFailed then h == Handled(w, Err("PADES_VALIDATE_STATE_INVALID"))
            else if admitted.Err? then h == Handled(w, Err(admitted.code))
            else
              var (s, c, versionId) := (w.attempts[a].signerId, w.intents[i].caseId, w.attempts[a].versionId);
              var attempts := w.attempts[a := Attempt(s, versionId, if admitted.value then AttemptValidated else AttemptFailed)];
              if !admitted.value then h == Handled(w.(attempts := attempts, signers := SignersMoved(w.signers, s, Signing, SignerFailed)), Ok(()))
              else if !IsComplete(attempts, w.intents[i].documents, s) then h == Handled(w.(attempts := attempts), Ok(()))
              else
                var signers := GroupInvited(SignersMoved(w.signers, s, Signing, Signed), c, group);
                (h == Handled(w.(attempts := attempts, signers := signers, intents := IntentsMoved(w.intents, i, Verified, Packaged),
                                 jobs := w.jobs + {SignerPackage(c, s)} + (if AllSigned(signers, c) then {CasePackage(c)} else {})), Ok(())))
  {
    hide SignersMoved, IntentsMoved, MoveSigner, MoveIntent, Activated, AllValidated, AllRequiredSigned, IsComplete, AllSigned, GroupInvited;
    if i in w.intents && a in w.attempts && w.attempts[a].status == AttemptSigned && admitted.Ok? {
      var s, c := w.attempts[a].signerId, w.intents[i].caseId;
      if admitted.value {
        var w1 := SetAttempt(w, a, AttemptValidated).value;
        CompleteIs(w1, i, s);
        MovesSigner(w1, s, Signing, Signed);
        var w2 := MoveSigner(w1, s, Signing, Signed).value;
        MovesIntent(w2, i, Verified, Packaged);
        var w3 := Activated(Enqueue(MoveIntent(w2, i, Verified, Packaged), SignerPackage(c, s)), c, group);
        ActivatedIs(Enqueue(MoveIntent(w2, i, Verified, Packaged), SignerPackage(c, s)), c, group);
        SignedIs(w3, c);
        assert w.jobs + {SignerPackage(c, s)} + {} == w.jobs + {SignerPackage(c, s)};
      } else {
        MovesSigner(SetAttempt(w, a, AttemptFailed).value, s, Signing, SignerFailed);
      }
    }
  }

  lemma CompleteIs(w: World, i: Id, s: Id)
    requires i in w.intents
    ensures AllValidated(w, i, s) <==> IsComplete(w.attempts, w.intents[i].documents, s)
  {
    forall versionId ensures IsValidated(w, s, versionId) <==> exists a :: a in w.attempts && w.attempts[a] == Attempt(s, versionId, AttemptValidated) {
    }
  }

  lemma ActivatedIs(w: World, c: Id, group: set<Id>)
    ensures Activated(w, c, group) == w.(signers := GroupInvited(w.signers, c, group))
  {
  }

  lemma SignedIs(w: World, c: Id)
    ensures AllRequiredSigned(w, c) <==> AllSigned(w.signers, c)
  {
  }

  /* ---- Packages and expiry ---- */

  /** handleEvidencePackageBuild: the signer's verified intents are packaged, or the case completed. */
  lemma PackageEffect(w: World, c: Id, s: Id)
    ensures Handle(w, BuildSignerPackage(c, s)) == Handled(w.(intents := map i | i in w.intents ::
              if w.intents[i].caseId == c && w.intents[i].signerId == s && w.intents[i].status == Verified
              then Intent(c, s, Packaged, w.intents[i].documents) else w.intents[i]), Ok(()))
    ensures Handle(w, BuildCasePackage(c)) ==
              if c !in w.cases then Handled(w, Ok(()))
              else if w.cases[c] == Sent then Handled(w, Err("a database guard raised"))
              else if w.cases[c] == InProgress || w.cases[c] == PartiallySigned then Handled(w.(cases := w.cases[c := Completed]), Ok(()))
              else Handled(w, Ok(()))
  {
    var intents := map i | i in w.intents ::
      if w.intents[i].caseId == c && w.intents[i].signerId == s && w.intents[i].status == Verified
      then Intent(c, s, Packaged, w.intents[i].documents) else w.intents[i];
    assert SignerPackaged(w, c, s).intents == intents;
  }

  /** handleCaseExpire, for every status and every mix of signers. */
  lemma ExpireEffect(w: World, c: Id, overdue: bool)
    ensures var h := Handle(w, ExpireCase(c, overdue));
            if c !in w.cases then h == Handled(w, Err("SIGNATURE_CASE_NOT_FOUND"))
            else if w.cases[c] in {Completed, CaseDeclined, CaseExpired, CaseCancelled, CaseFailed, Archived} then h == Handled(w, Ok(()))
            else if !overdue then h == Handled(w, Err("CASE_NOT_EXPIRED_YET"))
            else if w.cases[c] !in {Sent, InProgress, PartiallySigned} then h == Handled(w, Err("a database guard raised"))
            else if exists s :: s in w.signers && w.signers[s].caseId == c && w.signers[s].status == Pending then
              h == Handled(w, Err("a database guard raised"))
            else
              (h == Handled(w.(cases := w.cases[c := CaseExpired], signers := map s | s in w.signers ::
                 if w.signers[s].caseId == c && w.signers[s].status !in {Signed, Declined, SignerCancelled, SignerFailed}
                 then Signer(c, w.signers[s].required, SignerExpired) else w.signers[s]), Ok(())))
  {
    hide SignerMay, NonePending;
    if c in w.cases {
      ExpiryCommits(w, c);
      PendingIs(w, c);
      if Expired(w, c).Some? && !IsClosed(w.cases[c]) {
        assert Expired(w, c).value.signers == map s | s in w.signers ::
          if w.signers[s].caseId == c && w.signers[s].status !in {Signed, Declined, SignerCancelled, SignerFailed}
          then Signer(c, w.signers[s].required, SignerExpired) else w.signers[s];
      }
    }
  }

  lemma PendingIs(w: World, c: Id)
    ensures NonePending(w, c) <==> !exists s :: s in w.signers && w.signers[s].caseId == c && w.signers[s].status == Pending
  {
  }
}
