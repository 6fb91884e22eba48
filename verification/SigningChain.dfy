/** From collected evidence to a signed signer: what the enqueued jobs lead to when every service agrees. */
module SigningChain {
  import opened Results
  import opened SigningRows
  import opened SigningHandlers
  import opened SigningEffects

  /** An identity transaction with collected evidence, of an intent whose signer waits for the verdict. */
  ghost predicate IsWaitingFor(w: World, t: Id, i: Id, s: Id, c: Id) {
    && t in w.transactions && w.transactions[t] == Transaction(i, CompleteCollected) && t !in w.evidence
    && i in w.intents && w.intents[i].caseId == c && w.intents[i].signerId == s && w.intents[i].status == EvidenceCollected
    && s in w.signers && w.signers[s].status == IdentityStarted
  }

  /** Different documents, at least one to sign, and none of those signed by the signer before. */
  ghost predicate AreUnsigned(w: World, i: Id, s: Id)
    requires i in w.intents
  {
    var documents := Signable(w.intents[i].documents);
    && documents != []
    && (forall j, k :: 0 <= j < k < |documents| ==> documents[j].versionId != documents[k].versionId)
    && forall d :: d in documents ==> !Tried(w.attempts, s, d.versionId)
  }

  /** The sign service answers with a new attempt for each document. */
  predicate AreFresh(w: World, ids: seq<Id>) {
    && (forall k :: 0 <= k < |ids| ==> ids[k] !in w.attempts)
    && forall j, k :: 0 <= j < k < |ids| ==> ids[j] != ids[k]
  }

  function Answers(ids: seq<Id>): (r: seq<Result<Id>>)
    ensures |r| == |ids| && forall k :: 0 <= k < |r| ==> r[k] == Ok(ids[k])
  {
    seq(|ids|, k requires 0 <= k < |ids| => Ok(ids[k]))
  }

  /** The validation jobs in the order in which they are delivered, each as often as it is. */
  function Validations(i: Id, order: seq<Id>, group: set<Id>): (ds: seq<Delivery>)
    ensures |ds| == |order| && forall k :: 0 <= k < |ds| ==> ds[k] == ValidatePades(i, order[k], Ok(true), group)
  {
    seq(|order|, k requires 0 <= k < |order| => ValidatePades(i, order[k], Ok(true), group))
  }

  /* ---- The verdict and the signatures ---- */

  /** After the verdict: transaction, intent and signer verified, and the signing job enqueued. */
  function AfterVerdict(w: World, t: Id, i: Id, s: Id): World
    requires i in w.intents && s in w.signers
  {
    w.(transactions := w.transactions[t := Transaction(i, IdVerified)], evidence := w.evidence[t := true],
       intents := w.intents[i := w.intents[i].(status := Verified)],
       signers := w.signers[s := w.signers[s].(status := IdentityVerified)],
       jobs := w.jobs + {PadesCreate(i)})
  }

  lemma VerdictGiven(w: World, t: Id, i: Id, s: Id, c: Id)
    requires IsWaitingFor(w, t, i, s, c)
    ensures Handle(w, ValidateIdentity(t, Ok(true))) == Handled(AfterVerdict(w, t, i, s), Ok(()))
  {
    hide ValidatedIdentity;
    ValidateEffect(w, t, Ok(true));
  }

  /** The attempts that the signing job makes, all in one status. */
  function Made(ids: seq<Id>, documents: seq<IntentDocument>, s: Id): map<Id, Attempt>
    requires |ids| == |documents|
  {
    map a | a in ids :: Attempt(s, documents[IndexOf(ids, a)].versionId, AttemptSigned)
  }

  function IndexOf(ids: seq<Id>, a: Id): (k: nat)
    requires a in ids
    ensures k < |ids| && ids[k] == a
  {
    if ids[0] == a then 0 else 1 + IndexOf(ids[1..], a)
  }

  function JobsFor(i: Id, ids: seq<Id>): set<Job> {
    set a | a in ids :: PadesValidate(i, a)
  }

  /** After the signing job: the signer is signing, and each document has its attempt and its validation job. */
  function AfterSigning(w: World, i: Id, s: Id, ids: seq<Id>): World
    requires i in w.intents && s in w.signers && |ids| == |Signable(w.intents[i].documents)|
  {
    w.(signers := w.signers[s := w.signers[s].(status := Signing)],
       attempts := w.attempts + Made(ids, Signable(w.intents[i].documents), s),
       jobs := w.jobs + JobsFor(i, ids))
  }

  /** The loop stops early only at an attempt that it has made for an earlier document. */
  lemma StopRepeats(w: World, v: World, r: Result<()>, i: Id, s: Id, documents: seq<IntentDocument>, ids: seq<Id>, m: nat)
    requires |ids| == |documents| && m < |documents| && forall k :: 0 <= k < |ids| ==> ids[k] !in w.attempts
    requires SignedFirst(w, v, i, s, documents, Answers(ids), m) && LoopEnds(v, r, w, s, documents, Answers(ids), m)
    ensures exists k :: 0 <= k < m && ids[k] == ids[m]
  {
    hide Needs, IsRecorded;
    assert Answers(ids)[m] == Ok(ids[m]);
    var k :| 0 <= k < m && Answers(ids)[k] == Ok(ids[m]);
    assert ids[k] == ids[m];
  }

  lemma NoEarlyStop(w: World, v: World, r: Result<()>, i: Id, s: Id, documents: seq<IntentDocument>, ids: seq<Id>, m: nat)
    requires |ids| == |documents| && m <= |documents| && AreFresh(w, ids)
    requires SignedFirst(w, v, i, s, documents, Answers(ids), m) && LoopEnds(v, r, w, s, documents, Answers(ids), m)
    ensures m == |documents| && r == Ok(())
  {
    hide SignedFirst;
    if m < |documents| {
      StopRepeats(w, v, r, i, s, documents, ids, m);
    }
  }

  lemma OnlyNewAttempts(w: World, v: World, i: Id, s: Id, documents: seq<IntentDocument>, ids: seq<Id>)
    requires |ids| == |documents| && SignedFirst(w, v, i, s, documents, Answers(ids), |documents|)
    ensures forall a :: a in v.attempts && a !in w.attempts ==> a in ids
  {
    hide Needs, IsRecorded;
    forall a | a in v.attempts && a !in w.attempts ensures a in ids {
      var k :| 0 <= k < |ids| && Answers(ids)[k] == Ok(a);
    }
  }

  lemma NewAttempt(w: World, v: World, i: Id, s: Id, documents: seq<IntentDocument>, ids: seq<Id>, a: Id)
    requires |ids| == |documents| && a in ids && SignedFirst(w, v, i, s, documents, Answers(ids), |documents|)
    requires forall k :: 0 <= k < |documents| ==> Needs(w.attempts, s, documents, k)
    ensures a in v.attempts && v.attempts[a] == Made(ids, documents, s)[a] && PadesValidate(i, a) in v.jobs
  {
    hide Needs;
    var k := IndexOf(ids, a);
    assert IsRecorded(v.attempts, v.jobs, i, s, documents[k].versionId, Answers(ids)[k].value);
  }

  lemma AttemptsMade(w: World, v: World, i: Id, s: Id, documents: seq<IntentDocument>, ids: seq<Id>)
    requires |ids| == |documents| && AreFresh(w, ids)
    requires forall k :: 0 <= k < |documents| ==> Needs(w.attempts, s, documents, k)
    requires SignedFirst(w, v, i, s, documents, Answers(ids), |documents|)
    ensures v.attempts == w.attempts + Made(ids, documents, s)
  {
    hide Needs, IsRecorded, Made, Answers;
    OnlyNewAttempts(w, v, i, s, documents, ids);
    MadeKeys(ids, documents, s);
    forall a | a in ids ensures a in v.attempts && v.attempts[a] == Made(ids, documents, s)[a] {
      NewAttempt(w, v, i, s, documents, ids, a);
    }
  }

  lemma JobsMade(w: World, v: World, i: Id, s: Id, documents: seq<IntentDocument>, ids: seq<Id>)
    requires |ids| == |documents| && AreFresh(w, ids)
    requires forall k :: 0 <= k < |documents| ==> Needs(w.attempts, s, documents, k)
    requires SignedFirst(w, v, i, s, documents, Answers(ids), |documents|)
    ensures v.jobs == w.jobs + JobsFor(i, ids)
  {
    hide Needs;
    forall a | a in ids ensures PadesValidate(i, a) in v.jobs {
      NewAttempt(w, v, i, s, documents, ids, a);
    }
    forall job | job in v.jobs && job !in w.jobs ensures job in JobsFor(i, ids) {
      var k :| 0 <= k < |ids| && Answers(ids)[k].Ok? && job == PadesValidate(i, Answers(ids)[k].value);
      assert ids[k] in ids;
    }
  }

  lemma AllSignedFirst(w: World, v: World, r: Result<()>, i: Id, s: Id, documents: seq<IntentDocument>, ids: seq<Id>, m: nat)
    requires |ids| == |documents| && m <= |documents| && AreFresh(w, ids)
    requires forall k :: 0 <= k < |documents| ==> Needs(w.attempts, s, documents, k)
    requires SignedFirst(w, v, i, s, documents, Answers(ids), m) && LoopEnds(v, r, w, s, documents, Answers(ids), m)
    ensures r == Ok(())
    ensures v == w.(attempts := w.attempts + Made(ids, documents, s), jobs := w.jobs + JobsFor(i, ids))
  {
    hide Needs, AreFresh, LoopEnds, Made, JobsFor, Answers;
    NoEarlyStop(w, v, r, i, s, documents, ids, m);
    AttemptsMade(w, v, i, s, documents, ids);
    JobsMade(w, v, i, s, documents, ids);
  }

  lemma SignaturesMade(w: World, t: Id, i: Id, s: Id, ids: seq<Id>)
    requires i in w.intents && w.intents[i].signerId == s && w.intents[i].status == Verified
    requires t in w.transactions && w.transactions[t] == Transaction(i, IdVerified) && t in w.evidence && w.evidence[t]
    requires s in w.signers && w.signers[s].status == IdentityVerified
    requires AreUnsigned(w, i, s) && |ids| == |Signable(w.intents[i].documents)| && AreFresh(w, ids)
    ensures Handle(w, CreatePades(i, true, true, Answers(ids))) == Handled(AfterSigning(w, i, s, ids), Ok(()))
  {
    hide CreatedPades, SignedFirst, LoopEnds, Tried, Made, JobsFor, Answers;
    var documents := Signable(w.intents[i].documents);
    var m := CreateEffect(w, i, true, true, Answers(ids));
    assert documents[0] in documents;
    var started := w.(signers := SignersMoved(w.signers, s, IdentityVerified, Signing));
    var h := CreatedPades(w, i, true, true, Answers(ids));
    forall k | 0 <= k < |documents| ensures Needs(started.attempts, s, documents, k) {
      assert documents[k] in documents;
    }
    AllSignedFirst(started, h.world, h.result, i, s, documents, ids, m);
  }

  /* ---- The validations ---- */

  /** Those of the attempts that have been admitted are validated. */
  function Admitted(attempts: map<Id, Attempt>, done: set<Id>): map<Id, Attempt> {
    map a | a in attempts :: if a in done then attempts[a].(status := AttemptValidated) else attempts[a]
  }

  /** The tables once every document of the signer is admitted. */
  function Finished(w: World, i: Id, s: Id, c: Id, done: set<Id>, group: set<Id>): World
    requires i in w.intents && s in w.signers
  {
    var signers := GroupInvited(w.signers[s := w.signers[s].(status := Signed)], c, group);
    w.(attempts := Admitted(w.attempts, done), signers := signers,
       intents := w.intents[i := w.intents[i].(status := Packaged)],
       jobs := w.jobs + {SignerPackage(c, s)} + (if AllSigned(signers, c) then {CasePackage(c)} else {}))
  }

  /** The tables after some admissions. */
  function AfterAdmissions(w: World, i: Id, s: Id, c: Id, ids: seq<Id>, done: set<Id>, group: set<Id>): World
    requires i in w.intents && s in w.signers
  {
    if forall a :: a in ids ==> a in done then Finished(w, i, s, c, done, group) else w.(attempts := Admitted(w.attempts, done))
  }

  /** The signer is signing, with one signed attempt at each document and no other. */
  ghost predicate IsSigning(w: World, i: Id, s: Id, c: Id, ids: seq<Id>) {
    && i in w.intents && w.intents[i].caseId == c && w.intents[i].signerId == s && w.intents[i].status == Verified
    && s in w.signers && w.signers[s].status == Signing
    && var documents := Signable(w.intents[i].documents);
       && documents != [] && |ids| == |documents|
       && (forall k :: 0 <= k < |ids| ==> ids[k] in w.attempts && w.attempts[ids[k]] == Attempt(s, documents[k].versionId, AttemptSigned))
       && (forall a, k :: a in w.attempts && 0 <= k < |ids| && w.attempts[a].signerId == s && w.attempts[a].versionId == documents[k].versionId ==> a == ids[k])
  }

  /** The signer is complete exactly when all the attempts are admitted. */
  lemma CompleteWhen(w: World, i: Id, s: Id, c: Id, ids: seq<Id>, done: set<Id>)
    requires IsSigning(w, i, s, c, ids)
    ensures IsComplete(Admitted(w.attempts, done), w.intents[i].documents, s) <==> forall a :: a in ids ==> a in done
  {
    var documents := Signable(w.intents[i].documents);
    var admitted := Admitted(w.attempts, done);
    if forall a :: a in ids ==> a in done {
      forall d | d in w.intents[i].documents && d.signable
        ensures exists a :: a in admitted && admitted[a] == Attempt(s, d.versionId, AttemptValidated)
      {
        var k :| 0 <= k < |documents| && documents[k] == d;
        assert ids[k] in ids;
        assert admitted[ids[k]] == Attempt(s, d.versionId, AttemptValidated);
      }
    }
    if IsComplete(admitted, w.intents[i].documents, s) {
      forall a | a in ids ensures a in done {
        var k :| 0 <= k < |ids| && ids[k] == a;
        assert documents[k] in documents;
        var b :| b in admitted && admitted[b] == Attempt(s, documents[k].versionId, AttemptValidated);
        assert w.attempts[b].signerId == s && w.attempts[b].versionId == documents[k].versionId;
        assert b == a;
      }
    }
  }

  lemma AdmittedMore(attempts: map<Id, Attempt>, done: set<Id>, a: Id)
    requires a in attempts && a !in done
    ensures Admitted(attempts, done)[a := attempts[a].(status := AttemptValidated)] == Admitted(attempts, done + {a})
    ensures a in Admitted(attempts, done) && Admitted(attempts, done)[a] == attempts[a]
  {
  }

  /** One more validation, delivered for the first time or again. */
  lemma OneAdmitted(w: World, i: Id, s: Id, c: Id, ids: seq<Id>, done: set<Id>, a: Id, group: set<Id>)
    requires IsSigning(w, i, s, c, ids) && a in ids && forall x :: x in done ==> x in ids
    ensures Handle(AfterAdmissions(w, i, s, c, ids, done, group), ValidatePades(i, a, Ok(true), group))
         == Handled(AfterAdmissions(w, i, s, c, ids, done + {a}, group), Ok(()))
  {
    hide ValidatedPades, IsComplete, GroupInvited, AllSigned, Signable, Admitted;
    var x := AfterAdmissions(w, i, s, c, ids, done, group);
    JudgeEffect(x, i, a, Ok(true), group);
    AttemptAmong(w, i, s, c, ids, a);
    if a in done {
      AgainAdmitted(w.attempts, done, a);
      assert done + {a} == done;
    } else {
      AdmittedMore(w.attempts, done, a);
      CompleteWhen(w, i, s, c, ids, done + {a});
      assert x == w.(attempts := Admitted(w.attempts, done));
      assert Attempt(s, x.attempts[a].versionId, AttemptValidated) == w.attempts[a].(status := AttemptValidated);
      assert SignersMoved(w.signers, s, Signing, Signed) == w.signers[s := w.signers[s].(status := Signed)];
      assert IntentsMoved(w.intents, i, Verified, Packaged) == w.intents[i := w.intents[i].(status := Packaged)];
    }
  }

  lemma AttemptAmong(w: World, i: Id, s: Id, c: Id, ids: seq<Id>, a: Id)
    requires IsSigning(w, i, s, c, ids) && a in ids
    ensures a in w.attempts && w.attempts[a].signerId == s && w.attempts[a].status == AttemptSigned
  {
    hide Signable;
    var k :| 0 <= k < |ids| && ids[k] == a;
  }

  lemma AgainAdmitted(attempts: map<Id, Attempt>, done: set<Id>, a: Id)
    requires a in attempts && a in done
    ensures a in Admitted(attempts, done) && Admitted(attempts, done)[a].status == AttemptValidated
  {
  }

  /** The deliveries of the validation jobs that have been made. */
  function DoneOf(order: seq<Id>): set<Id> {
    set a | a in order
  }

  lemma {:induction false} AllAdmitted(w: World, i: Id, s: Id, c: Id, ids: seq<Id>, order: seq<Id>, group: set<Id>)
    requires IsSigning(w, i, s, c, ids) && forall a :: a in order ==> a in ids
    ensures DeliverAll(w, Validations(i, order, group)) == AfterAdmissions(w, i, s, c, ids, DoneOf(order), group)
  {
    hide Handle, IsSigning;
    var ds := Validations(i, order, group);
    if order == [] {
      NoneAdmitted(w, i, s, c, ids, group);
    } else {
      var front, last := order[..|order| - 1], order[|order| - 1];
      assert forall a :: a in order <==> a in front || a == last;
      AllAdmitted(w, i, s, c, ids, front, group);
      assert ds[..|ds| - 1] == Validations(i, front, group);
      assert DoneOf(order) == DoneOf(front) + {last};
      OneAdmitted(w, i, s, c, ids, DoneOf(front), last, group);
    }
  }

  lemma NoneAdmitted(w: World, i: Id, s: Id, c: Id, ids: seq<Id>, group: set<Id>)
    requires IsSigning(w, i, s, c, ids)
    ensures w == AfterAdmissions(w, i, s, c, ids, DoneOf([]), group)
  {
    assert ids[0] in ids;
    assert Admitted(w.attempts, {}) == w.attempts;
  }

  /* ---- The whole chain ---- */

  lemma {:induction false} DeliverTogether(w: World, a: seq<Delivery>, b: seq<Delivery>)
    ensures DeliverAll(w, a + b) == DeliverAll(DeliverAll(w, a), b)
  {
    hide Handle;
    if b == [] {
      assert a + b == a;
    } else {
      assert (a + b)[..|a + b| - 1] == a + b[..|b| - 1];
      DeliverTogether(w, a, b[..|b| - 1]);
    }
  }

  lemma DeliverTwo(w: World, d: Delivery, e: Delivery)
    requires IsFor(w, d) && IsFor(Handle(w, d).world, e)
    ensures DeliverAll(w, [d, e]) == Handle(Handle(w, d).world, e).world
  {
    hide Handle, IsFor;
    assert [d, e][..1] == [d] && [d][..0] == [];
    assert DeliverAll(w, []) == w;
    assert DeliverAll(w, [d]) == Handle(w, d).world;
  }

  lemma IndexOfOwn(ids: seq<Id>, k: nat)
    requires k < |ids| && forall i, j :: 0 <= i < j < |ids| ==> ids[i] != ids[j]
    ensures IndexOf(ids, ids[k]) == k
  {
    hide IndexOf;
    var j := IndexOf(ids, ids[k]);
  }

  lemma MadeAt(ids: seq<Id>, documents: seq<IntentDocument>, s: Id, k: nat)
    requires |ids| == |documents| && k < |ids| && forall i, j :: 0 <= i < j < |ids| ==> ids[i] != ids[j]
    ensures ids[k] in Made(ids, documents, s) && Made(ids, documents, s)[ids[k]] == Attempt(s, documents[k].versionId, AttemptSigned)
  {
    IndexOfOwn(ids, k);
  }

  /** An attempt of the signer at one of the documents is one of the new ones. */
  lemma OnlyMade(w: World, s: Id, documents: seq<IntentDocument>, ids: seq<Id>, a: Id, k: nat)
    requires |ids| == |documents| && k < |ids| && forall d :: d in documents ==> !Tried(w.attempts, s, d.versionId)
    requires forall i, j :: 0 <= i < j < |documents| ==> documents[i].versionId != documents[j].versionId
    requires forall i, j :: 0 <= i < j < |ids| ==> ids[i] != ids[j]
    requires a in w.attempts + Made(ids, documents, s)
    requires var b := (w.attempts + Made(ids, documents, s))[a]; b.signerId == s && b.versionId == documents[k].versionId
    ensures a == ids[k]
  {
    assert documents[k] in documents;
    if a in ids {
      var j := IndexOf(ids, a);
    }
  }

  /** Freshness and order say all that the validations need. */
  lemma SigningStands(w: World, i: Id, s: Id, c: Id, ids: seq<Id>)
    requires i in w.intents && w.intents[i].caseId == c && w.intents[i].signerId == s && w.intents[i].status == Verified && s in w.signers
    requires AreUnsigned(w, i, s) && |ids| == |Signable(w.intents[i].documents)| && AreFresh(w, ids)
    ensures IsSigning(AfterSigning(w, i, s, ids), i, s, c, ids)
  {
    hide Signable, Made, Tried, JobsFor;
    var v, documents := AfterSigning(w, i, s, ids), Signable(w.intents[i].documents);
    forall k | 0 <= k < |ids| ensures ids[k] in v.attempts && v.attempts[ids[k]] == Attempt(s, documents[k].versionId, AttemptSigned) {
      MadeAt(ids, documents, s, k);
    }
    forall a, k | a in v.attempts && 0 <= k < |ids| && v.attempts[a].signerId == s && v.attempts[a].versionId == documents[k].versionId
      ensures a == ids[k]
    {
      OnlyMade(w, s, documents, ids, a, k);
    }
  }

  /** What the whole chain has done to a tenant's tables. */
  ghost predicate IsSigned(w: World, v: World, t: Id, i: Id, s: Id, c: Id, ids: seq<Id>, group: set<Id>)
    requires i in w.intents && s in w.signers && |ids| == |Signable(w.intents[i].documents)|
  {
    && v.cases == w.cases && v.evidence == w.evidence[t := true]
    && v.transactions == w.transactions[t := Transaction(i, IdVerified)]
    && v.intents == w.intents[i := w.intents[i].(status := Packaged)]
    && v.signers.Keys == w.signers.Keys && v.signers[s] == w.signers[s].(status := Signed)
    && (forall x :: x in w.signers && x != s ==>
          v.signers[x] == if x in group && w.signers[x].caseId == c && w.signers[x].status == Pending then w.signers[x].(status := Invited) else w.signers[x])
    && v.attempts.Keys == w.attempts.Keys + (set a | a in ids)
    && (forall a :: a in w.attempts ==> v.attempts[a] == w.attempts[a])
    && (forall k :: 0 <= k < |ids| ==> v.attempts[ids[k]] == Attempt(s, Signable(w.intents[i].documents)[k].versionId, AttemptValidated))
    && v.jobs == w.jobs + {PadesCreate(i)} + JobsFor(i, ids) + {SignerPackage(c, s)}
                 + (if forall x :: x in v.signers && v.signers[x].caseId == c && v.signers[x].required ==> v.signers[x].status == Signed
                    then {CasePackage(c)} else {})
  }

  /**
   * If every service agrees, delivering the jobs that each step enqueues, the validations in any order and as often
   * as it happens, signs the signer: its package is queued, the next group is invited, and the case's package is
   * queued exactly when every required signer has signed.
   */
  lemma ChainSigns(w: World, t: Id, i: Id, s: Id, c: Id, ids: seq<Id>, order: seq<Id>, group: set<Id>)
    requires IsWaitingFor(w, t, i, s, c) && AreUnsigned(w, i, s)
    requires |ids| == |Signable(w.intents[i].documents)| && AreFresh(w, ids)
    requires forall a :: a in order <==> a in ids
    ensures var ds := [ValidateIdentity(t, Ok(true)), CreatePades(i, true, true, Answers(ids))] + Validations(i, order, group);
            IsSigned(w, DeliverAll(w, ds), t, i, s, c, ids, group)
  {
    hide Handle, Signable, IsSigning, Made, GroupInvited, AllSigned, JobsFor;
    var verdict, signing := ValidateIdentity(t, Ok(true)), CreatePades(i, true, true, Answers(ids));
    var w1 := AfterVerdict(w, t, i, s);
    VerdictGiven(w, t, i, s, c);
    SignaturesMade(w1, t, i, s, ids);
    var w2 := AfterSigning(w1, i, s, ids);
    DeliverTwo(w, verdict, signing);
    SigningStands(w1, i, s, c, ids);
    DeliverTogether(w, [verdict, signing], Validations(i, order, group));
    AllAdmitted(w2, i, s, c, ids, order, group);
    ChainEnds(w, t, i, s, c, ids, DoneOf(order), group);
  }

  lemma AttemptsEnd(w: World, s: Id, documents: seq<IntentDocument>, ids: seq<Id>, done: set<Id>)
    requires |ids| == |documents| && AreFresh(w, ids) && forall a :: a in done <==> a in ids
    ensures var attempts := Admitted(w.attempts + Made(ids, documents, s), done);
            && attempts.Keys == w.attempts.Keys + (set a | a in ids)
            && (forall a :: a in w.attempts ==> attempts[a] == w.attempts[a])
            && forall k :: 0 <= k < |ids| ==> attempts[ids[k]] == Attempt(s, documents[k].versionId, AttemptValidated)
  {
    hide Made;
    MadeKeys(ids, documents, s);
    forall k | 0 <= k < |ids| ensures ids[k] in done && Made(ids, documents, s)[ids[k]] == Attempt(s, documents[k].versionId, AttemptSigned) {
      assert ids[k] in ids;
      MadeAt(ids, documents, s, k);
    }
  }

  lemma MadeKeys(ids: seq<Id>, documents: seq<IntentDocument>, s: Id)
    requires |ids| == |documents|
    ensures Made(ids, documents, s).Keys == set a | a in ids
  {
  }

  lemma SignersEnd(w: World, s: Id, c: Id, group: set<Id>)
    requires s in w.signers
    ensures var signers := GroupInvited(w.signers[s := w.signers[s].(status := Signed)], c, group);
            && signers.Keys == w.signers.Keys && signers[s] == w.signers[s].(status := Signed)
            && forall x :: x in w.signers && x != s ==>
                 signers[x] == if x in group && w.signers[x].caseId == c && w.signers[x].status == Pending then w.signers[x].(status := Invited) else w.signers[x]
  {
  }

  lemma ChainEnds(w: World, t: Id, i: Id, s: Id, c: Id, ids: seq<Id>, done: set<Id>, group: set<Id>)
    requires IsWaitingFor(w, t, i, s, c) && AreUnsigned(w, i, s)
    requires |ids| == |Signable(w.intents[i].documents)| && AreFresh(w, ids)
    requires forall a :: a in done <==> a in ids
    ensures IsSigned(w, AfterAdmissions(AfterSigning(AfterVerdict(w, t, i, s), i, s, ids), i, s, c, ids, done, group), t, i, s, c, ids, group)
  {
    hide Signable, JobsFor, Made, Admitted, GroupInvited, AreUnsigned, AreFresh;
    var w2 := AfterSigning(AfterVerdict(w, t, i, s), i, s, ids);
    var v := AfterAdmissions(w2, i, s, c, ids, done, group);
    assert v == Finished(w2, i, s, c, done, group);
    AttemptsEnd(w, s, Signable(w.intents[i].documents), ids, done);
    SignersEnd(w, s, c, group);
    assert w2.signers[s := w2.signers[s].(status := Signed)] == w.signers[s := w.signers[s].(status := Signed)];
    assert v.intents == w.intents[i := w.intents[i].(status := Packaged)];
  }
}
