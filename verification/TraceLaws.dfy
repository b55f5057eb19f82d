/**
 * The protocol evaluators' properties spelled out on the events' own fields: what each flag of a policy pack demands of
 * a trace, and what a refusal says.
 */
module TraceLaws {
  import opened Wrappers
  import opened PolicyModels
  import opened ProtocolEvaluator

  // ---- Normalising ---------------------------------------------------------

  /** Junk is dropped; an actor or task that is no mapping becomes one without an id; the rest stays. */
  lemma NormalizeOne(e: RawEvent)
    ensures e.Junk? ==> Normalize([e]) == []
    ensures e.Event? ==>
              Normalize([e]) == [Event(e.kind, if e.actor.Mapping? then e.actor else Mapping(None),
                                       if e.task.Mapping? then e.task else Mapping(None), e.payload)]
  {
    assert [e][..0] == [];
  }

  /** Traces of proper events are judged as they are. */
  lemma CleanAsIs(c: ObligationClass, es: seq<CleanEvent>, pack: Pack)
    ensures Decide(c, es, pack) == DecideClean(c, es, pack)
  {
    NormalizeClean(es);
  }

  // ---- What a flag demands -------------------------------------------------

  /** The latest claim before `j`. */
  ghost predicate ClaimBefore(es: seq<CleanEvent>, i: int, j: int) {
    0 <= i < j < |es| && es[i].kind == Claim && forall k | i < k < j :: es[k].kind != Claim
  }

  /** Every delegate is made by the agent that the latest claim before it names. */
  ghost predicate DelegatedByOwner(es: seq<CleanEvent>) {
    forall j | 0 <= j < |es| && es[j].kind == Delegate ::
      exists i :: ClaimBefore(es, i, j) && es[i].actor.id.Some? && es[i].actor.id == es[j].actor.id
  }

  lemma HandoffMeaning(es: seq<CleanEvent>)
    ensures Admissible(HandoffLegality, es) <==> DelegatedByOwner(es)
  {
    forall j | 0 <= j < |es|
      ensures OkAt(HandoffLegality, es, j) <==>
              (es[j].kind == Delegate ==>
                 exists i :: ClaimBefore(es, i, j) && es[i].actor.id.Some? && es[i].actor.id == es[j].actor.id)
    {
      assert forall i :: LatestClaim(es, i, j) <==> ClaimBefore(es, i, j);
    }
  }

  lemma HandoffLaw(es: seq<CleanEvent>, pack: Pack)
    requires pack.singleOwnerHandoff
    ensures Accepts(HandoffLegality, es, pack) <==> DelegatedByOwner(es)
  {
    HandoffMeaning(es);
    AcceptsIff(HandoffLegality, es, pack);
    NormalizeClean(es);
  }

  /** And of no other task than the one claimed, where both are named. */
  ghost predicate DelegatedAsClaimed(es: seq<CleanEvent>) {
    forall j | 0 <= j < |es| && es[j].kind == Delegate ::
      exists i ::
        && ClaimBefore(es, i, j) && es[i].actor.id.Some? && es[i].actor.id == es[j].actor.id
        && (es[i].task.id.None? || es[j].task.id.None? || es[i].task.id == es[j].task.id)
  }

  lemma DelegationMeaning(es: seq<CleanEvent>)
    ensures Admissible(DelegationAdmissibility, es) <==> DelegatedAsClaimed(es)
  {
    forall j | 0 <= j < |es|
      ensures OkAt(DelegationAdmissibility, es, j) <==>
              (es[j].kind == Delegate ==>
                 exists i ::
                   && ClaimBefore(es, i, j) && es[i].actor.id.Some? && es[i].actor.id == es[j].actor.id
                   && (es[i].task.id.None? || es[j].task.id.None? || es[i].task.id == es[j].task.id))
    {
      assert forall i :: LatestClaim(es, i, j) <==> ClaimBefore(es, i, j);
    }
  }

  lemma DelegationLaw(es: seq<CleanEvent>, pack: Pack)
    requires pack.delegationAdmissibility
    ensures Accepts(DelegationAdmissibility, es, pack) <==> DelegatedAsClaimed(es)
  {
    DelegationMeaning(es);
    AcceptsIff(DelegationAdmissibility, es, pack);
    NormalizeClean(es);
  }

  /** The agent of the lock at `i` has released it before `j`. */
  ghost predicate LetGo(es: seq<CleanEvent>, i: int, j: int) {
    exists k :: 0 <= i < k < j < |es| && es[k].kind == Release && es[k].actor.id == es[i].actor.id
  }

  /** A lock at `i`, and no release of any kind since, up to `j`. */
  ghost predicate HeldSince(es: seq<CleanEvent>, i: int, j: int) {
    0 <= i < j < |es| && es[i].kind == Lock && forall k | i < k < j :: es[k].kind != Release
  }

  /** A named agent lets go before another locks, and a release gives back the agent's own open lock. */
  ghost predicate LockedInTurn(es: seq<CleanEvent>) {
    && (forall i, j |
          0 <= i < j < |es| && es[i].kind == Lock && es[j].kind == Lock
          && es[i].actor.id.Some? && es[i].actor.id != es[j].actor.id :: LetGo(es, i, j))
    && (forall j | 0 <= j < |es| && es[j].kind == Release ::
          es[j].actor.id.Some? && exists i :: HeldSince(es, i, j) && es[i].actor.id == es[j].actor.id)
  }

  lemma LockMeaning(es: seq<CleanEvent>)
    ensures Admissible(LockOwnership, es) <==> LockedInTurn(es)
  {
    forall j | 0 <= j < |es|
      ensures OkAt(LockOwnership, es, j) <==>
              && (es[j].kind == Lock ==>
                    forall i |
                      0 <= i < j && es[i].kind == Lock && es[i].actor.id.Some? && es[i].actor.id != es[j].actor.id ::
                      LetGo(es, i, j))
              && (es[j].kind == Release ==>
                    es[j].actor.id.Some? && exists i :: HeldSince(es, i, j) && es[i].actor.id == es[j].actor.id)
    {
      assert forall i | 0 <= i < j :: ReleasedBetween(es, i, j) <==> LetGo(es, i, j);
      assert forall i :: LockedSince(es, i, j) <==> HeldSince(es, i, j);
    }
  }

  lemma LockLaw(es: seq<CleanEvent>, pack: Pack)
    requires pack.lockOwnershipInvariant
    ensures Accepts(LockOwnership, es, pack) <==> LockedInTurn(es)
  {
    LockMeaning(es);
    AcceptsIff(LockOwnership, es, pack);
    NormalizeClean(es);
  }

  ghost predicate ApprovedFirst(es: seq<CleanEvent>) {
    forall j | 0 <= j < |es| && es[j].kind in {Execute, Recover} :: exists i :: 0 <= i < j && es[i].kind == Approve
  }

  /** Effects and transitions both demand an approval before every execute and recover. */
  lemma ApprovalLaw(es: seq<CleanEvent>, pack: Pack)
    ensures pack.stateTransitionPreservation ==> (Accepts(StateTransition, es, pack) <==> ApprovedFirst(es))
    ensures pack.sideEffectAuthorization ==> (Accepts(SideEffect, es, pack) <==> ApprovedFirst(es))
  {
    if pack.stateTransitionPreservation {
      ApprovalOf(StateTransition, es, pack);
    }
    if pack.sideEffectAuthorization {
      ApprovalOf(SideEffect, es, pack);
    }
  }

  lemma ApprovalMeaning(c: ObligationClass, es: seq<CleanEvent>)
    requires c in {StateTransition, SideEffect}
    ensures Admissible(c, es) <==> ApprovedFirst(es)
  {
    forall j | 0 <= j < |es|
      ensures OkAt(c, es, j) <==>
              (es[j].kind in {Execute, Recover} ==> exists i :: 0 <= i < j && es[i].kind == Approve)
    {
    }
  }

  lemma ApprovalOf(c: ObligationClass, es: seq<CleanEvent>, pack: Pack)
    requires c in {StateTransition, SideEffect} && Enabled(c, pack)
    ensures Accepts(c, es, pack) <==> ApprovedFirst(es)
  {
    ApprovalMeaning(c, es);
    AcceptsIff(c, es, pack);
    NormalizeClean(es);
  }

  /** An event that carries artifacts and is neither an approve nor an execute. */
  predicate Misplaced(e: CleanEvent) {
    e.payload.Fields? && e.payload.artifacts && e.kind !in {Approve, Execute}
  }

  ghost predicate ArtifactsInPlace(es: seq<CleanEvent>) {
    forall e | e in es && e.payload.Fields? && e.payload.artifacts :: e.kind in {Approve, Execute}
  }

  lemma ArtifactMeaning(es: seq<CleanEvent>)
    ensures Admissible(ArtifactAdmissibility, es) <==> ArtifactsInPlace(es)
  {
    forall j | 0 <= j < |es|
      ensures OkAt(ArtifactAdmissibility, es, j) <==> !Misplaced(es[j])
    {
    }
    if ArtifactsInPlace(es) {
      forall j | 0 <= j < |es|
        ensures !Misplaced(es[j])
      {
        assert es[j] in es;
      }
    }
  }

  lemma ArtifactLaw(es: seq<CleanEvent>, pack: Pack)
    requires pack.artifactAdmissibility
    ensures Accepts(ArtifactAdmissibility, es, pack) <==> ArtifactsInPlace(es)
  {
    ArtifactMeaning(es);
    AcceptsIff(ArtifactAdmissibility, es, pack);
    NormalizeClean(es);
  }

  lemma ReviewerMeaning(es: seq<CleanEvent>)
    ensures (exists i :: 0 <= i < |es| && es[i].kind == Approve) <==> exists e :: e in es && e.kind == Approve
  {
    if e :| e in es && e.kind == Approve {
      var i :| 0 <= i < |es| && es[i] == e;
    }
  }

  lemma ReviewerLaw(es: seq<CleanEvent>, pack: Pack)
    requires pack.reviewerGatedExecution
    ensures Accepts(ReviewerGated, es, pack) <==> exists e :: e in es && e.kind == Approve
  {
    ReviewerMeaning(es);
    NormalizeClean(es);
  }

  /** Evidence is complete when an event says so, and no execute before it has a payload that cannot be asked. */
  ghost predicate EvidenceSaid(es: seq<CleanEvent>) {
    exists j ::
      && 0 <= j < |es| && es[j].payload.Fields? && es[j].payload.evidenceComplete
      && forall i | 0 <= i < j :: !(es[i].kind == Execute && es[i].payload.Opaque?)
  }

  lemma EvidenceLaw(es: seq<CleanEvent>, pack: Pack)
    requires pack.evidenceCompleteExecutionToken
    ensures Accepts(EvidenceComplete, es, pack) <==> EvidenceSaid(es)
  {
    NormalizeClean(es);
    if Accepts(EvidenceComplete, es, pack) {
      var j :| 0 <= j < |es| && EvidenceFlag(es[j]);
      var first := FirstFlag(es, j);
      forall i | 0 <= i < first && es[i].kind == Execute
        ensures !es[i].payload.Opaque?
      {
        assert !FaultsAt(es, i);
      }
    } else if j :| && 0 <= j < |es| && es[j].payload.Fields? && es[j].payload.evidenceComplete
                   && forall i | 0 <= i < j :: !(es[i].kind == Execute && es[i].payload.Opaque?) {
      assert EvidenceFlag(es[j]);
    }
  }

  lemma {:induction false} FirstFlag(es: seq<CleanEvent>, j: int) returns (i: int)
    requires 0 <= j < |es| && EvidenceFlag(es[j])
    ensures 0 <= i <= j && EvidenceFlag(es[i]) && forall k | 0 <= k < i :: !EvidenceFlag(es[k])
  {
    if k :| 0 <= k < j && EvidenceFlag(es[k]) {
      i := FirstFlag(es, k);
    } else {
      i := j;
    }
  }

  // ---- What a decision says ------------------------------------------------

  /** The flag that switches a class on. */
  predicate Flagged(c: ObligationClass, pack: Pack) {
    || (c == HandoffLegality && pack.singleOwnerHandoff)
    || (c == ReviewerGated && pack.reviewerGatedExecution)
    || (c == LockOwnership && pack.lockOwnershipInvariant)
    || (c == DelegationAdmissibility && pack.delegationAdmissibility)
    || (c == StateTransition && pack.stateTransitionPreservation)
    || (c == ArtifactAdmissibility && pack.artifactAdmissibility)
    || (c == SideEffect && pack.sideEffectAuthorization)
    || (c == EvidenceComplete && pack.evidenceCompleteExecutionToken)
  }

  predicate Refusal(d: Decision, verdict: Verdict, reason: string) {
    d == Decision(verdict, TrustBlocked, [reason], "", "", [])
  }

  /** What is not switched on admits; so does a class nobody knows. Admitting is clean and gives no reason. */
  lemma Admits(c: ObligationClass, events: seq<RawEvent>, pack: Pack)
    ensures !Flagged(c, pack) ==> Accepts(c, events, pack)
    ensures Accepts(c, events, pack) ==> Decide(c, events, pack) == Ok(Decision(Accepted, Clean, [], "", "", []))
  {
    if Stepwise(c) {
      DecideFromIff(c, Normalize(events), 0);
    }
  }

  /** The two classes about a whole trace block; each has its reason. */
  lemma WholeTraceRefusal(events: seq<RawEvent>, pack: Pack)
    ensures var r := Decide(ReviewerGated, events, pack);
            r.Ok? && (r.value.verdict == Accepted || Refusal(r.value, Blocked, "missing_approval_token"))
    ensures var r := Decide(EvidenceComplete, events, pack);
            || r == Err(AttributeError)
            || (r.Ok? && (r.value.verdict == Accepted || Refusal(r.value, Blocked, "evidence_incomplete")))
  {
  }

  /** Why the first bad event of a trace is refused. */
  ghost predicate ReasonFor(c: ObligationClass, es: seq<CleanEvent>, j: nat, reason: string)
    requires j < |es|
  {
    match c
    case HandoffLegality => OwnerReasonFor(es, j, reason)
    case DelegationAdmissibility =>
      if exists i :: ClaimBefore(es, i, j) && es[i].actor.id.Some? && es[i].actor.id == es[j].actor.id
      then reason == "invalid_state_transition" else OwnerReasonFor(es, j, reason)
    case LockOwnership =>
      reason == if es[j].kind == Lock || exists i :: HeldSince(es, i, j) && es[i].actor.id.Some?
                then "lock_conflict" else "release_without_lock"
    case StateTransition => reason == "invalid_state_transition"
    case ArtifactAdmissibility => reason == "artifact_not_admissible"
    case SideEffect => reason == "side_effect_unauthorized"
    case _ => false
  }

  ghost predicate OwnerReasonFor(es: seq<CleanEvent>, j: nat, reason: string)
    requires j < |es|
  {
    reason == if exists i :: ClaimBefore(es, i, j) && es[i].actor.id.Some?
              then "owner_mismatch" else "delegate_without_prior_claim"
  }

  lemma ReasonMeaning(c: ObligationClass, es: seq<CleanEvent>, j: nat)
    requires Stepwise(c) && j < |es| && !OkAt(c, es, j)
    ensures ReasonFor(c, es, j, ReasonAt(c, es, j))
  {
    assert forall i :: LatestClaim(es, i, j) <==> ClaimBefore(es, i, j);
    assert forall i :: LockedSince(es, i, j) <==> HeldSince(es, i, j);
  }

  /** A stepwise class rejects at the first event that is out of order, for that event's reason. */
  lemma {:induction false} FirstBad(c: ObligationClass, es: seq<CleanEvent>, from: nat) returns (j: nat)
    requires Stepwise(c) && from <= |es| && DecideFrom(c, es, from).verdict != Accepted
    ensures from <= j < |es| && !OkAt(c, es, j) && forall i | from <= i < j :: OkAt(c, es, i)
    ensures exists reason :: ReasonFor(c, es, j, reason) && Refusal(DecideFrom(c, es, from), Rejected, reason)
    decreases |es| - from
  {
    if OkAt(c, es, from) {
      j := FirstBad(c, es, from + 1);
    } else {
      j := from;
      ReasonMeaning(c, es, j);
      assert Refusal(DecideFrom(c, es, from), Rejected, ReasonAt(c, es, j));
    }
  }

  /** The first misplaced artifacts come under a kind that cannot be looked up. */
  ghost predicate KindUnknowable(es: seq<CleanEvent>) {
    exists j ::
      && 0 <= j < |es| && Misplaced(es[j]) && es[j].kind == Unhashable
      && forall i | 0 <= i < j :: !Misplaced(es[i])
  }

  /** An execute whose payload cannot be asked comes before any event that says the evidence is complete. */
  ghost predicate PayloadUnaskable(es: seq<CleanEvent>) {
    exists j ::
      && 0 <= j < |es| && es[j].kind == Execute && es[j].payload.Opaque?
      && forall i | 0 <= i < j :: !(es[i].payload.Fields? && es[i].payload.evidenceComplete)
  }

  lemma KindFault(es: seq<CleanEvent>)
    ensures (exists j :: ArtifactFaultsAt(es, j)) <==> KindUnknowable(es)
  {
    forall i | 0 <= i < |es|
      ensures OkAt(ArtifactAdmissibility, es, i) <==> !Misplaced(es[i])
    {
    }
    if KindUnknowable(es) {
      var j :| && 0 <= j < |es| && Misplaced(es[j]) && es[j].kind == Unhashable
               && forall i | 0 <= i < j :: !Misplaced(es[i]);
      assert ArtifactFaultsAt(es, j);
    }
  }

  lemma PayloadFault(es: seq<CleanEvent>)
    ensures (exists j :: FaultsAt(es, j)) <==> PayloadUnaskable(es)
  {
    if PayloadUnaskable(es) {
      var j :| && 0 <= j < |es| && es[j].kind == Execute && es[j].payload.Opaque?
               && forall i | 0 <= i < j :: !(es[i].payload.Fields? && es[i].payload.evidenceComplete);
      assert FaultsAt(es, j);
    }
  }

  lemma TypeFault(c: ObligationClass, es: seq<CleanEvent>, pack: Pack)
    ensures DecideClean(c, es, pack) == Err(TypeError) <==>
            c == ArtifactAdmissibility && pack.artifactAdmissibility && exists j :: ArtifactFaultsAt(es, j)
  {
  }

  lemma AttributeFault(c: ObligationClass, es: seq<CleanEvent>, pack: Pack)
    ensures DecideClean(c, es, pack) == Err(AttributeError) <==>
            c == EvidenceComplete && pack.evidenceCompleteExecutionToken && exists j :: FaultsAt(es, j)
  {
  }

  /** An evaluator raises on the events it cannot judge, and on no other. */
  lemma FaultLaw(c: ObligationClass, es: seq<CleanEvent>, pack: Pack)
    ensures Decide(c, es, pack) == Err(TypeError) <==>
            c == ArtifactAdmissibility && pack.artifactAdmissibility && KindUnknowable(es)
    ensures Decide(c, es, pack) == Err(AttributeError) <==>
            c == EvidenceComplete && pack.evidenceCompleteExecutionToken && PayloadUnaskable(es)
  {
    CleanAsIs(c, es, pack);
    TypeFault(c, es, pack);
    KindFault(es);
    AttributeFault(c, es, pack);
    PayloadFault(es);
  }

  /** Otherwise a stepwise class rejects at the first event that is out of order, for that event's reason. */
  lemma StepwiseRefusal(c: ObligationClass, es: seq<CleanEvent>, pack: Pack) returns (j: nat, reason: string)
    requires Stepwise(c) && Decide(c, es, pack).Ok? && !Accepts(c, es, pack)
    ensures j < |es| && !OkAt(c, es, j) && forall i | 0 <= i < j :: OkAt(c, es, i)
    ensures ReasonFor(c, es, j, reason) && Refusal(Decide(c, es, pack).value, Rejected, reason)
  {
    NormalizeClean(es);
    j := FirstBad(c, es, 0);
    reason :| ReasonFor(c, es, j, reason) && Refusal(DecideFrom(c, es, 0), Rejected, reason);
  }
}
