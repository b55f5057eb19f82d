/** The protocol evaluators: loops over an event trace, each proved against a property of the trace itself. */
module ProtocolEvaluator {
  import opened Wrappers
  import opened PolicyModels

  /** `Unhashable` is a kind that is a list or a mapping. */
  datatype Kind = Claim | Delegate | Approve | Reject | Lock | Release | Execute | Recover | OtherKind | Unhashable

  /** The `actor` or `task` field of an event: a mapping with an optional id, or anything else. */
  datatype Ref = NotAMapping | Mapping(id: Option<string>)

  /** `NoPayload` is a missing or falsy payload, `Opaque` a truthy one that is not a mapping. */
  datatype Payload = NoPayload | Opaque | Fields(artifacts: bool, evidenceComplete: bool)

  /** `Junk` is an event that is neither a mapping nor a model, or an empty mapping. */
  datatype RawEvent = Junk | Event(kind: Kind, actor: Ref, task: Ref, payload: Payload)

  type CleanEvent = e: RawEvent | e.Event? && e.actor.Mapping? && e.task.Mapping?
    witness Event(OtherKind, Mapping(None), Mapping(None), NoPayload)

  datatype ObligationClass =
    | HandoffLegality
    | ReviewerGated
    | LockOwnership
    | DelegationAdmissibility
    | StateTransition
    | ArtifactAdmissibility
    | SideEffect
    | EvidenceComplete
    | UnknownClass

  /** What evaluators raise on asking a payload that is no mapping for a field, or looking up an unhashable kind. */
  datatype Fault = AttributeError | TypeError

  // ---- Normalising events --------------------------------------------------

  function AsMapping(r: Ref): Ref {
    if r.Mapping? then r else Mapping(None)
  }

  function Clean1(e: RawEvent): seq<CleanEvent> {
    if e.Junk? then [] else [e.(actor := AsMapping(e.actor), task := AsMapping(e.task))]
  }

  function Normalize(events: seq<RawEvent>): seq<CleanEvent> {
    if events == [] then [] else Normalize(events[..|events| - 1]) + Clean1(events[|events| - 1])
  }

  method ValidateEvents(events: seq<RawEvent>) returns (out: seq<CleanEvent>)
    ensures out == Normalize(events)
  {
    out := [];
    for i := 0 to |events|
      invariant out == Normalize(events[..i])
    {
      assert events[..i + 1][..i] == events[..i];
      var e := events[i];
      if e.Junk? {
        continue;
      }
      out := out + [e.(actor := AsMapping(e.actor), task := AsMapping(e.task))];
    }
    assert events[..|events|] == events;
  }

  /** Normalising works event by event: it drops junk, keeps order and repairs actor and task. */
  lemma {:induction false} NormalizeConcat(a: seq<RawEvent>, b: seq<RawEvent>)
    ensures Normalize(a + b) == Normalize(a) + Normalize(b)
  {
    if b == [] {
      assert a + b == a;
    } else {
      var n := |b| - 1;
      assert (a + b)[..|a + b| - 1] == a + b[..n];
      NormalizeConcat(a, b[..n]);
    }
  }

  lemma {:induction false} NormalizeClean(events: seq<CleanEvent>)
    ensures Normalize(events) == events
  {
    if events != [] {
      var n := |events| - 1;
      NormalizeClean(events[..n]);
      assert events == events[..n] + [events[n]];
    }
  }

  // ---- What a trace must satisfy -------------------------------------------

  function Agent(e: CleanEvent): Option<string> {
    e.actor.id
  }

  ghost predicate LatestClaim(es: seq<CleanEvent>, i: int, j: int) {
    0 <= i < j <= |es| && es[i].kind == Claim && forall k | i < k < j :: es[k].kind != Claim
  }

  ghost predicate HandoffAt(es: seq<CleanEvent>, j: nat)
    requires j < |es|
  {
    es[j].kind == Delegate ==>
      exists i :: LatestClaim(es, i, j) && Agent(es[i]).Some? && Agent(es[i]) == Agent(es[j])
  }

  predicate SameTask(claim: CleanEvent, delegate: CleanEvent) {
    claim.task.id.Some? && delegate.task.id.Some? ==> claim.task.id == delegate.task.id
  }

  ghost predicate DelegationAt(es: seq<CleanEvent>, j: nat)
    requires j < |es|
  {
    es[j].kind == Delegate ==>
      exists i :: LatestClaim(es, i, j) && Agent(es[i]).Some? && Agent(es[i]) == Agent(es[j]) && SameTask(es[i], es[j])
  }

  ghost predicate ReleasedBetween(es: seq<CleanEvent>, i: int, j: int)
    requires 0 <= i < j <= |es|
  {
    exists k :: i < k < j && es[k].kind == Release && Agent(es[k]) == Agent(es[i])
  }

  /** A lock at `i` with no release of any kind before `j`. */
  ghost predicate LockedSince(es: seq<CleanEvent>, i: int, j: int) {
    0 <= i < j <= |es| && es[i].kind == Lock && forall k | i < k < j :: es[k].kind != Release
  }

  /** A lock by an unnamed agent claims nothing; a release by one is never allowed. */
  ghost predicate LockAt(es: seq<CleanEvent>, j: nat)
    requires j < |es|
  {
    && (es[j].kind == Lock ==>
          forall i | 0 <= i < j && es[i].kind == Lock && Agent(es[i]).Some? && Agent(es[i]) != Agent(es[j]) ::
            ReleasedBetween(es, i, j))
    && (es[j].kind == Release ==>
          Agent(es[j]).Some? && exists i :: LockedSince(es, i, j) && Agent(es[i]) == Agent(es[j]))
  }

  ghost predicate ApprovedBefore(es: seq<CleanEvent>, j: nat)
    requires j < |es|
  {
    es[j].kind in {Execute, Recover} ==> exists i :: 0 <= i < j && es[i].kind == Approve
  }

  predicate CarriesArtifacts(e: CleanEvent) {
    e.payload.Fields? && e.payload.artifacts
  }

  predicate EvidenceFlag(e: CleanEvent) {
    e.payload.Fields? && e.payload.evidenceComplete
  }

  /** The classes that judge each event by the events before it. */
  predicate Stepwise(c: ObligationClass) {
    c in {HandoffLegality, LockOwnership, DelegationAdmissibility, StateTransition, ArtifactAdmissibility, SideEffect}
  }

  ghost predicate OkAt(c: ObligationClass, es: seq<CleanEvent>, j: nat)
    requires Stepwise(c) && j < |es|
  {
    match c
    case HandoffLegality => HandoffAt(es, j)
    case LockOwnership => LockAt(es, j)
    case DelegationAdmissibility => DelegationAt(es, j)
    case ArtifactAdmissibility => CarriesArtifacts(es[j]) ==> es[j].kind in {Approve, Execute}
    case _ => ApprovedBefore(es, j)
  }

  ghost predicate Admissible(c: ObligationClass, es: seq<CleanEvent>)
    requires Stepwise(c)
  {
    forall j | 0 <= j < |es| :: OkAt(c, es, j)
  }

  ghost function OwnerReason(es: seq<CleanEvent>, j: nat): string
    requires j < |es|
  {
    if exists i :: LatestClaim(es, i, j) && Agent(es[i]).Some? then "owner_mismatch" else "delegate_without_prior_claim"
  }

  /** Why the first event that is not ok is refused. */
  ghost function ReasonAt(c: ObligationClass, es: seq<CleanEvent>, j: nat): string
    requires Stepwise(c) && j < |es|
  {
    match c
    case HandoffLegality => OwnerReason(es, j)
    case DelegationAdmissibility => if HandoffAt(es, j) then "invalid_state_transition" else OwnerReason(es, j)
    case LockOwnership =>
      if es[j].kind == Lock || exists i :: LockedSince(es, i, j) && Agent(es[i]).Some?
      then "lock_conflict"
      else "release_without_lock"
    case StateTransition => "invalid_state_transition"
    case ArtifactAdmissibility => "artifact_not_admissible"
    case SideEffect => "side_effect_unauthorized"
  }

  /** The decision of a stepwise class, looking for the first bad event from `j` on. */
  ghost function DecideFrom(c: ObligationClass, es: seq<CleanEvent>, j: nat): (d: Decision)
    requires Stepwise(c) && j <= |es|
    decreases |es| - j
  {
    if j == |es| then ADMIT
    else if OkAt(c, es, j) then DecideFrom(c, es, j + 1)
    else Refuse(Rejected, ReasonAt(c, es, j))
  }

  /** Evidence is complete when some event says so; an opaque payload on an earlier execute raises. */
  ghost predicate FaultsAt(es: seq<CleanEvent>, j: int) {
    0 <= j < |es| && es[j].kind == Execute && es[j].payload.Opaque? && forall i | 0 <= i < j :: !EvidenceFlag(es[i])
  }

  /** The first event out of order carries artifacts under an unhashable kind, which cannot be looked up. */
  ghost predicate ArtifactFaultsAt(es: seq<CleanEvent>, j: int) {
    && 0 <= j < |es| && CarriesArtifacts(es[j]) && es[j].kind == Unhashable
    && forall i | 0 <= i < j :: OkAt(ArtifactAdmissibility, es, i)
  }

  predicate Enabled(c: ObligationClass, pack: Pack) {
    match c
    case HandoffLegality => pack.singleOwnerHandoff
    case ReviewerGated => pack.reviewerGatedExecution
    case LockOwnership => pack.lockOwnershipInvariant
    case DelegationAdmissibility => pack.delegationAdmissibility
    case StateTransition => pack.stateTransitionPreservation
    case ArtifactAdmissibility => pack.artifactAdmissibility
    case SideEffect => pack.sideEffectAuthorization
    case EvidenceComplete => pack.evidenceCompleteExecutionToken
    case UnknownClass => false
  }

  ghost function DecideClean(c: ObligationClass, es: seq<CleanEvent>, pack: Pack): Result<Decision, Fault> {
    if !Enabled(c, pack) then Ok(ADMIT)
    else if c == ArtifactAdmissibility && exists j :: ArtifactFaultsAt(es, j) then Err(TypeError)
    else if Stepwise(c) then Ok(DecideFrom(c, es, 0))
    else if c == ReviewerGated then
      Ok(if exists i :: 0 <= i < |es| && es[i].kind == Approve then ADMIT
         else Refuse(Blocked, "missing_approval_token"))
    else if exists j :: FaultsAt(es, j) then Err(AttributeError)
    else Ok(if exists i :: 0 <= i < |es| && EvidenceFlag(es[i]) then ADMIT else Refuse(Blocked, "evidence_incomplete"))
  }

  ghost function Decide(c: ObligationClass, events: seq<RawEvent>, pack: Pack): Result<Decision, Fault> {
    DecideClean(c, Normalize(events), pack)
  }

  // ---- The evaluators ------------------------------------------------------

  /** What the loops of the handoff and delegation evaluators know: the owner named by the latest claim. */
  ghost predicate OwnerIs(es: seq<CleanEvent>, j: nat, owner: Option<string>)
    requires j <= |es|
  {
    && (forall i | LatestClaim(es, i, j) :: Agent(es[i]) == owner)
    && (owner.Some? ==> exists i :: LatestClaim(es, i, j))
  }

  lemma OwnerStep(es: seq<CleanEvent>, j: nat, owner: Option<string>)
    requires j < |es| && OwnerIs(es, j, owner)
    ensures OwnerIs(es, j + 1, if es[j].kind == Claim then Agent(es[j]) else owner)
    ensures es[j].kind == Delegate ==> (HandoffAt(es, j) <==> owner.Some? && Agent(es[j]) == owner)
    ensures OwnerReason(es, j) == if owner.Some? then "owner_mismatch" else "delegate_without_prior_claim"
  {
    if es[j].kind == Claim {
      assert LatestClaim(es, j, j + 1);
    } else {
      assert forall i :: LatestClaim(es, i, j) <==> LatestClaim(es, i, j + 1);
    }
  }

  method EvaluateHandoffLegality(events: seq<RawEvent>, pack: Pack) returns (d: Decision)
    ensures Decide(HandoffLegality, events, pack) == Ok(d)
  {
    if !pack.singleOwnerHandoff {
      return ADMIT;
    }
    var es := ValidateEvents(events);
    var claimOwner := None;
    for j := 0 to |es|
      invariant DecideFrom(HandoffLegality, es, 0) == DecideFrom(HandoffLegality, es, j)
      invariant OwnerIs(es, j, claimOwner)
    {
      var e := es[j];
      OwnerStep(es, j, claimOwner);
      if e.kind == Claim {
        claimOwner := Agent(e);
      } else {
        if e.kind == Delegate {
          if claimOwner == None {
            return Refuse(Rejected, "delegate_without_prior_claim");
          }
          if Agent(e) != claimOwner {
            return Refuse(Rejected, "owner_mismatch");
          }
        }
      }
    }
    return ADMIT;
  }

  method EvaluateReviewerGated(events: seq<RawEvent>, pack: Pack) returns (d: Decision)
    ensures Decide(ReviewerGated, events, pack) == Ok(d)
  {
    if !pack.reviewerGatedExecution {
      return ADMIT;
    }
    var es := ValidateEvents(events);
    for j := 0 to |es|
      invariant forall i | 0 <= i < j :: es[i].kind != Approve
    {
      if es[j].kind == Approve {
        return ADMIT;
      }
    }
    return Refuse(Blocked, "missing_approval_token");
  }

  /** What the loop of the delegation evaluator knows: the owner and the task named by the latest claim. */
  ghost predicate ClaimIs(es: seq<CleanEvent>, j: nat, owner: Option<string>, task: Option<string>)
    requires j <= |es|
  {
    OwnerIs(es, j, owner) && forall i | LatestClaim(es, i, j) :: es[i].task.id == task
  }

  lemma ClaimStep(es: seq<CleanEvent>, j: nat, owner: Option<string>, task: Option<string>)
    requires j < |es| && ClaimIs(es, j, owner, task)
    ensures if es[j].kind == Claim then ClaimIs(es, j + 1, Agent(es[j]), es[j].task.id)
            else ClaimIs(es, j + 1, owner, task)
    ensures es[j].kind == Delegate ==>
              (DelegationAt(es, j) <==>
               && owner.Some? && Agent(es[j]) == owner
               && !(task.Some? && es[j].task.id.Some? && es[j].task.id != task))
  {
    OwnerStep(es, j, owner);
    assert forall i | LatestClaim(es, i, j + 1) && es[j].kind != Claim :: LatestClaim(es, i, j);
  }

  method EvaluateDelegationAdmissibility(events: seq<RawEvent>, pack: Pack) returns (d: Decision)
    ensures Decide(DelegationAdmissibility, events, pack) == Ok(d)
  {
    if !pack.delegationAdmissibility {
      return ADMIT;
    }
    var es := ValidateEvents(events);
    var claimTask := None;
    var claimOwner := None;
    for j := 0 to |es|
      invariant DecideFrom(DelegationAdmissibility, es, 0) == DecideFrom(DelegationAdmissibility, es, j)
      invariant ClaimIs(es, j, claimOwner, claimTask)
    {
      var e := es[j];
      OwnerStep(es, j, claimOwner);
      ClaimStep(es, j, claimOwner, claimTask);
      if e.kind == Claim {
        claimOwner := Agent(e);
        claimTask := e.task.id;
      } else if e.kind == Delegate {
        if claimOwner == None {
          return Refuse(Rejected, "delegate_without_prior_claim");
        }
        if Agent(e) != claimOwner {
          return Refuse(Rejected, "owner_mismatch");
        }
        if claimTask.Some? && e.task.id.Some? && e.task.id != claimTask {
          return Refuse(Rejected, "invalid_state_transition");
        }
      }
    }
    return ADMIT;
  }

  method EvaluateStateTransition(events: seq<RawEvent>, pack: Pack) returns (d: Decision)
    ensures Decide(StateTransition, events, pack) == Ok(d)
  {
    if !pack.stateTransitionPreservation {
      return ADMIT;
    }
    var es := ValidateEvents(events);
    var seenApprove := false;
    for j := 0 to |es|
      invariant DecideFrom(StateTransition, es, 0) == DecideFrom(StateTransition, es, j)
      invariant seenApprove <==> exists i :: 0 <= i < j && es[i].kind == Approve
    {
      var kind := es[j].kind;
      if kind in {Execute, Recover} {
        if !seenApprove {
          return Refuse(Rejected, "invalid_state_transition");
        }
      } else if kind == Approve {
        seenApprove := true;
      }
    }
    return ADMIT;
  }

  lemma FaultsAreBad(es: seq<CleanEvent>)
    ensures forall i :: ArtifactFaultsAt(es, i) ==> !OkAt(ArtifactAdmissibility, es, i)
  {
  }

  method EvaluateArtifactAdmissibility(events: seq<RawEvent>, pack: Pack) returns (r: Result<Decision, Fault>)
    ensures r == Decide(ArtifactAdmissibility, events, pack)
  {
    if !pack.artifactAdmissibility {
      return Ok(ADMIT);
    }
    var es := ValidateEvents(events);
    FaultsAreBad(es);
    for j := 0 to |es|
      invariant DecideFrom(ArtifactAdmissibility, es, 0) == DecideFrom(ArtifactAdmissibility, es, j)
      invariant forall i | 0 <= i < j :: OkAt(ArtifactAdmissibility, es, i)
    {
      if CarriesArtifacts(es[j]) {
        if es[j].kind == Unhashable {
          assert ArtifactFaultsAt(es, j);
          return Err(TypeError);
        }
        if es[j].kind !in {Approve, Execute} {
          return Ok(Refuse(Rejected, "artifact_not_admissible"));
        }
      }
    }
    return Ok(ADMIT);
  }

  method EvaluateSideEffectAuthorization(events: seq<RawEvent>, pack: Pack) returns (d: Decision)
    ensures Decide(SideEffect, events, pack) == Ok(d)
  {
    if !pack.sideEffectAuthorization {
      return ADMIT;
    }
    var es := ValidateEvents(events);
    var seenApprove := false;
    for j := 0 to |es|
      invariant DecideFrom(SideEffect, es, 0) == DecideFrom(SideEffect, es, j)
      invariant seenApprove <==> exists i :: 0 <= i < j && es[i].kind == Approve
    {
      var kind := es[j].kind;
      if kind in {Execute, Recover} {
        if !seenApprove {
          return Refuse(Rejected, "side_effect_unauthorized");
        }
      } else if kind == Approve {
        seenApprove := true;
      }
    }
    return ADMIT;
  }

  method EvaluateEvidenceComplete(events: seq<RawEvent>, pack: Pack) returns (r: Result<Decision, Fault>)
    ensures r == Decide(EvidenceComplete, events, pack)
  {
    if !pack.evidenceCompleteExecutionToken {
      return Ok(ADMIT);
    }
    var es := ValidateEvents(events);
    for j := 0 to |es|
      invariant forall i | 0 <= i < j :: !EvidenceFlag(es[i]) && !FaultsAt(es, i)
    {
      if es[j].kind == Execute && es[j].payload.Opaque? {
        assert FaultsAt(es, j);
        return Err(AttributeError);
      }
      if EvidenceFlag(es[j]) {
        return Ok(ADMIT);
      }
    }
    return Ok(Refuse(Blocked, "evidence_incomplete"));
  }

  /** What the loop of the lock evaluator knows: who holds the lock, and that everyone else let go. */
  ghost predicate HolderIs(es: seq<CleanEvent>, j: nat, holder: Option<string>)
    requires j <= |es|
  {
    && (holder.Some? ==> exists i :: LockedSince(es, i, j) && Agent(es[i]) == holder)
    && (forall i | 0 <= i < j && es[i].kind == Lock && Agent(es[i]).Some? && Agent(es[i]) != holder ::
          ReleasedBetween(es, i, j))
  }

  function HolderAfter(e: CleanEvent, holder: Option<string>): Option<string> {
    if e.kind == Lock then Agent(e) else if e.kind == Release then None else holder
  }

  lemma ReleasedStep(es: seq<CleanEvent>, i: nat, j: nat)
    requires i < j < |es|
    ensures ReleasedBetween(es, i, j) ==> ReleasedBetween(es, i, j + 1)
    ensures es[j].kind == Release && Agent(es[j]) == Agent(es[i]) ==> ReleasedBetween(es, i, j + 1)
  {
  }

  /** A lock or release is in order exactly when the holder allows it. */
  lemma LockAllowed(es: seq<CleanEvent>, j: nat, holder: Option<string>)
    requires j < |es| && HolderIs(es, j, holder)
    ensures es[j].kind == Lock ==> (LockAt(es, j) <==> holder == None || holder == Agent(es[j]))
    ensures es[j].kind == Release ==> (LockAt(es, j) <==> holder.Some? && holder == Agent(es[j]))
    ensures holder.Some? <==> exists i :: LockedSince(es, i, j) && Agent(es[i]).Some?
  {
  }

  lemma HolderStep(es: seq<CleanEvent>, j: nat, holder: Option<string>)
    requires j < |es| && HolderIs(es, j, holder) && LockAt(es, j)
    ensures HolderIs(es, j + 1, HolderAfter(es[j], holder))
  {
    LockAllowed(es, j, holder);
    var next := HolderAfter(es[j], holder);
    if es[j].kind == Lock {
      assert LockedSince(es, j, j + 1);
    } else if holder.Some? && next == holder {
      var i :| LockedSince(es, i, j) && Agent(es[i]) == holder;
      assert LockedSince(es, i, j + 1);
    }
    forall i | 0 <= i < j + 1 && es[i].kind == Lock && Agent(es[i]).Some? && Agent(es[i]) != next
      ensures ReleasedBetween(es, i, j + 1)
    {
      if i < j {
        ReleasedStep(es, i, j);
      }
    }
  }

  method EvaluateLockOwnership(events: seq<RawEvent>, pack: Pack) returns (d: Decision)
    ensures Decide(LockOwnership, events, pack) == Ok(d)
  {
    if !pack.lockOwnershipInvariant {
      return ADMIT;
    }
    var es := ValidateEvents(events);
    var holder := None;
    for j := 0 to |es|
      invariant DecideFrom(LockOwnership, es, 0) == DecideFrom(LockOwnership, es, j)
      invariant HolderIs(es, j, holder)
    {
      var e := es[j];
      LockAllowed(es, j, holder);
      if e.kind == Lock {
        if holder.Some? && holder != Agent(e) {
          return Refuse(Rejected, "lock_conflict");
        }
        HolderStep(es, j, holder);
        holder := Agent(e);
      } else if e.kind == Release {
        if holder == None {
          return Refuse(Rejected, "release_without_lock");
        }
        if Agent(e) != holder {
          return Refuse(Rejected, "lock_conflict");
        }
        HolderStep(es, j, holder);
        holder := None;
      } else {
        HolderStep(es, j, holder);
      }
    }
    return ADMIT;
  }

  method EvaluateProtocolObligation(c: ObligationClass, events: seq<RawEvent>, pack: Pack)
    returns (r: Result<Decision, Fault>)
    ensures r == Decide(c, events, pack)
  {
    var d := ADMIT;
    match c {
      case HandoffLegality => d := EvaluateHandoffLegality(events, pack);
      case ReviewerGated => d := EvaluateReviewerGated(events, pack);
      case LockOwnership => d := EvaluateLockOwnership(events, pack);
      case DelegationAdmissibility => d := EvaluateDelegationAdmissibility(events, pack);
      case StateTransition => d := EvaluateStateTransition(events, pack);
      case ArtifactAdmissibility => {
        r := EvaluateArtifactAdmissibility(events, pack);
        return;
      }
      case SideEffect => d := EvaluateSideEffectAuthorization(events, pack);
      case EvidenceComplete => {
        r := EvaluateEvidenceComplete(events, pack);
        return;
      }
      case UnknownClass =>
    }
    r := Ok(d);
  }

  // ---- What the decisions mean ---------------------------------------------

  ghost predicate Accepts(c: ObligationClass, events: seq<RawEvent>, pack: Pack) {
    Decide(c, events, pack).Ok? && Decide(c, events, pack).value.verdict == Accepted
  }

  lemma {:induction false} DecideFromIff(c: ObligationClass, es: seq<CleanEvent>, j: nat)
    requires Stepwise(c) && j <= |es|
    ensures DecideFrom(c, es, j).verdict == Accepted <==> forall k | j <= k < |es| :: OkAt(c, es, k)
    ensures DecideFrom(c, es, j).verdict == Accepted ==> DecideFrom(c, es, j) == ADMIT
    decreases |es| - j
  {
    if j < |es| {
      DecideFromIff(c, es, j + 1);
    }
  }

  /**
   * An enabled stepwise class accepts exactly the traces that satisfy its property at every event. Only the artifact
   * evaluator can raise, on traces that do not.
   */
  lemma AcceptsIff(c: ObligationClass, events: seq<RawEvent>, pack: Pack)
    requires Stepwise(c) && Enabled(c, pack)
    ensures Accepts(c, events, pack) <==> Admissible(c, Normalize(events))
    ensures Decide(c, events, pack).Err? <==>
            c == ArtifactAdmissibility && exists j :: ArtifactFaultsAt(Normalize(events), j)
  {
    var es := Normalize(events);
    DecideFromIff(c, es, 0);
    FaultsAreBad(es);
  }

  /** Normalising events before an evaluator sees them never changes its decision. */
  lemma NormalizingIsInvisible(c: ObligationClass, events: seq<RawEvent>, pack: Pack)
    ensures Decide(c, Normalize(events), pack) == Decide(c, events, pack)
  {
    NormalizeClean(Normalize(events));
  }

  /** Whether an event is ok depends only on the trace up to it. */
  lemma OkAtPrefix(c: ObligationClass, a: seq<CleanEvent>, b: seq<CleanEvent>, j: nat)
    requires Stepwise(c) && j < |a|
    ensures OkAt(c, a, j) <==> OkAt(c, a + b, j)
  {
    var ab := a + b;
    assert forall k | 0 <= k < |a| :: ab[k] == a[k];
    assert forall i :: LatestClaim(a, i, j) <==> LatestClaim(ab, i, j);
    assert forall i :: LockedSince(a, i, j) <==> LockedSince(ab, i, j);
    forall i | 0 <= i < j
      ensures ReleasedBetween(a, i, j) <==> ReleasedBetween(ab, i, j)
    {
      assert forall k | i < k < j :: ab[k] == a[k];
    }
  }

  /** Accepted traces are prefix-closed, for every stepwise class and on raw events. */
  lemma PrefixClosed(c: ObligationClass, a: seq<RawEvent>, b: seq<RawEvent>, pack: Pack)
    requires Stepwise(c) && Enabled(c, pack)
    requires Accepts(c, a + b, pack)
    ensures Accepts(c, a, pack)
  {
    AcceptsIff(c, a + b, pack);
    AcceptsIff(c, a, pack);
    NormalizeConcat(a, b);
    forall j | 0 <= j < |Normalize(a)|
      ensures OkAt(c, Normalize(a), j)
    {
      OkAtPrefix(c, Normalize(a), Normalize(b), j);
      assert OkAt(c, Normalize(a + b), j);
    }
  }

  /** Someone holds the lock at `p`: locked it before `p` and did not release it since. */
  ghost predicate Holding(es: seq<CleanEvent>, p: nat, agent: string)
    requires p <= |es|
  {
    exists i :: 0 <= i < p && es[i].kind == Lock && Agent(es[i]) == Some(agent) && !ReleasedBetween(es, i, p)
  }

  lemma EarlierLockReleased(es: seq<CleanEvent>, i: nat, j: nat, p: nat)
    requires Admissible(LockOwnership, es) && i < j < p <= |es|
    requires es[i].kind == es[j].kind == Lock && Agent(es[i]).Some? && Agent(es[i]) != Agent(es[j])
    ensures ReleasedBetween(es, i, p)
  {
    assert OkAt(LockOwnership, es, j);
  }

  /** Mutual exclusion: in a trace the lock evaluator accepts, two agents never hold the lock together. */
  lemma LockIsExclusive(es: seq<CleanEvent>, p: nat, a: string, b: string)
    requires Admissible(LockOwnership, es) && p <= |es|
    requires Holding(es, p, a) && Holding(es, p, b)
    ensures a == b
  {
    var i :| 0 <= i < p && es[i].kind == Lock && Agent(es[i]) == Some(a) && !ReleasedBetween(es, i, p);
    var j :| 0 <= j < p && es[j].kind == Lock && Agent(es[j]) == Some(b) && !ReleasedBetween(es, j, p);
    if a != b && i < j {
      EarlierLockReleased(es, i, j, p);
    } else if a != b {
      EarlierLockReleased(es, j, i, p);
    }
  }

  /** With both flags on, every trace delegation admissibility accepts is a legal handoff. */
  lemma DelegationImpliesHandoff(events: seq<RawEvent>, pack: Pack)
    requires pack.delegationAdmissibility && pack.singleOwnerHandoff
    requires Accepts(DelegationAdmissibility, events, pack)
    ensures Accepts(HandoffLegality, events, pack)
  {
    AcceptsIff(DelegationAdmissibility, events, pack);
    AcceptsIff(HandoffLegality, events, pack);
    var es := Normalize(events);
    forall j | 0 <= j < |es|
      ensures OkAt(HandoffLegality, es, j)
    {
      assert OkAt(DelegationAdmissibility, es, j);
    }
  }

  /** State-transition and side-effect evaluation differ in nothing but the reason code. */
  lemma {:induction false} TransitionsAndEffectsAgree(es: seq<CleanEvent>, j: nat)
    requires j <= |es|
    ensures var t, s := DecideFrom(StateTransition, es, j), DecideFrom(SideEffect, es, j);
            || t == s == ADMIT
            || (t == Refuse(Rejected, "invalid_state_transition") && s == Refuse(Rejected, "side_effect_unauthorized"))
    decreases |es| - j
  {
    if j < |es| {
      TransitionsAndEffectsAgree(es, j + 1);
    }
  }

  /** With all agents named, the unnamed-agent clauses of the lock property disappear. */
  lemma LockPropertyForNamedAgents(es: seq<CleanEvent>)
    requires forall e | e in es :: Agent(e).Some?
    ensures Admissible(LockOwnership, es) <==>
            && (forall i, j |
                  0 <= i < j < |es| && es[i].kind == Lock && es[j].kind == Lock && Agent(es[i]) != Agent(es[j]) ::
                  ReleasedBetween(es, i, j))
            && (forall j | 0 <= j < |es| && es[j].kind == Release ::
                  exists i :: LockedSince(es, i, j) && Agent(es[i]) == Agent(es[j]))
  {
    forall j | 0 <= j < |es|
      ensures OkAt(LockOwnership, es, j) <==>
              && (es[j].kind == Lock ==>
                    forall i | 0 <= i < j && es[i].kind == Lock && Agent(es[i]) != Agent(es[j]) ::
                      ReleasedBetween(es, i, j))
              && (es[j].kind == Release ==> exists i :: LockedSince(es, i, j) && Agent(es[i]) == Agent(es[j]))
    {
      assert forall i | 0 <= i < |es| :: Agent(es[i]).Some?;
    }
  }
}
