/**
 * The patch-admissibility graph: its state, nodes and routes, and one invocation as a run of nodes.
 * Answers of the gateway are arbitrary inputs; a missing answer is a client call that raised.
 */
module Runtime {
  import opened Wrappers
  import opened PolicyModels
  import opened Batch
  import opened PatchMetadata
  import PolicyEngine
  import ProtocolEvaluator
  import Reviews

  type Interactive = PolicyEngine.Interactive

  datatype Status =
    | Initialized | RetrievingContext | Drafting | CheckingInteractive | Repairing | Auditing
    | AwaitingApproval | BatchVerifying | Accepted | Rejected | Failed

  /** The one kind of artifact the graph makes; what a bundle records beside these is not modelled. */
  datatype Artifact = WitnessBundle(obligationId: string)

  /** The keys no node updates, as a run sees them; an empty pack name is an absent one. */
  datatype Request = Request(
    threadId: string,
    obligationId: string,
    protectedPaths: seq<string>,
    patch: Files,
    protocolEvents: seq<ProtocolEvaluator.RawEvent>,
    packName: string)

  datatype State = State(
    request: Request,
    sessionId: Option<string>,
    interactive: Option<Interactive>,
    batch: Option<BatchResult>,
    policy: Option<Decision>,
    trust: Option<Trust>,
    approvalRequired: bool,
    approval: Option<Reviews.Choice>,
    status: Status,
    artifacts: seq<Artifact>)

  /**
   * What the nodes are built with: the policy pack a review uses, what the protocol checks refuse, the policy engine.
   * `Deployed` below is the one the graph is built with; results that do not depend on these hold for any other.
   */
  datatype Deployment = Deployment(
    reviewPack: Request -> Pack,
    refusal: Request -> Result<Option<Decision>, ProtocolEvaluator.Fault>,
    engine: (Pack, PolicyEngine.Evidence) -> Decision)

  /** Which packs load, and `OBR_POLICY_PACK`. */
  datatype Packs = Packs(loadable: map<string, Pack>, envPack: Option<string>)

  /** What the gateway answers to the calls of one invocation; `None` or `false` is a call that raised. */
  datatype Answers = Answers(
    environment: bool,
    session: Option<string>,
    patched: bool,
    interactive: Option<Interactive>,
    batch: Option<BatchInputs>,
    reviewPosted: bool)

  datatype Node =
    | InitEnvironment | RetrieveContext | DraftCandidate | InteractiveCheck | RepairFromDiagnostics | RepairFromGoals
    | BatchVerify | AuditTrust | EvaluateProtocol | PolicyReview | InterruptForApproval | Finalize | ResumeWithApproval

  // ---- States an invocation starts from ------------------------------------

  /** What a caller starts a thread with; the last two may be left out. */
  datatype Submission = Submission(
    threadId: string,
    obligationId: string,
    protectedPaths: seq<string>,
    patch: Files,
    protocolEvents: Option<seq<ProtocolEvaluator.RawEvent>>,
    packName: Option<string>)

  /** The keys an input does not mention stay as the thread's checkpoint has them, if it has one. */
  function KeptEvents(checkpoint: Option<State>): seq<ProtocolEvaluator.RawEvent> {
    if checkpoint.Some? then checkpoint.value.request.protocolEvents else []
  }

  function KeptPackName(checkpoint: Option<State>): string {
    if checkpoint.Some? then checkpoint.value.request.packName else ""
  }

  /** The request a start comes to, merged over the thread's checkpoint. */
  function Requested(s: Submission, checkpoint: Option<State>): Request {
    Request(s.threadId, s.obligationId, s.protectedPaths, s.patch,
            if s.protocolEvents.Some? then s.protocolEvents.value else KeptEvents(checkpoint),
            if s.packName.Some? then s.packName.value else KeptPackName(checkpoint))
  }

  function MakeInitialState(request: Request): State {
    State(request, None, None, None, None, None, false, None, Initialized, [])
  }

  /** A resume blanks everything but the two keys its input does not mention, which stay as checkpointed. */
  function MakeResumeState(threadId: string, choice: Reviews.Choice, checkpoint: Option<State>): State {
    var request := Request(threadId, "", [], map[], KeptEvents(checkpoint), KeptPackName(checkpoint));
    State(request, None, None, None, None, None, true, Some(choice), AwaitingApproval, [])
  }

  // ---- Packs ---------------------------------------------------------------

  const DEFAULT_PACK := Pack(
    "strict", "1", false, true, true, [], [], false, false, false, false, false, false, false, false)

  function PackName(q: Request, p: Packs, default: string): string {
    if q.packName != "" then q.packName else if p.envPack.Some? then p.envPack.value else default
  }

  function ReviewPack(q: Request, p: Packs): Pack {
    var name := PackName(q, p, "strict_patch_gate_v1");
    if name in p.loadable then p.loadable[name] else DEFAULT_PACK
  }

  function ProtocolPack(q: Request, p: Packs): Option<Pack> {
    var name := PackName(q, p, "single_owner_handoff_v1");
    if name in p.loadable then Some(p.loadable[name]) else None
  }

  // ---- Protocol evaluation -------------------------------------------------

  const PROTOCOL_CHECKS: seq<ProtocolEvaluator.ObligationClass> := [
    ProtocolEvaluator.HandoffLegality, ProtocolEvaluator.LockOwnership, ProtocolEvaluator.DelegationAdmissibility,
    ProtocolEvaluator.StateTransition, ProtocolEvaluator.ArtifactAdmissibility, ProtocolEvaluator.SideEffect,
    ProtocolEvaluator.EvidenceComplete ]

  /** The first enabled check that does not admit the events; evaluating it may itself raise. */
  ghost function FirstRefusal(
    checks: seq<ProtocolEvaluator.ObligationClass>, events: seq<ProtocolEvaluator.RawEvent>, pack: Pack)
    : Result<Option<Decision>, ProtocolEvaluator.Fault>
  {
    if checks == [] then Ok(None)
    else
      var r := ProtocolEvaluator.Decide(checks[0], events, pack);
      if r.Err? then Err(r.error)
      else if r.value.verdict in {Verdict.Rejected, Blocked} then Ok(Some(r.value))
      else FirstRefusal(checks[1..], events, pack)
  }

  ghost function ProtocolRefusal(q: Request, p: Packs): Result<Option<Decision>, ProtocolEvaluator.Fault> {
    if q.protocolEvents == [] || ProtocolPack(q, p).None? then Ok(None)
    else FirstRefusal(PROTOCOL_CHECKS, q.protocolEvents, ProtocolPack(q, p).value)
  }

  method RunProtocolChecks(q: Request, p: Packs) returns (r: Result<Option<Decision>, ProtocolEvaluator.Fault>)
    ensures r == ProtocolRefusal(q, p)
  {
    var events := q.protocolEvents;
    if events == [] {
      return Ok(None);
    }
    var pack := ProtocolPack(q, p);
    if pack.None? {
      return Ok(None);
    }
    for i := 0 to |PROTOCOL_CHECKS|
      invariant ProtocolRefusal(q, p) == FirstRefusal(PROTOCOL_CHECKS[i..], events, pack.value)
    {
      var check := PROTOCOL_CHECKS[i];
      if !ProtocolEvaluator.Enabled(check, pack.value) {
        continue;
      }
      var decision := ProtocolEvaluator.EvaluateProtocolObligation(check, events, pack.value);
      if decision.Err? {
        return Err(decision.error);
      }
      if decision.value.verdict in {Verdict.Rejected, Blocked} {
        return Ok(Some(decision.value));
      }
    }
    return Ok(None);
  }

  ghost function Deployed(p: Packs, glob: PolicyEngine.Matcher): Deployment {
    Deployment(q => ReviewPack(q, p), q => ProtocolRefusal(q, p), (pack, ev) => PolicyEngine.Judge(glob, pack, ev))
  }

  // ---- Nodes ---------------------------------------------------------------

  /** A node raises, or merges its update into the state and reports the status it set, if any. */
  datatype Effect = Raised | Updated(state: State, reported: Option<Status>)

  function SetStatus(st: State, status: Status): Effect {
    Updated(st.(status := status), Some(status))
  }

  predicate HasSession(st: State) {
    st.sessionId.Some? && st.sessionId.value != ""
  }

  function InitEnvironmentNode(st: State, a: Answers): Effect {
    if a.environment && a.session.Some? then SetStatus(st.(sessionId := a.session), Initialized) else Raised
  }

  function InteractiveCheckNode(st: State, a: Answers): Effect {
    if !HasSession(st) then SetStatus(st, Failed)
    else if (st.request.patch != map[] && !a.patched) || a.interactive.None? then Raised
    else SetStatus(st.(interactive := a.interactive), CheckingInteractive)
  }

  function BatchVerifyNode(st: State, a: Answers): Effect {
    if !HasSession(st) then SetStatus(st, Failed)
    else if a.batch.None? then Raised
    else
      var b := Verify(a.batch.value);
      SetStatus(st.(batch := Some(b), trust := Some(b.trust)), BatchVerifying)
  }

  ghost function EvaluateProtocolNode(st: State, d: Deployment): Effect {
    match d.refusal(st.request)
    case Err(_) => Raised
    case Ok(None) => Updated(st, None)
    case Ok(Some(refusal)) => SetStatus(st.(policy := Some(refusal)), Auditing)
  }

  ghost function PolicyEvidence(st: State): PolicyEngine.Evidence {
    var s := Summarize(map[], st.request.patch, st.request.protectedPaths);
    PolicyEngine.Evidence(st.interactive, st.batch, s.changedFiles, false, s.protectedTouched, s.importsChanged)
  }

  ghost function PolicyReviewNode(st: State, d: Deployment): Effect {
    var pack := d.reviewPack(st.request);
    if st.policy.Some? && st.policy.value.verdict in {Verdict.Rejected, Blocked} then SetStatus(st, Auditing)
    else if pack.reviewerGatedExecution && st.approval.None? then
      SetStatus(st.(policy := Some(Refuse(Blocked, "missing_approval_token"))), Auditing)
    else SetStatus(st.(policy := Some(d.engine(pack, PolicyEvidence(st)))), Auditing)
  }

  function FinalizeNode(st: State): Effect {
    SetStatus(st.(artifacts := st.artifacts + [WitnessBundle(st.request.obligationId)]), Status.Accepted)
  }

  function ResumeWithApprovalNode(st: State): Effect {
    SetStatus(st.(approvalRequired := false),
              if st.approval == Some(Reviews.Approved) then Status.Accepted else Status.Rejected)
  }

  ghost function Apply(n: Node, st: State, a: Answers, d: Deployment): Effect {
    match n
    case InitEnvironment => InitEnvironmentNode(st, a)
    case RetrieveContext => SetStatus(st, RetrievingContext)
    case DraftCandidate => SetStatus(st, Drafting)
    case InteractiveCheck => InteractiveCheckNode(st, a)
    case RepairFromDiagnostics => SetStatus(st, Repairing)
    case RepairFromGoals => SetStatus(st, Repairing)
    case BatchVerify => BatchVerifyNode(st, a)
    case AuditTrust => SetStatus(st, Auditing)
    case EvaluateProtocol => EvaluateProtocolNode(st, d)
    case PolicyReview => PolicyReviewNode(st, d)
    case InterruptForApproval => SetStatus(st.(approvalRequired := true), AwaitingApproval)
    case Finalize => FinalizeNode(st)
    case ResumeWithApproval => ResumeWithApprovalNode(st)
  }

  // ---- Routes --------------------------------------------------------------

  function RouteStart(st: State): Node {
    if st.approvalRequired && st.approval.Some? then ResumeWithApproval else InitEnvironment
  }

  predicate OpenGoals(i: Interactive) {
    exists g | g in i.goals :: g != ""
  }

  function RouteAfterInteractive(st: State): Node {
    if st.interactive.None? then BatchVerify
    else if !st.interactive.value.ok then RepairFromDiagnostics
    else if OpenGoals(st.interactive.value) then RepairFromGoals
    else BatchVerify
  }

  function RouteAfterPolicy(st: State): Option<Node> {
    if st.policy.None? then Some(Finalize)
    else match st.policy.value.verdict
      case Accepted => Some(Finalize)
      case NeedsReview => Some(InterruptForApproval)
      case _ => None
  }

  /** How far a node is from the end of the graph, at most. */
  function Rank(n: Node): nat {
    match n
    case InitEnvironment => 9
    case RetrieveContext => 8
    case DraftCandidate => 7
    case InteractiveCheck => 6
    case BatchVerify => 5
    case AuditTrust => 4
    case EvaluateProtocol => 3
    case PolicyReview | ResumeWithApproval => 2
    case _ => 1
  }

  /** The edge out of a node; `None` is the end of the graph. */
  function Next(n: Node, st: State): (next: Option<Node>)
    ensures next.Some? ==> Rank(next.value) < Rank(n)
  {
    match n
    case InitEnvironment => Some(RetrieveContext)
    case RetrieveContext => Some(DraftCandidate)
    case DraftCandidate => Some(InteractiveCheck)
    case InteractiveCheck => Some(RouteAfterInteractive(st))
    case BatchVerify => Some(AuditTrust)
    case AuditTrust => Some(EvaluateProtocol)
    case EvaluateProtocol => Some(PolicyReview)
    case PolicyReview => RouteAfterPolicy(st)
    case ResumeWithApproval => if st.approval == Some(Reviews.Approved) then Some(Finalize) else None
    case _ => None
  }

  // ---- One invocation ------------------------------------------------------

  /** What the tracing wrapper emits around each node. */
  datatype TraceEvent =
    | Enter(node: Node, status: Status) | Exit(node: Node, reported: Option<Status>) | Error(node: Node)

  datatype Run = Run(trace: seq<TraceEvent>, state: State, finished: bool)

  ghost function RunFrom(n: Node, st: State, a: Answers, d: Deployment): Run
    decreases Rank(n)
  {
    match Apply(n, st, a, d)
    case Raised => Run([Enter(n, st.status), Error(n)], st, false)
    case Updated(st', reported) =>
      var here := [Enter(n, st.status), Exit(n, reported)];
      match Next(n, st')
      case None => Run(here, st', true)
      case Some(m) =>
        var rest := RunFrom(m, st', a, d);
        Run(here + rest.trace, rest.state, rest.finished)
  }

  ghost function Invoke(st: State, a: Answers, d: Deployment): Run {
    RunFrom(RouteStart(st), st, a, d)
  }
}
