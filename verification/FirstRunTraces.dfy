/** Which nodes a thread's first run visits, what each reports, and which decision is left in its state. */
module FirstRunTraces {
  import opened Wrappers
  import opened PolicyModels
  import opened Batch
  import opened PatchMetadata
  import opened Sorting
  import opened Runtime
  import opened RuntimeProperties
  import opened FirstRuns
  import PolicyEngine
  import ProtocolEvaluator
  import Reviews

  // ---- The nodes -----------------------------------------------------------

  /** The nodes a trace enters, in order. */
  function Visited(trace: seq<TraceEvent>): seq<Node> {
    if trace == [] then [] else (if trace[0].Enter? then [trace[0].node] else []) + Visited(trace[1..])
  }

  lemma VisitLast(n: Node, st: State, a: Answers, d: Deployment)
    requires var e := Apply(n, st, a, d); e.Raised? || Next(n, e.state).None?
    ensures Visited(RunFrom(n, st, a, d).trace) == [n]
  {
    var trace := RunFrom(n, st, a, d).trace;
    assert trace[1..][1..] == [];
    assert Visited(trace[1..]) == Visited([]);
  }

  lemma VisitNext(n: Node, st: State, a: Answers, d: Deployment, m: Node, st': State)
    requires Apply(n, st, a, d).Updated? && Apply(n, st, a, d).state == st' && Next(n, st') == Some(m)
    ensures Visited(RunFrom(n, st, a, d).trace) == [n] + Visited(RunFrom(m, st', a, d).trace)
  {
    var trace, rest := RunFrom(n, st, a, d).trace, RunFrom(m, st', a, d).trace;
    assert trace == [Enter(n, st.status), Exit(n, Apply(n, st, a, d).reported)] + rest;
    assert trace[1..][1..] == rest;
    assert Visited(trace[1..]) == Visited(rest);
  }

  /** Where a verdict leads from policy review. */
  function Leads(verdict: Verdict): seq<Node> {
    match verdict
    case Accepted => [Finalize]
    case NeedsReview => [InterruptForApproval]
    case _ => []
  }

  /** The last node of a run, where there is one. */
  lemma VisitEnd(next: Option<Node>, st: State, a: Answers, d: Deployment)
    requires next.Some? ==> next.value in {Finalize, InterruptForApproval}
    ensures next.Some? ==> Visited(RunFrom(next.value, st, a, d).trace) == [next.value]
  {
    if next.Some? {
      VisitLast(next.value, st, a, d);
    }
  }

  /** From policy review on. */
  lemma ReviewPath(st: State, a: Answers, d: Deployment, s: State)
    requires Apply(PolicyReview, st, a, d).Updated? && s == Apply(PolicyReview, st, a, d).state && s.policy.Some?
    ensures Visited(RunFrom(PolicyReview, st, a, d).trace) == [PolicyReview] + Leads(s.policy.value.verdict)
  {
    var next := Next(PolicyReview, s);
    VisitEnd(next, s, a, d);
    if next.Some? {
      VisitNext(PolicyReview, st, a, d, next.value, s);
    } else {
      VisitLast(PolicyReview, st, a, d);
    }
  }

  lemma ProtocolPath(st: State, a: Answers, d: Deployment)
    requires RefusalsRefuse(d)
    ensures Visited(RunFrom(EvaluateProtocol, st, a, d).trace) ==
            [EvaluateProtocol] + match d.refusal(st.request)
                                 case Err(_) => []
                                 case Ok(Some(_)) => [PolicyReview]
                                 case Ok(None) => Visited(RunFrom(PolicyReview, st, a, d).trace)
  {
    if d.refusal(st.request).Err? {
      VisitLast(EvaluateProtocol, st, a, d);
    } else {
      var s := Apply(EvaluateProtocol, st, a, d).state;
      VisitNext(EvaluateProtocol, st, a, d, PolicyReview, s);
      if d.refusal(st.request).value.Some? {
        VisitLast(PolicyReview, s, a, d);
      }
    }
  }

  lemma AuditPath(st: State, a: Answers, d: Deployment)
    ensures Visited(RunFrom(AuditTrust, st, a, d).trace)
            == [AuditTrust] + Visited(RunFrom(EvaluateProtocol, st.(status := Auditing), a, d).trace)
  {
    VisitNext(AuditTrust, st, a, d, EvaluateProtocol, st.(status := Auditing));
  }

  /** The state after the batch check and the audit. */
  function Audited(st: State, i: BatchInputs): State {
    st.(batch := Some(Verify(i)), trust := Some(Verify(i).trust), status := Auditing)
  }

  lemma BatchPath(st: State, a: Answers, d: Deployment)
    requires HasSession(st)
    ensures Visited(RunFrom(BatchVerify, st, a, d).trace) ==
            [BatchVerify]
            + if a.batch.None? then []
              else [AuditTrust] + Visited(RunFrom(EvaluateProtocol, Audited(st, a.batch.value), a, d).trace)
  {
    if a.batch.None? {
      VisitLast(BatchVerify, st, a, d);
    } else {
      var s := BatchVerifyNode(st, a).state;
      VisitNext(BatchVerify, st, a, d, AuditTrust, s);
      AuditPath(s, a, d);
    }
  }

  /** A patch that could not be applied, or an interactive check that raised, ends the run there. */
  predicate Unanswered(q: Request, a: Answers) {
    (q.patch != map[] && !a.patched) || a.interactive.None?
  }

  lemma CheckPath(st: State, a: Answers, d: Deployment)
    requires HasSession(st)
    ensures Visited(RunFrom(InteractiveCheck, st, a, d).trace) ==
            [InteractiveCheck]
            + if Unanswered(st.request, a) then []
              else if !a.interactive.value.ok then [RepairFromDiagnostics]
              else if !NoGoals(a.interactive.value) then [RepairFromGoals]
              else
                var s := st.(interactive := a.interactive, status := CheckingInteractive);
                Visited(RunFrom(BatchVerify, s, a, d).trace)
  {
    if Unanswered(st.request, a) {
      VisitLast(InteractiveCheck, st, a, d);
    } else {
      var s := st.(interactive := a.interactive, status := CheckingInteractive);
      var m := Next(InteractiveCheck, s).value;
      VisitNext(InteractiveCheck, st, a, d, m, s);
      if m != BatchVerify {
        VisitLast(m, s, a, d);
      }
    }
  }

  lemma DraftPath(st: State, a: Answers, d: Deployment)
    ensures Visited(RunFrom(DraftCandidate, st, a, d).trace)
            == [DraftCandidate] + Visited(RunFrom(InteractiveCheck, st.(status := Drafting), a, d).trace)
  {
    VisitNext(DraftCandidate, st, a, d, InteractiveCheck, st.(status := Drafting));
  }

  lemma ContextPath(st: State, a: Answers, d: Deployment)
    ensures Visited(RunFrom(RetrieveContext, st, a, d).trace)
            == [RetrieveContext] + Visited(RunFrom(DraftCandidate, st.(status := RetrievingContext), a, d).trace)
  {
    VisitNext(RetrieveContext, st, a, d, DraftCandidate, st.(status := RetrievingContext));
  }

  lemma StartPath(q: Request, a: Answers, d: Deployment)
    requires a.environment && a.session.Some?
    ensures var s := MakeInitialState(q).(sessionId := a.session, status := Drafting);
            Visited(Invoke(MakeInitialState(q), a, d).trace)
            == [InitEnvironment, RetrieveContext, DraftCandidate] + Visited(RunFrom(InteractiveCheck, s, a, d).trace)
  {
    var st := MakeInitialState(q);
    var s := st.(sessionId := a.session);
    VisitNext(InitEnvironment, st, a, d, RetrieveContext, s);
    ContextPath(s, a, d);
    DraftPath(s.(status := RetrievingContext), a, d);
  }

  /** What a first run that ends so visits after the batch check. */
  ghost function PathAfterBatch(q: Request, p: Packs, e: Ending): seq<Node> {
    [AuditTrust, EvaluateProtocol]
    + match ProtocolRefusal(q, p)
      case Err(_) => []
      case Ok(Some(_)) => [PolicyReview]
      case Ok(None) =>
        [PolicyReview] + if e == Ends(Status.Accepted) then [Finalize]
                         else if e == Ends(AwaitingApproval) then [InterruptForApproval]
                         else []
  }

  /** And what it visits from the interactive check on. */
  ghost function PathFromCheck(q: Request, a: Answers, p: Packs, e: Ending): seq<Node> {
    [InteractiveCheck]
    + if Unanswered(q, a) then []
      else if !a.interactive.value.ok then [RepairFromDiagnostics]
      else if !NoGoals(a.interactive.value) then [RepairFromGoals]
      else [BatchVerify] + if a.batch.None? then [] else PathAfterBatch(q, p, e)
  }

  /** The nodes of a first run with a real session: it turns off only to repair, and stops only where it is decided. */
  ghost function PathOf(q: Request, a: Answers, p: Packs, e: Ending): seq<Node> {
    [InitEnvironment]
    + if !a.environment || a.session.None? then [] else [RetrieveContext, DraftCandidate] + PathFromCheck(q, a, p, e)
  }

  lemma RunStops(n: Node, st: State, a: Answers, d: Deployment)
    requires Apply(n, st, a, d).Updated? && Next(n, Apply(n, st, a, d).state).None?
    ensures RunFrom(n, st, a, d).finished && RunFrom(n, st, a, d).state == Apply(n, st, a, d).state
  {
  }

  /** Policy review's decision is kept, and the run ends where it leads. */
  lemma ReviewLeads(st: State, a: Answers, d: Deployment, s: State)
    requires Apply(PolicyReview, st, a, d).Updated? && s == Apply(PolicyReview, st, a, d).state
    requires s.policy.Some? && s.status == Auditing
    ensures var r := RunFrom(PolicyReview, st, a, d);
            r.finished && r.state.status == StatusFor(s.policy.value.verdict) && r.state.policy == s.policy
  {
    var next := Next(PolicyReview, s);
    if next.None? {
      RunStops(PolicyReview, st, a, d);
    } else {
      RunStep(PolicyReview, st, a, d);
      if next.value == Finalize {
        FinalizeEnds(s, a, d);
      } else {
        InterruptEnds(s, a, d);
      }
    }
  }

  lemma ReviewDecided(st: State, a: Answers, d: Deployment)
    ensures Apply(PolicyReview, st, a, d).Updated?
    ensures var s := Apply(PolicyReview, st, a, d).state; s.policy.Some? && s.status == Auditing
  {
  }

  lemma AfterBatch(q: Request, a: Answers, p: Packs, glob: PolicyEngine.Matcher, s: State, e: Ending)
    requires s.request == q && EndsAs(RunFrom(EvaluateProtocol, s, a, Deployed(p, glob)), e)
    ensures [AuditTrust] + Visited(RunFrom(EvaluateProtocol, s, a, Deployed(p, glob)).trace) == PathAfterBatch(q, p, e)
  {
    var d := Deployed(p, glob);
    DeployedRefuses(p, glob);
    ProtocolPath(s, a, d);
    ProtocolEnds(s, a, d);
    if ProtocolRefusal(q, p) == Ok(None) {
      ReviewDecided(s, a, d);
      ReviewPath(s, a, d, Apply(PolicyReview, s, a, d).state);
      ReviewLeads(s, a, d, Apply(PolicyReview, s, a, d).state);
    }
  }

  lemma AfterCheck(q: Request, a: Answers, p: Packs, glob: PolicyEngine.Matcher, s: State, e: Ending)
    requires s.request == q && HasSession(s) && EndsAs(RunFrom(BatchVerify, s, a, Deployed(p, glob)), e)
    ensures Visited(RunFrom(BatchVerify, s, a, Deployed(p, glob)).trace) ==
            [BatchVerify] + if a.batch.None? then [] else PathAfterBatch(q, p, e)
  {
    var d := Deployed(p, glob);
    BatchPath(s, a, d);
    BatchEnds(s, a, d);
    if a.batch.Some? {
      AfterBatch(q, a, p, glob, Audited(s, a.batch.value), e);
    }
  }

  lemma FromCheck(q: Request, a: Answers, p: Packs, glob: PolicyEngine.Matcher, s: State, e: Ending)
    requires s.request == q && HasSession(s)
    requires EndsAs(RunFrom(InteractiveCheck, s, a, Deployed(p, glob)), e)
    ensures Visited(RunFrom(InteractiveCheck, s, a, Deployed(p, glob)).trace) == PathFromCheck(q, a, p, e)
  {
    var d := Deployed(p, glob);
    CheckPath(s, a, d);
    if !Unanswered(q, a) && a.interactive.value.ok && NoGoals(a.interactive.value) {
      CheckEnds(s, a, d);
      AfterCheck(q, a, p, glob, s.(interactive := a.interactive, status := CheckingInteractive), e);
    }
  }

  /** Where a first run ends, and what was answered, says which nodes it went through. */
  lemma FirstRunPath(q: Request, a: Answers, p: Packs, glob: PolicyEngine.Matcher, e: Ending)
    requires a.session != Some("") && EndsAs(Invoke(MakeInitialState(q), a, Deployed(p, glob)), e)
    ensures Visited(Invoke(MakeInitialState(q), a, Deployed(p, glob)).trace) == PathOf(q, a, p, e)
  {
    var d := Deployed(p, glob);
    if !a.environment || a.session.None? {
      VisitLast(InitEnvironment, MakeInitialState(q), a, d);
    } else {
      StartPath(q, a, d);
      var s := ToCheck(q, a, d);
      FromCheck(q, a, p, glob, s, e);
    }
  }

  /** A resume visits one node, and on approval a second. */
  lemma ResumePath(
    thread: string, choice: Reviews.Choice, checkpoint: Option<State>, a: Answers, d: Deployment)
    ensures Visited(Invoke(MakeResumeState(thread, choice, checkpoint), a, d).trace) ==
            [ResumeWithApproval] + if choice.Approved? then [Finalize] else []
  {
    var st := MakeResumeState(thread, choice, checkpoint);
    var s := ResumeWithApprovalNode(st).state;
    if choice.Approved? {
      VisitNext(ResumeWithApproval, st, a, d, Finalize, s);
      VisitLast(Finalize, s, a, d);
    } else {
      VisitLast(ResumeWithApproval, st, a, d);
    }
  }

  // ---- What nodes report ---------------------------------------------------

  /** What a node reports on leaving, with or without a session, and with or without a refusal of the events. */
  predicate Reports(n: Node, session: bool, refused: bool, reported: Option<Status>) {
    match n
    case InitEnvironment => reported == Some(Initialized)
    case RetrieveContext => reported == Some(RetrievingContext)
    case DraftCandidate => reported == Some(Drafting)
    case InteractiveCheck => reported == Some(if session then CheckingInteractive else Failed)
    case RepairFromDiagnostics | RepairFromGoals => reported == Some(Repairing)
    case BatchVerify => reported == Some(if session then BatchVerifying else Failed)
    case EvaluateProtocol => reported == if refused then Some(Auditing) else None
    case AuditTrust | PolicyReview => reported == Some(Auditing)
    case InterruptForApproval => reported == Some(AwaitingApproval)
    case Finalize => reported == Some(Status.Accepted)
    case ResumeWithApproval => reported in {Some(Status.Accepted), Some(Status.Rejected)}
  }

  /** Whether the checks of a run from here on have a session. */
  predicate SessionAhead(n: Node, st: State, a: Answers) {
    if n == InitEnvironment then a.session != Some("") else HasSession(st)
  }

  lemma SessionStays(n: Node, st: State, a: Answers, d: Deployment)
    requires Apply(n, st, a, d).Updated? && Next(n, Apply(n, st, a, d).state).Some?
    ensures var s := Apply(n, st, a, d).state;
            s.request == st.request && SessionAhead(Next(n, s).value, s, a) == SessionAhead(n, st, a)
  {
  }

  lemma {:induction false} RunReports(n: Node, st: State, a: Answers, d: Deployment, e: TraceEvent)
    requires e in RunFrom(n, st, a, d).trace && e.Exit?
    ensures Reports(e.node, SessionAhead(n, st, a), d.refusal(st.request) != Ok(None), e.reported)
    decreases Rank(n)
  {
    var f := Apply(n, st, a, d);
    if f.Updated? {
      assert Reports(n, SessionAhead(n, st, a), d.refusal(st.request) != Ok(None), f.reported);
      if Next(n, f.state).Some? && e != Exit(n, f.reported) {
        SessionStays(n, st, a, d);
        RunReports(Next(n, f.state).value, f.state, a, d, e);
      }
    }
  }

  // ---- The decision --------------------------------------------------------

  /** The evidence of a first run, field by field: both answers, the patch's own keys in order, and no trust delta. */
  lemma GatheredFields(q: Request, a: Answers)
    requires a.batch.Some?
    ensures var ev := Gathered(q, a);
            && ev.interactive == a.interactive && ev.batch == Some(Verify(a.batch.value)) && !ev.trustDelta
            && SortedListOf(ev.changedFiles, q.patch.Keys)
            && SortedListOf(ev.protectedTouched, set f | f in q.patch && f in q.protectedPaths)
            && (ev.importsChanged <==> exists f :: f in q.patch && Imports(q.patch[f]))
  {
    SummaryMeaning(map[], q.patch, q.protectedPaths);
    SummaryOrder(map[], q.patch, q.protectedPaths);
    GateShows(q);
    forall f | f in q.patch {
      ContainsMeaning(q.patch[f], "import ");
    }
  }

  /** The decision a run that reaches policy review leaves in its state. */
  ghost predicate Decides(q: Request, a: Answers, p: Packs, glob: PolicyEngine.Matcher, policy: Option<Decision>)
    requires a.batch.Some?
  {
    match ProtocolRefusal(q, p)
    case Err(_) => policy == None
    case Ok(Some(refusal)) => policy == Some(refusal)
    case Ok(None) =>
      if ReviewPack(q, p).reviewerGatedExecution then
        policy == Some(Decision(Blocked, TrustBlocked, ["missing_approval_token"], "", "", []))
      else policy == Some(PolicyEngine.Judge(glob, ReviewPack(q, p), Gathered(q, a)))
  }

  /** A state at protocol evaluation of a first run, with both answers. */
  predicate Checked(q: Request, a: Answers, s: State)
    requires a.batch.Some?
  {
    && s.request == q && s.policy.None? && s.approval.None?
    && s.interactive == a.interactive && s.batch == Some(Verify(a.batch.value))
  }

  lemma ReviewDecides(q: Request, a: Answers, p: Packs, glob: PolicyEngine.Matcher, s: State)
    requires a.batch.Some? && Checked(q, a, s) && ProtocolRefusal(q, p) == Ok(None)
    ensures Decides(q, a, p, glob, RunFrom(PolicyReview, s, a, Deployed(p, glob)).state.policy)
  {
    ReviewDecided(s, a, Deployed(p, glob));
    ReviewLeads(s, a, Deployed(p, glob), Apply(PolicyReview, s, a, Deployed(p, glob)).state);
    assert PolicyEvidence(s) == Gathered(q, a);
  }

  /** The decision made from protocol evaluation on is kept to the end of the run. */
  lemma DecisionFrom(q: Request, a: Answers, p: Packs, glob: PolicyEngine.Matcher, s: State)
    requires a.batch.Some? && Checked(q, a, s)
    ensures Decides(q, a, p, glob, RunFrom(EvaluateProtocol, s, a, Deployed(p, glob)).state.policy)
  {
    var d := Deployed(p, glob);
    var refusal := ProtocolRefusal(q, p);
    if refusal.Ok? {
      RunStep(EvaluateProtocol, s, a, d);
      if refusal.value.Some? {
        DeployedRefuses(p, glob);
        RefusedStops(s.(policy := refusal.value, status := Auditing), a, d);
      } else {
        ReviewDecides(q, a, p, glob, s);
      }
    }
  }

  /**
   * A first run whose checks answer leaves the decision that decided it: the protocol's refusal, else the reviewer's
   * gate, else the engine's.
   */
  lemma FirstRunDecision(q: Request, a: Answers, p: Packs, glob: PolicyEngine.Matcher)
    requires GoodAnswers(q, a)
    ensures Decides(q, a, p, glob, Invoke(MakeInitialState(q), a, Deployed(p, glob)).state.policy)
  {
    var d := Deployed(p, glob);
    var s := ToCheck(q, a, d);
    CheckEnds(s, a, d);
    s := s.(interactive := a.interactive, status := CheckingInteractive);
    BatchEnds(s, a, d);
    DecisionFrom(q, a, p, glob, Audited(s, a.batch.value));
  }
}
