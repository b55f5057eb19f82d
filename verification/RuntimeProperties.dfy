/** What one invocation of the graph can do, whatever the gateway answers. */
module RuntimeProperties {
  import opened Wrappers
  import opened PolicyModels
  import opened Batch
  import opened PatchMetadata
  import opened Runtime
  import PolicyEngine
  import ProtocolEvaluator
  import Reviews

  // ---- Ending --------------------------------------------------------------

  /** Every node enters and then exits; only the last one may end in an error instead. */
  ghost predicate Balanced(trace: seq<TraceEvent>, finished: bool)
    decreases |trace|
  {
    && |trace| >= 2 && trace[0].Enter? && trace[1].node == trace[0].node
    && if |trace| == 2 then (if finished then trace[1].Exit? else trace[1].Error?)
       else trace[1].Exit? && Balanced(trace[2..], finished)
  }

  /** Every invocation ends, within nine nodes: each is entered and left once, and only the last can fail. */
  lemma {:induction false} RunIsShort(n: Node, st: State, a: Answers, d: Deployment)
    ensures var r := RunFrom(n, st, a, d); |r.trace| <= 2 * Rank(n) <= 18 && Balanced(r.trace, r.finished)
    decreases Rank(n)
  {
    var e := Apply(n, st, a, d);
    if e.Updated? && Next(n, e.state).Some? {
      var m := Next(n, e.state).value;
      RunIsShort(m, e.state, a, d);
      assert RunFrom(n, st, a, d).trace[2..] == RunFrom(m, e.state, a, d).trace;
    }
  }

  /** A run that no call aborts ends in one of five statuses. */
  lemma {:induction false} RunEnds(n: Node, st: State, a: Answers, d: Deployment)
    requires RunFrom(n, st, a, d).finished
    ensures RunFrom(n, st, a, d).state.status
            in {Status.Accepted, Auditing, AwaitingApproval, Repairing, Status.Rejected}
    decreases Rank(n)
  {
    var e := Apply(n, st, a, d);
    if Next(n, e.state).Some? {
      RunEnds(Next(n, e.state).value, e.state, a, d);
    }
  }

  /** A run's artifacts grow by exactly one witness bundle if it ends accepted, and not at all otherwise. */
  lemma {:induction false} WitnessIffAccepted(n: Node, st: State, a: Answers, d: Deployment)
    ensures var r := RunFrom(n, st, a, d);
            r.state.artifacts
            == st.artifacts + if r.finished && r.state.status == Status.Accepted
                              then [WitnessBundle(st.request.obligationId)] else []
    decreases Rank(n)
  {
    var e := Apply(n, st, a, d);
    if e.Updated? && Next(n, e.state).Some? {
      WitnessIffAccepted(Next(n, e.state).value, e.state, a, d);
    }
  }

  /** The branch that finalizes without any policy decision is never taken. */
  lemma PolicyAlwaysDecides(st: State, a: Answers, d: Deployment)
    ensures Apply(PolicyReview, st, a, d).Updated? && Apply(PolicyReview, st, a, d).state.policy.Some?
  {
  }

  // ---- Getting past policy review ------------------------------------------

  /** The nodes that lead to policy review. */
  predicate Upstream(n: Node) {
    Rank(n) >= 3
  }

  /** The ways an invocation gets a patch past policy review: accepted outright, or waiting for a human. */
  ghost predicate Passed(r: Run) {
    r.finished && r.state.status in {Status.Accepted, AwaitingApproval}
  }

  /** Upstream of policy review, a node leads to the next one, or to a repair. */
  lemma UpstreamNext(n: Node, st: State, a: Answers, d: Deployment)
    requires Upstream(n) && Apply(n, st, a, d).Updated?
    ensures var s := Apply(n, st, a, d).state;
            && s.request == st.request && s.approval == st.approval && Next(n, s).Some?
            && (|| Next(n, s).value in {RepairFromDiagnostics, RepairFromGoals}
                || (&& Rank(Next(n, s).value) == Rank(n) - 1
                    && (Upstream(Next(n, s).value) || Next(n, s).value == PolicyReview)))
  {
  }

  lemma RunStep(n: Node, st: State, a: Answers, d: Deployment)
    requires Apply(n, st, a, d).Updated? && Next(n, Apply(n, st, a, d).state).Some?
    ensures var s := Apply(n, st, a, d).state;
            var r, rest := RunFrom(n, st, a, d), RunFrom(Next(n, s).value, s, a, d);
            r.state == rest.state && r.finished == rest.finished
  {
  }

  lemma RepairEnds(n: Node, st: State, a: Answers, d: Deployment)
    requires n in {RepairFromDiagnostics, RepairFromGoals}
    ensures RunFrom(n, st, a, d).finished && RunFrom(n, st, a, d).state == st.(status := Repairing)
  {
  }

  lemma FinalizeEnds(st: State, a: Answers, d: Deployment)
    ensures var r := RunFrom(Finalize, st, a, d);
            && r.finished
            && r.state == st.(status := Status.Accepted,
                              artifacts := st.artifacts + [WitnessBundle(st.request.obligationId)])
  {
  }

  lemma InterruptEnds(st: State, a: Answers, d: Deployment)
    ensures var r := RunFrom(InterruptForApproval, st, a, d);
            r.finished && r.state == st.(approvalRequired := true, status := AwaitingApproval)
  {
  }

  /** A run that passes goes from a node upstream of policy review to the next one, and on to policy review. */
  lemma UpstreamStep(n: Node, st: State, a: Answers, d: Deployment)
    requires Upstream(n) && Passed(RunFrom(n, st, a, d))
    ensures Apply(n, st, a, d).Updated?
    ensures var s := Apply(n, st, a, d).state;
            && s.request == st.request && s.approval == st.approval
            && Next(n, s).Some? && Rank(Next(n, s).value) == Rank(n) - 1
            && (Upstream(Next(n, s).value) || Next(n, s).value == PolicyReview)
            && Passed(RunFrom(Next(n, s).value, s, a, d))
            && RunFrom(n, st, a, d).state == RunFrom(Next(n, s).value, s, a, d).state
  {
    UpstreamNext(n, st, a, d);
    RunStep(n, st, a, d);
    var s := Apply(n, st, a, d).state;
    if Next(n, s).value in {RepairFromDiagnostics, RepairFromGoals} {
      RepairEnds(Next(n, s).value, s, a, d);
    }
  }

  /** Policy review leads on only with the engine's own decision, and changes nothing else. */
  lemma ReviewNode(st: State, a: Answers, d: Deployment)
    requires Next(PolicyReview, Apply(PolicyReview, st, a, d).state).Some?
    ensures var s := Apply(PolicyReview, st, a, d).state;
            var m := Next(PolicyReview, s).value;
            var verdict := d.engine(d.reviewPack(st.request), PolicyEvidence(st)).verdict;
            && (d.reviewPack(st.request).reviewerGatedExecution ==> st.approval.Some?)
            && s == st.(status := Auditing, policy := Some(d.engine(d.reviewPack(st.request), PolicyEvidence(st))))
            && (|| (m == Finalize && verdict == Verdict.Accepted)
                || (m == InterruptForApproval && verdict == NeedsReview))
  {
  }

  /** At policy review it passes when the engine accepts or asks for a human, and keeps all its evidence. */
  lemma ReviewStep(st: State, a: Answers, d: Deployment)
    requires Passed(RunFrom(PolicyReview, st, a, d))
    ensures var r := RunFrom(PolicyReview, st, a, d).state;
            && (d.reviewPack(st.request).reviewerGatedExecution ==> st.approval.Some?)
            && r.policy == Some(d.engine(d.reviewPack(st.request), PolicyEvidence(st)))
            && r.policy.value.verdict == (if r.status == Status.Accepted then Verdict.Accepted else NeedsReview)
            && r.request == st.request && r.interactive == st.interactive && r.batch == st.batch
            && r.sessionId == st.sessionId && r.trust == st.trust
            && r.approvalRequired == (st.approvalRequired || r.status == AwaitingApproval)
  {
    var s := Apply(PolicyReview, st, a, d).state;
    if Next(PolicyReview, s).Some? {
      ReviewNode(st, a, d);
      RunStep(PolicyReview, st, a, d);
      if Next(PolicyReview, s).value == InterruptForApproval {
        InterruptEnds(s, a, d);
      } else {
        FinalizeEnds(s, a, d);
      }
    }
  }

  /** A run that passes ends with the engine's decision on the evidence it ends with, and that says how it passed. */
  lemma {:induction false} PassedWithDecision(n: Node, st: State, a: Answers, d: Deployment)
    requires (Upstream(n) || n == PolicyReview) && Passed(RunFrom(n, st, a, d))
    ensures var r := RunFrom(n, st, a, d).state;
            && r.request == st.request
            && r.policy == Some(d.engine(d.reviewPack(st.request), PolicyEvidence(r)))
            && r.policy.value.verdict == (if r.status == Status.Accepted then Verdict.Accepted else NeedsReview)
    decreases Rank(n)
  {
    if n == PolicyReview {
      ReviewStep(st, a, d);
    } else {
      UpstreamStep(n, st, a, d);
      var s := Apply(n, st, a, d).state;
      PassedWithDecision(Next(n, s).value, s, a, d);
    }
  }

  /** A reviewer-gated pack lets a run pass only when it already carries a human decision. */
  lemma {:induction false} PassedGate(n: Node, st: State, a: Answers, d: Deployment)
    requires (Upstream(n) || n == PolicyReview) && Passed(RunFrom(n, st, a, d))
    ensures d.reviewPack(st.request).reviewerGatedExecution ==> st.approval.Some?
    decreases Rank(n)
  {
    if n == PolicyReview {
      ReviewStep(st, a, d);
    } else {
      UpstreamStep(n, st, a, d);
      var s := Apply(n, st, a, d).state;
      PassedGate(Next(n, s).value, s, a, d);
    }
  }

  /** The protocol checks only ever refuse with a rejection or a block. */
  ghost predicate RefusalsRefuse(d: Deployment) {
    forall q :: d.refusal(q).Ok? && d.refusal(q).value.Some? ==>
                  d.refusal(q).value.value.verdict in {Verdict.Rejected, Blocked}
  }

  lemma ProtocolStep(st: State, a: Answers, d: Deployment)
    requires RefusalsRefuse(d) && Passed(RunFrom(EvaluateProtocol, st, a, d))
    ensures d.refusal(st.request) == Ok(None)
  {
    if d.refusal(st.request).Ok? && d.refusal(st.request).value.Some? {
      RefusedStops(Apply(EvaluateProtocol, st, a, d).state, a, d);
    }
  }

  /** Policy review leaves a decision that already refuses as it is, and the run ends there. */
  lemma RefusedStops(st: State, a: Answers, d: Deployment)
    requires st.policy.Some? && st.policy.value.verdict in {Verdict.Rejected, Blocked}
    ensures RunFrom(PolicyReview, st, a, d).finished && RunFrom(PolicyReview, st, a, d).state == st.(status := Auditing)
  {
    assert Next(PolicyReview, st.(status := Auditing)) == None;
  }

  /** A protocol violation found on the way stops the run. */
  lemma {:induction false} PassedByProtocol(n: Node, st: State, a: Answers, d: Deployment)
    requires RefusalsRefuse(d) && Upstream(n) && Passed(RunFrom(n, st, a, d))
    ensures d.refusal(st.request) == Ok(None)
    decreases Rank(n)
  {
    UpstreamStep(n, st, a, d);
    var s := Apply(n, st, a, d).state;
    if n == EvaluateProtocol {
      ProtocolStep(st, a, d);
    } else {
      PassedByProtocol(Next(n, s).value, s, a, d);
    }
  }

  lemma DeployedRefuses(p: Packs, glob: PolicyEngine.Matcher)
    ensures RefusalsRefuse(Deployed(p, glob))
  {
    forall q
      ensures var r := ProtocolRefusal(q, p);
              r.Ok? && r.value.Some? ==> r.value.value.verdict in {Verdict.Rejected, Blocked}
    {
      if ProtocolPack(q, p).Some? {
        RefusalRefuses(PROTOCOL_CHECKS, q.protocolEvents, ProtocolPack(q, p).value);
      }
    }
  }

  lemma {:induction false} RefusalRefuses(
    checks: seq<ProtocolEvaluator.ObligationClass>, events: seq<ProtocolEvaluator.RawEvent>, pack: Pack)
    ensures var r := FirstRefusal(checks, events, pack);
            r.Ok? && r.value.Some? ==> r.value.value.verdict in {Verdict.Rejected, Blocked}
  {
    if checks != [] {
      RefusalRefuses(checks[1..], events, pack);
    }
  }

  // ---- The checks of a run that passes -------------------------------------

  /** No goal has a text. */
  predicate NoGoals(answer: Interactive) {
    forall g | g in answer.goals :: g == ""
  }

  /** The interactive answer was ok: no open goals and no error diagnostics. */
  ghost predicate InteractiveOk(answer: Option<Interactive>) {
    && answer.Some? && answer.value.ok && NoGoals(answer.value) && PolicyEngine.Error !in answer.value.diagnostics
  }

  /** Build, audit and fresh check were ok, with no axiom block reasons, and real evidence when strict. */
  ghost predicate BatchOk(answer: Option<BatchInputs>) {
    && answer.Some?
    && var i := answer.value;
       && i.build.ok && i.audit.ok && i.checker.ok && i.audit.trust != TrustBlocked && i.audit.blockedReasons == []
       && (i.strictRequested || i.production ==> i.axiomReal && i.freshReal)
  }

  /** With a session, the two checks ran and their answers are what the final state carries. */
  lemma {:induction false} PassedWithSession(n: Node, st: State, a: Answers, d: Deployment)
    requires (Upstream(n) || n == PolicyReview) && Passed(RunFrom(n, st, a, d))
    requires if n == InitEnvironment then a.session != Some("") else HasSession(st)
    ensures var r := RunFrom(n, st, a, d).state;
            && (if Rank(n) >= 6 then r.interactive == a.interactive && a.interactive.Some?
                else r.interactive == st.interactive)
            && (if Rank(n) >= 5 then a.batch.Some? && r.batch == Some(Verify(a.batch.value)) else r.batch == st.batch)
            && r.trust == (if Rank(n) >= 5 then Some(r.batch.value.trust) else st.trust)
            && r.sessionId == (if n == InitEnvironment then a.session else st.sessionId)
            && (n == InitEnvironment ==> a.environment)
            && (Rank(n) >= 6 && st.request.patch != map[] ==> a.patched)
            && (Rank(n) >= 6 ==> a.interactive.value.ok && NoGoals(a.interactive.value))
    decreases Rank(n)
  {
    if n == PolicyReview {
      ReviewStep(st, a, d);
    } else {
      UpstreamStep(n, st, a, d);
      var s := Apply(n, st, a, d).state;
      PassedWithSession(Next(n, s).value, s, a, d);
    }
  }

  /** Without one they are skipped, and whatever evidence the state started with is what policy sees. */
  lemma {:induction false} PassedWithoutSession(n: Node, st: State, a: Answers, d: Deployment)
    requires (Upstream(n) || n == PolicyReview) && Passed(RunFrom(n, st, a, d))
    requires if n == InitEnvironment then a.session == Some("") else !HasSession(st)
    ensures var r := RunFrom(n, st, a, d).state; r.interactive == st.interactive && r.batch == st.batch
    decreases Rank(n)
  {
    if n == PolicyReview {
      ReviewStep(st, a, d);
    } else {
      UpstreamStep(n, st, a, d);
      var s := Apply(n, st, a, d).state;
      PassedWithoutSession(Next(n, s).value, s, a, d);
    }
  }

  /** A thread's first run passes only with both checks in order, exactly when it was given a real session. */
  lemma FreshRunChecked(
    q: Request, a: Answers, p: Packs, glob: PolicyEngine.Matcher)
    requires Passed(Invoke(MakeInitialState(q), a, Deployed(p, glob)))
    ensures a.session.Some?
    ensures a.session.value != "" <==> Invoke(MakeInitialState(q), a, Deployed(p, glob)).state.batch.Some?
    ensures a.session.value != "" ==> InteractiveOk(a.interactive) && BatchOk(a.batch)
  {
    var st, d := MakeInitialState(q), Deployed(p, glob);
    PassedWithDecision(InitEnvironment, st, a, d);
    if a.session != Some("") {
      PassedWithSession(InitEnvironment, st, a, d);
      PolicyEngine.AdmittedEvidence(glob, ReviewPack(q, p), PolicyEvidence(RunFrom(InitEnvironment, st, a, d).state));
    } else {
      PassedWithoutSession(InitEnvironment, st, a, d);
    }
  }

  // ---- What a first run comes to -------------------------------------------

  /** No call raises, the session is real, the interactive check is ok without open goals, and the batch answers. */
  ghost predicate GoodAnswers(q: Request, a: Answers) {
    && a.environment && a.session.Some? && a.session.value != "" && (q.patch != map[] ==> a.patched)
    && a.interactive.Some? && a.interactive.value.ok && NoGoals(a.interactive.value) && a.batch.Some?
  }

  /** With good answers and no protocol refusal a run reaches policy review with all its evidence. */
  lemma {:induction false} RunReachesPolicy(n: Node, st: State, a: Answers, d: Deployment) returns (s: State)
    requires Upstream(n) && GoodAnswers(st.request, a) && d.refusal(st.request) == Ok(None)
    requires n != InitEnvironment ==> HasSession(st)
    ensures s.request == st.request && s.policy == st.policy && s.approval == st.approval
    ensures s.interactive == if Rank(n) >= 6 then a.interactive else st.interactive
    ensures s.batch == if Rank(n) >= 5 then Some(Verify(a.batch.value)) else st.batch
    ensures RunFrom(n, st, a, d).state == RunFrom(PolicyReview, s, a, d).state
    ensures RunFrom(n, st, a, d).finished == RunFrom(PolicyReview, s, a, d).finished
    decreases Rank(n)
  {
    GoodNext(n, st, a, d);
    RunStep(n, st, a, d);
    s := Apply(n, st, a, d).state;
    if n != EvaluateProtocol {
      s := RunReachesPolicy(Next(n, s).value, s, a, d);
    }
  }

  lemma GoodNext(n: Node, st: State, a: Answers, d: Deployment)
    requires Upstream(n) && GoodAnswers(st.request, a) && d.refusal(st.request) == Ok(None)
    requires n != InitEnvironment ==> HasSession(st)
    ensures Apply(n, st, a, d).Updated?
    ensures var s := Apply(n, st, a, d).state;
            && s.request == st.request && s.policy == st.policy && s.approval == st.approval && HasSession(s)
            && s.interactive == (if n == InteractiveCheck then a.interactive else st.interactive)
            && s.batch == (if n == BatchVerify then Some(Verify(a.batch.value)) else st.batch)
            && Next(n, s).Some? && Rank(Next(n, s).value) == Rank(n) - 1
            && (if n == EvaluateProtocol then Next(n, s).value == PolicyReview else Upstream(Next(n, s).value))
  {
  }

  /** What policy review decides on after a run with good answers. */
  ghost function Gathered(q: Request, a: Answers): PolicyEngine.Evidence
    requires a.batch.Some?
  {
    PolicyEvidence(MakeInitialState(q).(interactive := a.interactive, batch := Some(Verify(a.batch.value))))
  }

  function StatusFor(verdict: Verdict): Status {
    match verdict
    case Accepted => Status.Accepted
    case NeedsReview => AwaitingApproval
    case _ => Auditing
  }

  /** With good answers, no protocol refusal and no reviewer gate, a first run ends as the engine decides. */
  lemma FirstRunOutcome(q: Request, a: Answers, d: Deployment)
    requires GoodAnswers(q, a) && d.refusal(q) == Ok(None) && !d.reviewPack(q).reviewerGatedExecution
    ensures var r := Invoke(MakeInitialState(q), a, d);
            r.finished && r.state.status == StatusFor(d.engine(d.reviewPack(q), Gathered(q, a)).verdict)
  {
    var s := RunReachesPolicy(InitEnvironment, MakeInitialState(q), a, d);
    assert PolicyEvidence(s) == Gathered(q, a);
    ReviewOutcome(s, a, d);
  }

  /** Nothing but the engine's rules stands in the way of a first run. */
  ghost predicate InOrder(q: Request, a: Answers, p: Packs) {
    GoodAnswers(q, a) && ProtocolRefusal(q, p) == Ok(None) && !ReviewPack(q, p).reviewerGatedExecution
  }

  lemma ReviewOutcome(st: State, a: Answers, d: Deployment)
    requires st.policy.None? && !d.reviewPack(st.request).reviewerGatedExecution
    ensures var r := RunFrom(PolicyReview, st, a, d);
            r.finished && r.state.status == StatusFor(d.engine(d.reviewPack(st.request), PolicyEvidence(st)).verdict)
  {
    var s := Apply(PolicyReview, st, a, d).state;
    if Next(PolicyReview, s).Some? {
      RunStep(PolicyReview, st, a, d);
      if Next(PolicyReview, s).value == InterruptForApproval {
        InterruptEnds(s, a, d);
      } else {
        FinalizeEnds(s, a, d);
      }
    }
  }

  /** Answers that pass every check there is, with real evidence under strict acceptance. */
  const GOOD_ANSWERS := Answers(
    true, Some("session"), true, Some(PolicyEngine.Interactive(true, [], [])),
    Some(BatchInputs(Build(true), Audit(true, Clean, []), Checker(true), true, true, true, true)), true)

  /**
   * Given a real session, a first run is accepted exactly when no call raises, both checks answer in order, the
   * events are not refused, no reviewer gate is set, and nothing in the engine's rules stands in the way.
   */
  lemma FirstRunAcceptedIff(q: Request, a: Answers, p: Packs, glob: PolicyEngine.Matcher)
    requires a.session != Some("")
    ensures var r := Invoke(MakeInitialState(q), a, Deployed(p, glob));
            r.finished && r.state.status == Status.Accepted <==>
            InOrder(q, a, p) && PolicyEngine.Clear(glob, ReviewPack(q, p), Gathered(q, a))
  {
    var st, d := MakeInitialState(q), Deployed(p, glob);
    if Passed(Invoke(st, a, d)) {
      PassedWithSession(InitEnvironment, st, a, d);
      DeployedRefuses(p, glob);
      PassedByProtocol(InitEnvironment, st, a, d);
      PassedGate(InitEnvironment, st, a, d);
    }
    if InOrder(q, a, p) {
      FirstRunOutcome(q, a, d);
      PolicyEngine.AcceptedIffClear(glob, ReviewPack(q, p), Gathered(q, a));
    }
  }

  /** With an empty session id neither check runs, and policy review sees no evidence at all. */
  lemma {:induction false} EmptySessionRun(n: Node, st: State, a: Answers, d: Deployment)
    requires a.environment && a.session == Some("") && d.refusal(st.request) == Ok(None)
    requires Upstream(n) && (n != InitEnvironment ==> st.sessionId == Some("")) && st.interactive.None?
    ensures exists s: State ::
              && s == st.(sessionId := Some(""), status := s.status)
              && RunFrom(n, st, a, d).state == RunFrom(PolicyReview, s, a, d).state
    decreases Rank(n)
  {
    var e := Apply(n, st, a, d);
    var m := Next(n, e.state).value;
    if m == PolicyReview {
      assert e.state == st.(sessionId := Some(""), status := e.state.status);
    } else {
      EmptySessionRun(m, e.state, a, d);
    }
  }

  /** So a run can be accepted although nothing was checked. */
  lemma EmptySessionSkipsChecks(glob: PolicyEngine.Matcher)
    ensures var q := Request("t", "o", [], map[], [], "");
            var a := Answers(true, Some(""), true, None, None, true);
            var r := Invoke(MakeInitialState(q), a, Deployed(Packs(map[], None), glob)).state;
            r.status == Status.Accepted && r.interactive.None? && r.batch.None?
  {
    var q := Request("t", "o", [], map[], [], "");
    var (a, d) := (Answers(true, Some(""), true, None, None, true), Deployed(Packs(map[], None), glob));
    EmptySessionRun(InitEnvironment, MakeInitialState(q), a, d);
    var s: State :| s == MakeInitialState(q).(sessionId := Some(""), status := s.status)
             && RunFrom(InitEnvironment, MakeInitialState(q), a, d).state == RunFrom(PolicyReview, s, a, d).state;
    NothingSummarized(s);
    PolicyEngine.AcceptedIffClear(glob, DEFAULT_PACK, PolicyEvidence(s));
    EngineAccepts(s, a, d);
  }

  lemma EngineAccepts(st: State, a: Answers, d: Deployment)
    requires st.policy.None? && !d.reviewPack(st.request).reviewerGatedExecution
    requires d.engine(d.reviewPack(st.request), PolicyEvidence(st)).verdict == Verdict.Accepted
    ensures var r := RunFrom(PolicyReview, st, a, d).state;
            r.status == Status.Accepted && r.interactive == st.interactive && r.batch == st.batch
  {
  }

  lemma NothingSummarized(st: State)
    requires st.request.patch == map[]
    ensures var ev := PolicyEvidence(st); ev.changedFiles == [] && ev.protectedTouched == [] && !ev.importsChanged
  {
    SummaryMeaning(map[], st.request.patch, st.request.protectedPaths);
    var s := Summarize(map[], st.request.patch, st.request.protectedPaths);
    HasMember(s.changedFiles);
    HasMember(s.protectedTouched);
  }

  lemma HasMember(s: seq<string>)
    ensures s == [] || exists p :: p in s
  {
    assert s == [] || s[0] in s;
  }

  // ---- What always goes to a human -----------------------------------------

  ghost predicate TouchesProtected(q: Request) {
    exists p :: p in q.patch && p in q.protectedPaths
  }

  /** The new text of some patched file contains the word the gate looks for, whatever the file held before. */
  ghost predicate WritesImport(q: Request) {
    exists p :: p in q.patch && Contains(q.patch[p], "import ")
  }

  /**
   * A run from the start whose patch names a protected path, or writes an import under a pack that gates them, never
   * ends accepted.
   */
  lemma GatedPatchNeverAccepted(
    st: State, a: Answers, p: Packs, glob: PolicyEngine.Matcher)
    requires
      || TouchesProtected(st.request)
      || (WritesImport(st.request) && ReviewPack(st.request, p).requireHumanIfImportsChange)
    requires RunFrom(InitEnvironment, st, a, Deployed(p, glob)).finished
    ensures RunFrom(InitEnvironment, st, a, Deployed(p, glob)).state.status != Status.Accepted
  {
    var d := Deployed(p, glob);
    var r, q := RunFrom(InitEnvironment, st, a, d).state, st.request;
    if r.status == Status.Accepted {
      PassedWithDecision(InitEnvironment, st, a, d);
      PolicyEngine.AcceptedIffClear(glob, ReviewPack(q, p), PolicyEvidence(r));
      GateShows(q);
    }
  }

  lemma GateShows(q: Request)
    ensures var s := Summarize(map[], q.patch, q.protectedPaths);
            && (s.protectedTouched == [] <==> !TouchesProtected(q))
            && (s.importsChanged <==> WritesImport(q))
  {
    var s := Summarize(map[], q.patch, q.protectedPaths);
    SummaryMeaning(map[], q.patch, q.protectedPaths);
    HasMember(s.protectedTouched);
    if p :| p in q.patch && p in q.protectedPaths {
      assert p in s.protectedTouched;
    }
    assert !Contains("", "import ");
    forall p | p in q.patch
      ensures TouchesImports(map[], q.patch, p) <==> Contains(q.patch[p], "import ")
    {
      assert TextOf(map[], p) == "" && TextOf(q.patch, p) == q.patch[p];
    }
  }

  /**
   * A request's own pack name goes before the environment's, and that before the default; when the one that counts
   * does not load, the built-in strict pack reviews instead, so a patch that writes an import is still not accepted.
   */
  lemma UnloadablePackStillGates(q: Request, a: Answers, p: Packs, glob: PolicyEngine.Matcher)
    requires q.packName != "" ==> q.packName !in p.loadable
    requires q.packName == "" && p.envPack.Some? ==> p.envPack.value !in p.loadable
    requires q.packName == "" && p.envPack.None? ==> "strict_patch_gate_v1" !in p.loadable
    requires WritesImport(q) && Invoke(MakeInitialState(q), a, Deployed(p, glob)).finished
    ensures Invoke(MakeInitialState(q), a, Deployed(p, glob)).state.status != Status.Accepted
  {
    assert ReviewPack(q, p) == DEFAULT_PACK;
    GatedPatchNeverAccepted(MakeInitialState(q), a, p, glob);
  }

  /** But the protocol checks are then skipped: they refuse events only under a pack that loads and enables a check. */
  lemma UnloadablePackSkipsProtocol(q: Request, p: Packs)
    ensures ProtocolRefusal(q, p) != Ok(None) ==>
              && q.protocolEvents != []
              && PackName(q, p, "single_owner_handoff_v1") in p.loadable
              && var pack := p.loadable[PackName(q, p, "single_owner_handoff_v1")];
                 exists check :: check in PROTOCOL_CHECKS && ProtocolEvaluator.Enabled(check, pack)
  {
    if ProtocolPack(q, p).Some? && ProtocolRefusal(q, p) != Ok(None) {
      RefusedByEnabled(PROTOCOL_CHECKS, q.protocolEvents, ProtocolPack(q, p).value);
    }
  }

  lemma {:induction false} RefusedByEnabled(
    checks: seq<ProtocolEvaluator.ObligationClass>, events: seq<ProtocolEvaluator.RawEvent>, pack: Pack)
    requires FirstRefusal(checks, events, pack) != Ok(None)
    ensures exists check :: check in checks && ProtocolEvaluator.Enabled(check, pack)
  {
    if ProtocolEvaluator.Enabled(checks[0], pack) {
      assert checks[0] in checks;
    } else {
      RefusedByEnabled(checks[1..], events, pack);
      var check :| check in checks[1..] && ProtocolEvaluator.Enabled(check, pack);
      assert check in checks;
    }
  }

  /** A reviewer-gated pack blocks every first run before a review exists: such a thread can never pass. */
  lemma ReviewerGatedNeverPasses(q: Request, a: Answers, p: Packs, glob: PolicyEngine.Matcher)
    requires ReviewPack(q, p).reviewerGatedExecution
    ensures !Passed(Invoke(MakeInitialState(q), a, Deployed(p, glob)))
  {
    var d := Deployed(p, glob);
    if Passed(Invoke(MakeInitialState(q), a, d)) {
      PassedGate(InitEnvironment, MakeInitialState(q), a, d);
    }
  }

  /** Events that violate an enabled protocol check are never accepted and never sent for review. */
  lemma ProtocolViolationNeverPasses(q: Request, a: Answers, p: Packs, glob: PolicyEngine.Matcher)
    requires ProtocolRefusal(q, p) != Ok(None)
    ensures !Passed(Invoke(MakeInitialState(q), a, Deployed(p, glob)))
  {
    var d := Deployed(p, glob);
    DeployedRefuses(p, glob);
    if Passed(Invoke(MakeInitialState(q), a, d)) {
      PassedByProtocol(InitEnvironment, MakeInitialState(q), a, d);
    }
  }

  // ---- Resuming ------------------------------------------------------------

  /** A resumed run does what the human decided, and adds a witness only on approval. */
  lemma ResumeFollowsDecision(
    thread: string, choice: Reviews.Choice, checkpoint: Option<State>, a: Answers, d: Deployment)
    ensures var r := Invoke(MakeResumeState(thread, choice, checkpoint), a, d);
            && r.finished
            && r.state.status == (if choice.Approved? then Status.Accepted else Status.Rejected)
            && |r.state.artifacts| == (if choice.Approved? then 1 else 0)
            && !r.state.approvalRequired
  {
    var st := MakeResumeState(thread, choice, checkpoint);
    var st' := Apply(ResumeWithApproval, st, a, d).state;
    assert choice.Approved? ==> RunFrom(Finalize, st', a, d).finished;
  }

  // ---- The trace of an accepted first run ----------------------------------

  /** The nodes of an accepted run from `n` on, nine from the start, with the status each of them reports. */
  function AcceptedExits(n: Node): seq<TraceEvent>
    decreases Rank(n)
  {
    match n
    case InitEnvironment => [Exit(n, Some(Initialized))] + AcceptedExits(RetrieveContext)
    case RetrieveContext => [Exit(n, Some(RetrievingContext))] + AcceptedExits(DraftCandidate)
    case DraftCandidate => [Exit(n, Some(Drafting))] + AcceptedExits(InteractiveCheck)
    case InteractiveCheck => [Exit(n, Some(CheckingInteractive))] + AcceptedExits(BatchVerify)
    case BatchVerify => [Exit(n, Some(BatchVerifying))] + AcceptedExits(AuditTrust)
    case AuditTrust => [Exit(n, Some(Auditing))] + AcceptedExits(EvaluateProtocol)
    case EvaluateProtocol => [Exit(n, None)] + AcceptedExits(PolicyReview)
    case PolicyReview => [Exit(n, Some(Auditing))] + AcceptedExits(Finalize)
    case _ => [Exit(n, Some(Status.Accepted))]
  }

  function Exits(trace: seq<TraceEvent>): seq<TraceEvent> {
    if trace == [] then [] else (if trace[0].Exit? then [trace[0]] else []) + Exits(trace[1..])
  }

  lemma ExitsStep(n: Node, st: State, a: Answers, d: Deployment)
    requires Apply(n, st, a, d).Updated? && Next(n, Apply(n, st, a, d).state).Some?
    ensures var e := Apply(n, st, a, d);
            Exits(RunFrom(n, st, a, d).trace)
            == [Exit(n, e.reported)] + Exits(RunFrom(Next(n, e.state).value, e.state, a, d).trace)
  {
    var e := Apply(n, st, a, d);
    var rest := RunFrom(Next(n, e.state).value, e.state, a, d).trace;
    var trace := RunFrom(n, st, a, d).trace;
    assert trace == [Enter(n, st.status), Exit(n, e.reported)] + rest;
    assert trace[1..][1..] == rest;
  }

  /** An accepted run with a session visits exactly these nodes, in this order, with these statuses. */
  lemma {:induction false} AcceptedPath(n: Node, st: State, a: Answers, d: Deployment)
    requires RefusalsRefuse(d) && (Upstream(n) || n == PolicyReview || n == Finalize)
    requires RunFrom(n, st, a, d).finished && RunFrom(n, st, a, d).state.status == Status.Accepted
    requires if n == InitEnvironment then a.session != Some("") else HasSession(st)
    ensures Exits(RunFrom(n, st, a, d).trace) == AcceptedExits(n)
    decreases Rank(n)
  {
    if n == Finalize {
      FinalizeExits(st, a, d);
    } else if n == PolicyReview {
      ReviewExits(st, a, d);
      AcceptedPath(Finalize, Apply(n, st, a, d).state, a, d);
    } else {
      UpstreamStep(n, st, a, d);
      ExitsStep(n, st, a, d);
      if n == EvaluateProtocol {
        ProtocolStep(st, a, d);
      }
      var s := Apply(n, st, a, d).state;
      AcceptedPath(Next(n, s).value, s, a, d);
    }
  }

  lemma FinalizeExits(st: State, a: Answers, d: Deployment)
    ensures Exits(RunFrom(Finalize, st, a, d).trace) == [Exit(Finalize, Some(Status.Accepted))]
  {
    var trace := RunFrom(Finalize, st, a, d).trace;
    assert trace[1..][1..] == [];
    assert Exits(trace[1..]) == [trace[1]];
  }

  /** From policy review an accepted run goes on to finalize, which accepts it. */
  lemma ReviewExits(st: State, a: Answers, d: Deployment)
    requires RunFrom(PolicyReview, st, a, d).finished && RunFrom(PolicyReview, st, a, d).state.status == Status.Accepted
    ensures var s := Apply(PolicyReview, st, a, d).state;
            && RunFrom(Finalize, s, a, d).finished && RunFrom(Finalize, s, a, d).state.status == Status.Accepted
            && HasSession(s) == HasSession(st)
            && Exits(RunFrom(PolicyReview, st, a, d).trace)
               == [Exit(PolicyReview, Some(Auditing))] + Exits(RunFrom(Finalize, s, a, d).trace)
  {
    var s := Apply(PolicyReview, st, a, d).state;
    if Next(PolicyReview, s).Some? {
      RunStep(PolicyReview, st, a, d);
      if Next(PolicyReview, s).value == InterruptForApproval {
        InterruptEnds(s, a, d);
      }
      ExitsStep(PolicyReview, st, a, d);
    }
  }
}
