/**
 * What a thread's first run comes to, said of its patch, the gateway's answers and the policy pack themselves: every
 * case, and exactly when the patch asks for a human.
 */
module FirstRuns {
  import opened Wrappers
  import opened PolicyModels
  import opened Batch
  import opened PatchMetadata
  import opened Runtime
  import opened RuntimeProperties
  import PolicyEngine
  import PolicyMeaning

  // ---- What the patch asks for ---------------------------------------------

  /** The changed files policy review sees are exactly the keys of the patch. */
  lemma EvidenceFiles(st: State, f: string)
    ensures f in PolicyEvidence(st).changedFiles <==> f in st.request.patch
  {
    SummaryMeaning(map[], st.request.patch, st.request.protectedPaths);
  }

  /** A path rule that wants a human matches a key of the patch. */
  ghost predicate RuleAsks(q: Request, pack: Pack, glob: PolicyEngine.Matcher) {
    exists rule, key | rule in pack.pathRules && key in q.patch ::
      rule.requireHuman && PolicyMeaning.Matches(glob, key, rule.glob)
  }

  /** A trust gate that wants a human is set for this trust, and matches a key of the patch, or any. */
  ghost predicate GateAsks(q: Request, trust: Trust, pack: Pack, glob: PolicyEngine.Matcher) {
    exists gate, key | gate in pack.trustGates && key in q.patch ::
      && gate.requireHuman && trust in gate.whenTrust
      && (gate.globs == [] || exists g | g in gate.globs :: PolicyMeaning.Matches(glob, key, g))
  }

  /** All that can ask for a human: the compiler's trust, a gate, a rule, a protected path, an import. */
  ghost predicate HumanAsked(q: Request, trust: Trust, pack: Pack, glob: PolicyEngine.Matcher) {
    || (trust == Warning && !pack.allowTrustCompiler)
    || GateAsks(q, trust, pack, glob)
    || RuleAsks(q, pack, glob)
    || (exists key | key in q.patch :: key in q.protectedPaths)
    || (pack.requireHumanIfImportsChange && exists key | key in q.patch :: Contains(q.patch[key], "import "))
  }

  lemma RulesAgree(q: Request, pack: Pack, glob: PolicyEngine.Matcher, st: State)
    requires st.request == q
    ensures RuleAsks(q, pack, glob) <==>
            exists rule | rule in pack.pathRules :: PolicyMeaning.RuleAsks(glob, rule, PolicyEvidence(st).changedFiles)
  {
    forall f
      ensures f in PolicyEvidence(st).changedFiles <==> f in q.patch
    {
      EvidenceFiles(st, f);
    }
  }

  lemma GatesAgree(q: Request, trust: Trust, pack: Pack, glob: PolicyEngine.Matcher, st: State)
    requires st.request == q
    ensures GateAsks(q, trust, pack, glob) <==>
            exists gate | gate in pack.trustGates ::
              PolicyMeaning.GateAsks(glob, gate, trust, PolicyEvidence(st).changedFiles)
  {
    forall f
      ensures f in PolicyEvidence(st).changedFiles <==> f in q.patch
    {
      EvidenceFiles(st, f);
    }
  }

  /** The evidence of a run is sound exactly when both checks were, and asks for a human exactly when the patch does. */
  lemma GatheredMeaning(q: Request, a: Answers, pack: Pack, glob: PolicyEngine.Matcher)
    requires a.batch.Some? && a.interactive.Some?
    ensures PolicyMeaning.Sound(Gathered(q, a)) <==>
            PolicyEngine.Error !in a.interactive.value.diagnostics && BatchOk(a.batch)
    ensures BatchOk(a.batch) ==>
              (PolicyMeaning.Asks(glob, pack, Gathered(q, a)) <==> HumanAsked(q, a.batch.value.audit.trust, pack, glob))
  {
    var st := MakeInitialState(q).(interactive := a.interactive, batch := Some(Verify(a.batch.value)));
    GateShows(q);
    RulesAgree(q, pack, glob, st);
    GatesAgree(q, a.batch.value.audit.trust, pack, glob, st);
  }

  // ---- Every first run -----------------------------------------------------

  /** Where a run goes: it is cut short by a call that raises, or finishes with a status. */
  datatype Ending = CutShort | Ends(status: Status)

  ghost predicate EndsAs(r: Run, e: Ending) {
    match e
    case CutShort => !r.finished
    case Ends(status) => r.finished && r.state.status == status
  }

  /** The first four nodes, up to the interactive answer. */
  lemma ToCheck(q: Request, a: Answers, d: Deployment) returns (s: State)
    requires a.environment && a.session.Some?
    ensures s == MakeInitialState(q).(sessionId := a.session, status := Drafting)
    ensures var (r, rest) := (Invoke(MakeInitialState(q), a, d), RunFrom(InteractiveCheck, s, a, d));
            r.state == rest.state && r.finished == rest.finished
  {
    var st := MakeInitialState(q);
    RunStep(InitEnvironment, st, a, d);
    s := st.(sessionId := a.session);
    RunStep(RetrieveContext, s, a, d);
    s := s.(status := RetrievingContext);
    RunStep(DraftCandidate, s, a, d);
    s := s.(status := Drafting);
  }

  lemma NoSession(q: Request, a: Answers, d: Deployment)
    requires !a.environment || a.session.None?
    ensures EndsAs(Invoke(MakeInitialState(q), a, d), CutShort)
  {
  }

  /** At the interactive check, with a real session. */
  lemma CheckEnds(st: State, a: Answers, d: Deployment)
    requires HasSession(st)
    ensures var r := RunFrom(InteractiveCheck, st, a, d);
            if (st.request.patch != map[] && !a.patched) || a.interactive.None? then EndsAs(r, CutShort)
            else if !a.interactive.value.ok || !NoGoals(a.interactive.value) then EndsAs(r, Ends(Repairing))
            else
              var rest := RunFrom(BatchVerify, st.(interactive := a.interactive, status := CheckingInteractive), a, d);
              r.state == rest.state && r.finished == rest.finished
  {
    var e := Apply(InteractiveCheck, st, a, d);
    if e.Updated? {
      RunStep(InteractiveCheck, st, a, d);
      var m := Next(InteractiveCheck, e.state).value;
      if m != BatchVerify {
        RepairEnds(m, e.state, a, d);
      }
    }
  }

  /** At the batch check, with a real session. */
  lemma BatchEnds(st: State, a: Answers, d: Deployment)
    requires HasSession(st)
    ensures var r := RunFrom(BatchVerify, st, a, d);
            if a.batch.None? then EndsAs(r, CutShort)
            else
              var b := Verify(a.batch.value);
              var s := st.(batch := Some(b), trust := Some(b.trust), status := Auditing);
              var rest := RunFrom(EvaluateProtocol, s, a, d);
              r.state == rest.state && r.finished == rest.finished
  {
    if a.batch.Some? {
      var b := Verify(a.batch.value);
      RunStep(BatchVerify, st, a, d);
      RunStep(AuditTrust, st.(batch := Some(b), trust := Some(b.trust), status := BatchVerifying), a, d);
    }
  }

  /** At protocol evaluation. */
  lemma ProtocolEnds(st: State, a: Answers, d: Deployment)
    requires RefusalsRefuse(d)
    ensures var r := RunFrom(EvaluateProtocol, st, a, d);
            match d.refusal(st.request)
            case Err(_) => EndsAs(r, CutShort)
            case Ok(Some(_)) => EndsAs(r, Ends(Auditing))
            case Ok(None) =>
              var rest := RunFrom(PolicyReview, st, a, d); r.state == rest.state && r.finished == rest.finished
  {
    if d.refusal(st.request).Ok? {
      RunStep(EvaluateProtocol, st, a, d);
      if d.refusal(st.request).value.Some? {
        RefusedStops(Apply(EvaluateProtocol, st, a, d).state, a, d);
      }
    }
  }

  lemma GateEnds(st: State, a: Answers, d: Deployment)
    requires st.policy.None? && st.approval.None? && d.reviewPack(st.request).reviewerGatedExecution
    ensures EndsAs(RunFrom(PolicyReview, st, a, d), Ends(Auditing))
  {
    assert Next(PolicyReview, Apply(PolicyReview, st, a, d).state) == None;
  }

  /** What a first run with a real session comes to. */
  ghost function EndingOf(q: Request, a: Answers, p: Packs, glob: PolicyEngine.Matcher): Ending {
    if !a.environment || a.session.None? || (q.patch != map[] && !a.patched) || a.interactive.None? then CutShort
    else if !a.interactive.value.ok || !NoGoals(a.interactive.value) then Ends(Repairing)
    else if a.batch.None? then CutShort
    else
      match ProtocolRefusal(q, p)
      case Err(_) => CutShort
      case Ok(Some(_)) => Ends(Auditing)
      case Ok(None) =>
        if ReviewPack(q, p).reviewerGatedExecution then Ends(Auditing)
        else if PolicyEngine.Error in a.interactive.value.diagnostics || !BatchOk(a.batch) then Ends(Auditing)
        else if HumanAsked(q, a.batch.value.audit.trust, ReviewPack(q, p), glob) then Ends(AwaitingApproval)
        else Ends(Status.Accepted)
  }

  lemma EngineEnds(q: Request, a: Answers, p: Packs, glob: PolicyEngine.Matcher)
    requires InOrder(q, a, p)
    ensures EndsAs(Invoke(MakeInitialState(q), a, Deployed(p, glob)), EndingOf(q, a, p, glob))
  {
    FirstRunOutcome(q, a, Deployed(p, glob));
    PolicyMeaning.VerdictMeaning(glob, ReviewPack(q, p), Gathered(q, a));
    GatheredMeaning(q, a, ReviewPack(q, p), glob);
  }

  /** Whatever the gateway answers, a first run with a real session ends so. */
  lemma FirstRunEnds(q: Request, a: Answers, p: Packs, glob: PolicyEngine.Matcher)
    requires a.session != Some("")
    ensures EndsAs(Invoke(MakeInitialState(q), a, Deployed(p, glob)), EndingOf(q, a, p, glob))
  {
    var d := Deployed(p, glob);
    if !a.environment || a.session.None? {
      NoSession(q, a, d);
    } else if InOrder(q, a, p) {
      EngineEnds(q, a, p, glob);
    } else {
      var s := ToCheck(q, a, d);
      CheckEnds(s, a, d);
      var answered := (q.patch == map[] || a.patched) && a.interactive.Some?;
      if answered && a.interactive.value.ok && NoGoals(a.interactive.value) {
        s := s.(interactive := a.interactive, status := CheckingInteractive);
        BatchEnds(s, a, d);
        if a.batch.Some? {
          var b := Verify(a.batch.value);
          s := s.(batch := Some(b), trust := Some(b.trust), status := Auditing);
          DeployedRefuses(p, glob);
          ProtocolEnds(s, a, d);
          if ProtocolRefusal(q, p) == Ok(None) {
            GateEnds(s, a, d);
          }
        }
      }
    }
  }

  /**
   * A patch that a human-requiring path rule of its pack matches is never accepted by its first run, whatever the
   * gateway answers; with good answers, and nothing that refuses, it waits for a human.
   */
  lemma MatchedRuleNeedsHuman(q: Request, a: Answers, p: Packs, glob: PolicyEngine.Matcher)
    requires RuleAsks(q, ReviewPack(q, p), glob)
    ensures var r := Invoke(MakeInitialState(q), a, Deployed(p, glob));
            && !(r.finished && r.state.status == Status.Accepted)
            && (InOrder(q, a, p) && InteractiveOk(a.interactive) && BatchOk(a.batch) ==>
                  r.finished && r.state.status == AwaitingApproval)
  {
    var st, d := MakeInitialState(q), Deployed(p, glob);
    if a.session != Some("") {
      FirstRunEnds(q, a, p, glob);
    } else if Passed(Invoke(st, a, d)) {
      var r := Invoke(st, a, d).state;
      PassedWithDecision(InitEnvironment, st, a, d);
      PolicyMeaning.VerdictMeaning(glob, ReviewPack(q, p), PolicyEvidence(r));
      RulesAgree(q, ReviewPack(q, p), glob, r);
    }
  }

  /** So is one that a trust gate matches at the trust the audit found, if its session is real. */
  lemma MatchedGateNeedsHuman(q: Request, a: Answers, p: Packs, glob: PolicyEngine.Matcher)
    requires a.session != Some("") && a.batch.Some?
    requires GateAsks(q, a.batch.value.audit.trust, ReviewPack(q, p), glob)
    ensures var r := Invoke(MakeInitialState(q), a, Deployed(p, glob));
            && !(r.finished && r.state.status == Status.Accepted)
            && (InOrder(q, a, p) && InteractiveOk(a.interactive) && BatchOk(a.batch) ==>
                  r.finished && r.state.status == AwaitingApproval)
  {
    FirstRunEnds(q, a, p, glob);
  }

  // ---- Without a session ---------------------------------------------------

  /** With an empty session id, a run comes to protocol evaluation with no answer to look at. */
  lemma EmptyToProtocol(q: Request, a: Answers, d: Deployment) returns (s: State)
    requires a.environment && a.session == Some("")
    ensures s == MakeInitialState(q).(sessionId := Some(""), status := Auditing)
    ensures var (r, rest) := (Invoke(MakeInitialState(q), a, d), RunFrom(EvaluateProtocol, s, a, d));
            r.state == rest.state && r.finished == rest.finished
  {
    s := ToCheck(q, a, d);
    RunStep(InteractiveCheck, s, a, d);
    s := s.(status := Failed);
    RunStep(BatchVerify, s, a, d);
    RunStep(AuditTrust, s, a, d);
    s := s.(status := Auditing);
  }

  /** What the patch alone can ask a human for. */
  ghost predicate PatchAsks(q: Request, pack: Pack, glob: PolicyEngine.Matcher) {
    || RuleAsks(q, pack, glob)
    || (exists key | key in q.patch :: key in q.protectedPaths)
    || (pack.requireHumanIfImportsChange && exists key | key in q.patch :: Contains(q.patch[key], "import "))
  }

  /** What a first run without a session comes to: nothing the checks would say can refuse it. */
  ghost function UncheckedEnding(q: Request, p: Packs, glob: PolicyEngine.Matcher): Ending {
    match ProtocolRefusal(q, p)
    case Err(_) => CutShort
    case Ok(Some(_)) => Ends(Auditing)
    case Ok(None) =>
      if ReviewPack(q, p).reviewerGatedExecution then Ends(Auditing)
      else if PatchAsks(q, ReviewPack(q, p), glob) then Ends(AwaitingApproval)
      else Ends(Status.Accepted)
  }

  lemma UncheckedVerdict(q: Request, pack: Pack, glob: PolicyEngine.Matcher, s: State)
    requires s.request == q && s.interactive.None? && s.batch.None?
    ensures PolicyEngine.Judge(glob, pack, PolicyEvidence(s)).verdict
            == if PatchAsks(q, pack, glob) then NeedsReview else Verdict.Accepted
  {
    GateShows(q);
    RulesAgree(q, pack, glob, s);
    PolicyMeaning.VerdictMeaning(glob, pack, PolicyEvidence(s));
  }

  lemma EmptySessionEnds(q: Request, a: Answers, p: Packs, glob: PolicyEngine.Matcher)
    requires a.environment && a.session == Some("")
    ensures EndsAs(Invoke(MakeInitialState(q), a, Deployed(p, glob)), UncheckedEnding(q, p, glob))
  {
    var d := Deployed(p, glob);
    var s := EmptyToProtocol(q, a, d);
    DeployedRefuses(p, glob);
    ProtocolEnds(s, a, d);
    if ProtocolRefusal(q, p) == Ok(None) {
      if ReviewPack(q, p).reviewerGatedExecution {
        GateEnds(s, a, d);
      } else {
        ReviewOutcome(s, a, d);
        UncheckedVerdict(q, ReviewPack(q, p), glob, s);
      }
    }
  }
}
