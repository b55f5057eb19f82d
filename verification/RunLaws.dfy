/**
 * What a run is made from, and what its events must satisfy: the policy pack that counts, each flag as a property of
 * the trace, and the input of a start over its thread's checkpoint.
 */
module RunLaws {
  import opened Wrappers
  import opened PolicyModels
  import opened Runtime
  import opened RuntimeProperties
  import opened ProtocolEvaluator
  import opened TraceLaws
  import FirstRuns
  import PolicyEngine
  import Reviews
  import Threads

  // ---- Which pack counts ---------------------------------------------------

  /** A request's pack name goes before the environment's, and that before the default. */
  predicate Named(q: Request, p: Packs, default: string, name: string) {
    name == if q.packName != "" then q.packName else if p.envPack.Some? then p.envPack.value else default
  }

  /** Without a pack that loads, review falls back on gating imports and trust deltas, with no rules and no flags. */
  lemma ReviewPackMeaning(q: Request, p: Packs, name: string)
    requires Named(q, p, "strict_patch_gate_v1", name)
    ensures name in p.loadable ==> ReviewPack(q, p) == p.loadable[name]
    ensures name !in p.loadable ==>
              var pack := ReviewPack(q, p);
              && pack.name == "strict" && pack.version == "1"
              && pack.requireHumanIfImportsChange && pack.requireHumanOnTrustDelta && !pack.allowTrustCompiler
              && pack.pathRules == [] && pack.trustGates == [] && forall c :: !Flagged(c, pack)
  {
  }

  // ---- What a pack demands of the events -----------------------------------

  /** Everything the flags of a pack demand, except an approval, which no run is checked for. */
  ghost predicate InLine(es: seq<CleanEvent>, pack: Pack) {
    && (pack.singleOwnerHandoff ==> DelegatedByOwner(es))
    && (pack.lockOwnershipInvariant ==> LockedInTurn(es))
    && (pack.delegationAdmissibility ==> DelegatedAsClaimed(es))
    && (pack.stateTransitionPreservation || pack.sideEffectAuthorization ==> ApprovedFirst(es))
    && (pack.artifactAdmissibility ==> ArtifactsInPlace(es))
    && (pack.evidenceCompleteExecutionToken ==> EvidenceSaid(es))
  }

  /** An evaluator admits, rejects, blocks or raises; it never asks for a review. */
  lemma {:induction false} NeverReviews(c: ObligationClass, es: seq<CleanEvent>, j: nat)
    requires Stepwise(c) && j <= |es|
    ensures DecideFrom(c, es, j).verdict in {Verdict.Accepted, Verdict.Rejected}
    decreases |es| - j
  {
    if j < |es| {
      NeverReviews(c, es, j + 1);
    }
  }

  lemma RefusalIff(c: ObligationClass, events: seq<RawEvent>, pack: Pack)
    ensures Decide(c, events, pack).Ok? ==>
              (Decide(c, events, pack).value.verdict in {Verdict.Rejected, Blocked} <==> !Accepts(c, events, pack))
  {
    if Stepwise(c) {
      NeverReviews(c, Normalize(events), 0);
    }
  }

  /** The first check that does not accept decides: it refuses, or raises. */
  ghost predicate DecidedAt(
    checks: seq<ObligationClass>, k: int, events: seq<RawEvent>, pack: Pack, r: Result<Option<Decision>, Fault>)
  {
    && 0 <= k < |checks| && !Accepts(checks[k], events, pack)
    && (forall i | 0 <= i < k :: Accepts(checks[i], events, pack))
    && match Decide(checks[k], events, pack)
       case Err(fault) => r == Err(fault)
       case Ok(d) => r == Ok(Some(d))
  }

  lemma {:induction false} FirstRefusalMeaning(
    checks: seq<ObligationClass>, events: seq<RawEvent>, pack: Pack, r: Result<Option<Decision>, Fault>)
    requires r == FirstRefusal(checks, events, pack)
    ensures AllAccept(checks, events, pack) ==> r == Ok(None)
    ensures !AllAccept(checks, events, pack) ==> exists k :: DecidedAt(checks, k, events, pack, r)
  {
    if checks != [] {
      RefusalIff(checks[0], events, pack);
      AllAcceptStep(checks, events, pack);
      if !Accepts(checks[0], events, pack) {
        DecidedNow(checks, events, pack, r);
      } else {
        FirstRefusalMeaning(checks[1..], events, pack, r);
        if !AllAccept(checks, events, pack) {
          var k :| DecidedAt(checks[1..], k, events, pack, r);
          DecidedLater(checks, k, k + 1, events, pack, r);
        }
      }
    }
  }

  ghost predicate AllAccept(checks: seq<ObligationClass>, events: seq<RawEvent>, pack: Pack) {
    forall c | c in checks :: Accepts(c, events, pack)
  }

  lemma AllAcceptStep(checks: seq<ObligationClass>, events: seq<RawEvent>, pack: Pack)
    requires checks != []
    ensures AllAccept(checks, events, pack) <==>
            Accepts(checks[0], events, pack) && AllAccept(checks[1..], events, pack)
  {
    assert checks == [checks[0]] + checks[1..];
    assert checks[0] in checks;
  }

  lemma DecidedNow(checks: seq<ObligationClass>, events: seq<RawEvent>, pack: Pack, r: Result<Option<Decision>, Fault>)
    requires checks != [] && !Accepts(checks[0], events, pack)
    requires match Decide(checks[0], events, pack)
             case Err(fault) => r == Err(fault)
             case Ok(d) => r == Ok(Some(d))
    ensures DecidedAt(checks, 0, events, pack, r)
  {
  }

  lemma DecidedLater(
    checks: seq<ObligationClass>, m: int, n: int, events: seq<RawEvent>, pack: Pack, r: Result<Option<Decision>, Fault>)
    requires checks != [] && Accepts(checks[0], events, pack) && DecidedAt(checks[1..], m, events, pack, r)
    requires n == m + 1
    ensures DecidedAt(checks, n, events, pack, r)
  {
    forall i | 0 <= i < n
      ensures Accepts(checks[i], events, pack)
    {
      if i > 0 {
        assert checks[i] == checks[1..][i - 1];
      }
    }
  }

  /** The seven checks, in the order they are made. */
  lemma SevenChecks()
    ensures PROTOCOL_CHECKS == [
              HandoffLegality, LockOwnership, DelegationAdmissibility, StateTransition, ArtifactAdmissibility,
              SideEffect, EvidenceComplete]
  {
  }

  /** What the flag of a check demands. */
  ghost predicate Demanded(c: ObligationClass, es: seq<CleanEvent>) {
    match c
    case HandoffLegality => DelegatedByOwner(es)
    case LockOwnership => LockedInTurn(es)
    case DelegationAdmissibility => DelegatedAsClaimed(es)
    case ArtifactAdmissibility => ArtifactsInPlace(es)
    case EvidenceComplete => EvidenceSaid(es)
    case _ => ApprovedFirst(es)
  }

  lemma AcceptsDemanded(c: ObligationClass, events: seq<RawEvent>, pack: Pack)
    requires c in PROTOCOL_CHECKS
    ensures Accepts(c, events, pack) <==> (Flagged(c, pack) ==> Demanded(c, Normalize(events)))
  {
    var es := Normalize(events);
    NormalizingIsInvisible(c, events, pack);
    Admits(c, events, pack);
    if Flagged(c, pack) {
      match c {
        case HandoffLegality => HandoffLaw(es, pack);
        case LockOwnership => LockLaw(es, pack);
        case DelegationAdmissibility => DelegationLaw(es, pack);
        case ArtifactAdmissibility => ArtifactLaw(es, pack);
        case EvidenceComplete => EvidenceLaw(es, pack);
        case _ => ApprovalLaw(es, pack);
      }
    }
  }

  ghost predicate Kept(c: ObligationClass, es: seq<CleanEvent>, pack: Pack) {
    Flagged(c, pack) ==> Demanded(c, es)
  }

  /** All classes that are known are checked, but for the reviewer's gate. */
  lemma IsChecked(c: ObligationClass)
    ensures c in PROTOCOL_CHECKS <==> c != ReviewerGated && c != UnknownClass
  {
    SevenChecks();
    assert forall i | 0 <= i < 7 :: PROTOCOL_CHECKS[i] in PROTOCOL_CHECKS;
  }

  lemma InLineIff(es: seq<CleanEvent>, pack: Pack)
    ensures InLine(es, pack) <==> forall c | c != ReviewerGated && c != UnknownClass :: Kept(c, es, pack)
  {
    if forall c | c != ReviewerGated && c != UnknownClass :: Kept(c, es, pack) {
      assert Kept(HandoffLegality, es, pack) && Kept(LockOwnership, es, pack);
      assert Kept(DelegationAdmissibility, es, pack);
      assert Kept(StateTransition, es, pack) && Kept(SideEffect, es, pack) && Kept(ArtifactAdmissibility, es, pack);
      assert Kept(EvidenceComplete, es, pack);
    }
  }

  /** All seven accept exactly when the events are in line with its flags. */
  lemma AllAcceptIff(events: seq<RawEvent>, pack: Pack)
    ensures AllAccept(PROTOCOL_CHECKS, events, pack) <==> InLine(Normalize(events), pack)
  {
    forall c
      ensures c in PROTOCOL_CHECKS <==> c != ReviewerGated && c != UnknownClass
      ensures c in PROTOCOL_CHECKS ==> (Accepts(c, events, pack) <==> Kept(c, Normalize(events), pack))
    {
      IsChecked(c);
      if c in PROTOCOL_CHECKS {
        AcceptsDemanded(c, events, pack);
      }
    }
    InLineIff(Normalize(events), pack);
  }

  /**
   * The protocol checks let a run go on exactly when there are no events, the named pack does not load, or the
   * normalised events are in line with that pack; else the first of the seven to object decides.
   */
  lemma ProtocolRefusalIff(q: Request, p: Packs, name: string)
    requires Named(q, p, "single_owner_handoff_v1", name)
    ensures ProtocolRefusal(q, p) == Ok(None) <==>
            q.protocolEvents == [] || name !in p.loadable || InLine(Normalize(q.protocolEvents), p.loadable[name])
    ensures ProtocolRefusal(q, p) != Ok(None) ==>
              var checks := [HandoffLegality, LockOwnership, DelegationAdmissibility, StateTransition,
                             ArtifactAdmissibility, SideEffect, EvidenceComplete];
              exists k :: DecidedAt(checks, k, q.protocolEvents, p.loadable[name], ProtocolRefusal(q, p))
  {
    SevenChecks();
    if q.protocolEvents != [] && name in p.loadable {
      FirstRefusalMeaning(PROTOCOL_CHECKS, q.protocolEvents, p.loadable[name], ProtocolRefusal(q, p));
      AllAcceptIff(q.protocolEvents, p.loadable[name]);
    }
  }

  /** So a run that is accepted, or goes to a human, has events that are in line with its pack. */
  lemma PassedInLine(q: Request, a: Answers, p: Packs, name: string, glob: PolicyEngine.Matcher)
    requires Passed(Invoke(MakeInitialState(q), a, Deployed(p, glob))) && Named(q, p, "single_owner_handoff_v1", name)
    ensures q.protocolEvents == [] || name !in p.loadable || InLine(Normalize(q.protocolEvents), p.loadable[name])
  {
    DeployedRefuses(p, glob);
    PassedByProtocol(InitEnvironment, MakeInitialState(q), a, Deployed(p, glob));
    ProtocolRefusalIff(q, p, name);
  }

  // ---- What a run is about -------------------------------------------------

  /** No node changes the request, whatever the run comes to. */
  lemma {:induction false} RequestIsKept(n: Node, st: State, a: Answers, d: Deployment)
    ensures RunFrom(n, st, a, d).state.request == st.request
    decreases Rank(n)
  {
    var e := Apply(n, st, a, d);
    if e.Updated? && Next(n, e.state).Some? {
      RequestIsKept(Next(n, e.state).value, e.state, a, d);
    }
  }

  /** A start's own input over what its thread's checkpoint says of the two keys it may leave out. */
  predicate Merged(sys: Threads.System, s: Submission, q: Request) {
    && q.threadId == s.threadId && q.obligationId == s.obligationId && q.protectedPaths == s.protectedPaths
    && q.patch == s.patch
    && (s.protocolEvents.Some? ==> q.protocolEvents == s.protocolEvents.value)
    && (s.packName.Some? ==> q.packName == s.packName.value)
    && (s.threadId in sys.checkpoints ==>
          var kept := sys.checkpoints[s.threadId].request;
          && (s.protocolEvents.None? ==> q.protocolEvents == kept.protocolEvents)
          && (s.packName.None? ==> q.packName == kept.packName))
    && (s.threadId !in sys.checkpoints ==>
          && (s.protocolEvents.None? ==> q.protocolEvents == [])
          && (s.packName.None? ==> q.packName == ""))
  }

  /**
   * However its thread was left, a start with a real session ends as the first run of its own input does, and leaves
   * that input in the checkpoint.
   */
  lemma StartEnds(sys: Threads.System, ev: Threads.Event, q: Request, glob: PolicyEngine.Matcher)
    requires ev.Start? && ev.answers.session != Some("") && Merged(sys, ev.submission, q)
    ensures FirstRuns.EndsAs(Threads.StartRun(sys, ev, glob), FirstRuns.EndingOf(q, ev.answers, ev.packs, glob))
    ensures var after := Threads.Step(sys, ev, glob).checkpoints;
            && ev.submission.threadId in after && after[ev.submission.threadId].request == q
            && forall t | t in sys.checkpoints && t != ev.submission.threadId ::
                 t in after && after[t] == sys.checkpoints[t]
  {
    assert Threads.RequestOf(sys, ev) == q;
    FirstRuns.FirstRunEnds(q, ev.answers, ev.packs, glob);
    RequestIsKept(InitEnvironment, MakeInitialState(q), ev.answers, Deployed(ev.packs, glob));
  }

  /** The review such a start posts is its thread's, undecided, and nobody else's changes. */
  lemma StartPosts(sys: Threads.System, ev: Threads.Event, q: Request, glob: PolicyEngine.Matcher)
    requires ev.Start? && ev.answers.session != Some("") && Merged(sys, ev.submission, q)
    ensures var (t, after) := (ev.submission.threadId, Threads.Step(sys, ev, glob).reviews);
            var ending := FirstRuns.EndingOf(q, ev.answers, ev.packs, glob);
            if ending == FirstRuns.Ends(AwaitingApproval) && ev.answers.reviewPosted
            then after == sys.reviews[t := Reviews.Record(Reviews.Payload("awaiting_review", ""), None)]
            else after == sys.reviews
  {
    StartEnds(sys, ev, q, glob);
  }

  /** A resume keeps the thread's events and pack name, and blanks everything else; the witness is for no obligation. */
  lemma ResumeBlanks(sys: Threads.System, ev: Threads.Event, choice: Reviews.Choice, glob: PolicyEngine.Matcher)
    requires ev.Resume? && ev.thread in sys.checkpoints && ev.thread in sys.reviews
    requires sys.reviews[ev.thread].decision == Some(choice)
    ensures ev.thread in Threads.Step(sys, ev, glob).checkpoints
    ensures var (kept, st) := (sys.checkpoints[ev.thread].request, Threads.Step(sys, ev, glob).checkpoints[ev.thread]);
            && st.request == Request(ev.thread, "", [], map[], kept.protocolEvents, kept.packName)
            && st.sessionId.None? && st.interactive.None? && st.batch.None? && st.policy.None? && st.trust.None?
            && st.approval == Some(choice) && !st.approvalRequired
            && st.artifacts == if choice.Approved? then [WitnessBundle("")] else []
  {
    var (st, d) := (MakeResumeState(ev.thread, choice, Threads.Checkpoint(sys, ev.thread)), Deployed(ev.packs, glob));
    var st' := Apply(ResumeWithApproval, st, ev.answers, d).state;
    if choice.Approved? {
      RunStep(ResumeWithApproval, st, ev.answers, d);
      FinalizeEnds(st', ev.answers, d);
    }
  }

  // ---- The trace -----------------------------------------------------------

  /** A run begins with the resume exactly when an approval is asked for and there. */
  lemma RunBegins(st: State, a: Answers, d: Deployment)
    ensures Invoke(st, a, d).trace != []
    ensures Invoke(st, a, d).trace[0] ==
            Enter(if st.approvalRequired && st.approval.Some? then ResumeWithApproval else InitEnvironment, st.status)
  {
  }

  /** A node is entered with the status the one before reported, or, if it reported none, was entered with. */
  ghost predicate Linked(trace: seq<TraceEvent>)
    decreases |trace|
  {
    |trace| > 2 ==>
      && trace[0].Enter? && trace[1].Exit? && trace[2].Enter?
      && trace[2].status == (if trace[1].reported.Some? then trace[1].reported.value else trace[0].status)
      && Linked(trace[2..])
  }

  lemma {:induction false} TraceIsLinked(n: Node, st: State, a: Answers, d: Deployment)
    ensures Linked(RunFrom(n, st, a, d).trace)
    ensures |RunFrom(n, st, a, d).trace| >= 2 && RunFrom(n, st, a, d).trace[0] == Enter(n, st.status)
    decreases Rank(n)
  {
    var e := Apply(n, st, a, d);
    if e.Updated? && Next(n, e.state).Some? {
      var m := Next(n, e.state).value;
      TraceIsLinked(m, e.state, a, d);
      ReportsStatus(n, st, a, d);
      var trace := RunFrom(n, st, a, d).trace;
      assert trace[2..] == RunFrom(m, e.state, a, d).trace;
    }
  }

  lemma ReportsStatus(n: Node, st: State, a: Answers, d: Deployment)
    requires Apply(n, st, a, d).Updated?
    ensures var e := Apply(n, st, a, d);
            e.state.status == if e.reported.Some? then e.reported.value else st.status
  {
  }
}
