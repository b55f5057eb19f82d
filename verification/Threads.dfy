/**
 * Many threads over their whole lives: starts and restarts, human decisions and resumes through the gateway, in any
 * order. What an accepted thread must have gone through.
 */
module Threads {
  import opened Wrappers
  import opened PolicyModels
  import opened Runtime
  import opened RuntimeProperties
  import Approvals
  import PolicyEngine
  import Reviews

  /** Which packs load may differ from one invocation to the next. */
  datatype Event =
    | Start(submission: Submission, answers: Answers, packs: Packs)
    | Decide(thread: string, choice: Reviews.Choice)
    | Resume(thread: string, answers: Answers, packs: Packs)

  /** The checkpoint of every thread, and the gateway's reviews. */
  datatype System = System(checkpoints: map<string, State>, reviews: Reviews.Store)

  const EMPTY := System(map[], map[])

  const PENDING := Reviews.Payload("awaiting_review", "")

  function Checkpoint(sys: System, t: string): Option<State> {
    if t in sys.checkpoints then Some(sys.checkpoints[t]) else None
  }

  function RequestOf(sys: System, ev: Event): Request
    requires ev.Start?
  {
    Requested(ev.submission, Checkpoint(sys, ev.submission.threadId))
  }

  /** The run a start makes, its input merged over the thread's checkpoint. */
  ghost function StartRun(sys: System, ev: Event, glob: PolicyEngine.Matcher): Run
    requires ev.Start?
  {
    Invoke(MakeInitialState(RequestOf(sys, ev)), ev.answers, Deployed(ev.packs, glob))
  }

  /** Whether that run ended in the interrupt and its review reached the store. */
  ghost predicate PostsReview(sys: System, ev: Event, glob: PolicyEngine.Matcher)
    requires ev.Start?
  {
    var r := StartRun(sys, ev, glob);
    r.finished && r.state.status == AwaitingApproval && ev.answers.reviewPosted
  }

  ghost function Step(sys: System, ev: Event, glob: PolicyEngine.Matcher): System {
    match ev
    case Start(q, _, _) =>
      System(sys.checkpoints[q.threadId := StartRun(sys, ev, glob).state],
             if PostsReview(sys, ev, glob) then Reviews.Next(sys.reviews, Reviews.Create(q.threadId, PENDING))
             else sys.reviews)
    case Decide(t, choice) => sys.(reviews := Reviews.Next(sys.reviews, Reviews.Decide(t, choice)))
    case Resume(t, a, p) =>
      match Reviews.Forwarded(sys.reviews, t)
      case Err(_) => sys
      case Ok(choice) =>
        sys.(checkpoints := sys.checkpoints[
               t := Invoke(MakeResumeState(t, choice, Checkpoint(sys, t)), a, Deployed(p, glob)).state])
  }

  /** The system after the first `n` events of a log. */
  ghost function After(log: seq<Event>, n: nat, glob: PolicyEngine.Matcher): System
    requires n <= |log|
  {
    if n == 0 then EMPTY else Step(After(log, n - 1, glob), log[n - 1], glob)
  }

  // ---- One thread's part in a log ------------------------------------------

  /** Where a thread stands: whether its checkpoint is accepted, and the decision on its stored review. */
  function View(sys: System, t: string): Approvals.Standing {
    Approvals.Standing(
      t in sys.checkpoints && sys.checkpoints[t].status == Status.Accepted,
      if t in sys.reviews then Some(sys.reviews[t].decision) else None)
  }

  /** What an event means to a thread: a start is accepted or posts a review as its run ends. */
  ghost function FactOf(sys: System, ev: Event, t: string, glob: PolicyEngine.Matcher): Approvals.Fact {
    match ev
    case Start(q, _, _) =>
      if q.threadId != t then Approvals.Elsewhere
      else Approvals.Begun(StartRun(sys, ev, glob).state.status == Status.Accepted, PostsReview(sys, ev, glob))
    case Decide(t', choice) => if t' == t then Approvals.Decided(choice) else Approvals.Elsewhere
    case Resume(t', _, _) => if t' == t then Approvals.Resumed else Approvals.Elsewhere
  }

  ghost function Facts(log: seq<Event>, t: string, glob: PolicyEngine.Matcher): (fs: seq<Approvals.Fact>)
    ensures |fs| == |log|
  {
    seq(|log|, i requires 0 <= i < |log| => FactOf(After(log, i, glob), log[i], t, glob))
  }

  /** A resume that is forwarded leaves the reviews alone and makes the thread what the decision says. */
  lemma ForwardedResume(sys: System, ev: Event, glob: PolicyEngine.Matcher)
    requires ev.Resume? && Reviews.Forwarded(sys.reviews, ev.thread).Ok?
    ensures var (choice, t, after) := (Reviews.Forwarded(sys.reviews, ev.thread).value, ev.thread, Step(sys, ev, glob));
            && after.reviews == sys.reviews && t in after.checkpoints
            && after.checkpoints[t].status == (if choice.Approved? then Status.Accepted else Status.Rejected)
            && |after.checkpoints[t].artifacts| == (if choice.Approved? then 1 else 0)
            && forall t' | t' != t :: Checkpoint(after, t') == Checkpoint(sys, t')
  {
    ResumeFollowsDecision(ev.thread, Reviews.Forwarded(sys.reviews, ev.thread).value, Checkpoint(sys, ev.thread),
                          ev.answers, Deployed(ev.packs, glob));
  }

  /** Every event moves a thread exactly as its meaning to that thread says. */
  lemma StepView(sys: System, ev: Event, t: string, glob: PolicyEngine.Matcher)
    ensures View(Step(sys, ev, glob), t) == Approvals.Next(View(sys, t), FactOf(sys, ev, t, glob))
  {
    if ev.Resume? && Reviews.Forwarded(sys.reviews, ev.thread).Ok? {
      ForwardedResume(sys, ev, glob);
      assert t in sys.checkpoints ==> Checkpoint(sys, t) == Some(sys.checkpoints[t]);
    }
  }

  /** The step from the first `m` events to the first `n`, the next one included. */
  lemma AfterNext(log: seq<Event>, m: nat, n: nat, glob: PolicyEngine.Matcher)
    requires m + 1 == n <= |log|
    ensures After(log, n, glob) == Step(After(log, m, glob), log[m], glob)
  {
    var last: nat := n - 1;
    assert last == m;
    assert After(log, n, glob) == Step(After(log, last, glob), log[last], glob);
  }

  lemma EventView(log: seq<Event>, t: string, m: nat, n: nat, glob: PolicyEngine.Matcher)
    requires m + 1 == n <= |log|
    ensures View(After(log, n, glob), t) == Approvals.Next(View(After(log, m, glob), t), Facts(log, t, glob)[m])
  {
    AfterNext(log, m, n, glob);
    StepView(After(log, m, glob), log[m], t, glob);
  }

  /** Whether a thread is accepted, and what its review says, depends on what the events mean to it alone. */
  lemma {:induction false} AfterView(log: seq<Event>, t: string, n: nat, glob: PolicyEngine.Matcher)
    requires n <= |log|
    ensures View(After(log, n, glob), t) == Approvals.After(Facts(log, t, glob), n)
  {
    if n == 0 {
      assert View(EMPTY, t) == Approvals.FRESH;
    } else {
      var m: nat := n - 1;
      AfterView(log, t, m, glob);
      EventView(log, t, m, n, glob);
      Approvals.AfterNext(Facts(log, t, glob), m, n);
    }
  }

  /** An accepted thread holds exactly one witness. */
  ghost predicate OneWitness(sys: System) {
    forall t | t in sys.checkpoints && sys.checkpoints[t].status == Status.Accepted ::
      |sys.checkpoints[t].artifacts| == 1
  }

  /** A run from the start that is cut short is not accepted. */
  lemma {:induction false} CutShortNotAccepted(n: Node, st: State, a: Answers, d: Deployment)
    requires (Upstream(n) || n == PolicyReview) && st.status != Status.Accepted && !RunFrom(n, st, a, d).finished
    ensures RunFrom(n, st, a, d).state.status != Status.Accepted
    decreases Rank(n)
  {
    var e := Apply(n, st, a, d);
    if e.Updated? {
      var m := Next(n, e.state).value;
      if Upstream(m) || m == PolicyReview {
        CutShortNotAccepted(m, e.state, a, d);
      }
    }
  }

  lemma StartWitness(sys: System, ev: Event, glob: PolicyEngine.Matcher)
    requires ev.Start?
    ensures var r := StartRun(sys, ev, glob).state; r.status == Status.Accepted ==> |r.artifacts| == 1
  {
    var d, st := Deployed(ev.packs, glob), MakeInitialState(RequestOf(sys, ev));
    WitnessIffAccepted(InitEnvironment, st, ev.answers, d);
    if !StartRun(sys, ev, glob).finished {
      CutShortNotAccepted(InitEnvironment, st, ev.answers, d);
    }
  }

  lemma StepKeepsWitness(sys: System, ev: Event, glob: PolicyEngine.Matcher)
    requires OneWitness(sys)
    ensures OneWitness(Step(sys, ev, glob))
  {
    if ev.Start? {
      StartWitness(sys, ev, glob);
    } else if ev.Resume? && Reviews.Forwarded(sys.reviews, ev.thread).Ok? {
      ForwardedResume(sys, ev, glob);
    }
  }

  lemma {:induction false} AfterWitness(log: seq<Event>, n: nat, glob: PolicyEngine.Matcher)
    requires n <= |log|
    ensures OneWitness(After(log, n, glob))
  {
    if n > 0 {
      var m: nat := n - 1;
      AfterWitness(log, m, glob);
      StepKeepsWitness(After(log, m, glob), log[m], glob);
      AfterNext(log, m, n, glob);
    }
  }

  // ---- What an accepted thread went through --------------------------------

  /** The gateway hands out real session ids. */
  ghost predicate RealSessions(log: seq<Event>) {
    forall s | 0 <= s < |log| && log[s].Start? :: log[s].answers.session != Some("")
  }

  ghost predicate ChecksOk(ev: Event) {
    ev.Start? && InteractiveOk(ev.answers.interactive) && BatchOk(ev.answers.batch)
  }

  ghost predicate PolicySaid(sys: System, ev: Event, verdict: Verdict, glob: PolicyEngine.Matcher) {
    && ev.Start?
    && var policy := StartRun(sys, ev, glob).state.policy;
       policy.Some? && policy.value.verdict == verdict
  }

  /** The start at `s` of a log had its checks in order, and policy decided so. */
  ghost predicate Judged(log: seq<Event>, s: int, verdict: Verdict, glob: PolicyEngine.Matcher) {
    0 <= s < |log| && ChecksOk(log[s]) && PolicySaid(After(log, s, glob), log[s], verdict, glob)
  }

  /** What a start's run tells about its own event. */
  lemma StartFacts(sys: System, ev: Event, glob: PolicyEngine.Matcher)
    requires ev.Start? && ev.answers.session != Some("")
    ensures StartRun(sys, ev, glob).state.status == Status.Accepted ==>
              ChecksOk(ev) && PolicySaid(sys, ev, Verdict.Accepted, glob)
    ensures PostsReview(sys, ev, glob) ==> ChecksOk(ev) && PolicySaid(sys, ev, NeedsReview, glob)
  {
    var d, st := Deployed(ev.packs, glob), MakeInitialState(RequestOf(sys, ev));
    var r := StartRun(sys, ev, glob);
    if !r.finished {
      CutShortNotAccepted(InitEnvironment, st, ev.answers, d);
    } else if Passed(r) {
      FreshRunChecked(RequestOf(sys, ev), ev.answers, ev.packs, glob);
      PassedWithDecision(InitEnvironment, st, ev.answers, d);
    }
  }

  lemma StartJudged(log: seq<Event>, t: string, s: int, glob: PolicyEngine.Matcher)
    requires RealSessions(log) && 0 <= s < |log| && Facts(log, t, glob)[s].Begun?
    ensures Facts(log, t, glob)[s].accepted ==> Judged(log, s, Verdict.Accepted, glob)
    ensures Facts(log, t, glob)[s].posted ==> Judged(log, s, NeedsReview, glob)
  {
    StartFacts(After(log, s, glob), log[s], glob);
  }

  /**
   * However starts, restarts, decisions and resumes of any threads interleave, and whatever the gateway answers: a
   * thread is accepted exactly when the latest event to settle it was a start of it that ended accepted, or a resume
   * of it while the latest decision on the latest review any of its starts had posted was an approval.
   */
  lemma AcceptedExactlyWhen(log: seq<Event>, t: string, n: nat, glob: PolicyEngine.Matcher)
    requires n <= |log|
    ensures var fs := Facts(log, t, glob);
            t in After(log, n, glob).checkpoints && After(log, n, glob).checkpoints[t].status == Status.Accepted <==>
            (exists s :: Approvals.ByPolicy(fs, s, n)) || (exists s, k, r :: Approvals.ByHuman(fs, s, k, r, n))
  {
    AfterView(log, t, n, glob);
    Approvals.AcceptedIff(Facts(log, t, glob), n);
  }

  /**
   * With real sessions, the start it owes that to had an ok interactive check and an ok batch result, and policy
   * accepted it, or asked for the human who then approved; and it holds one witness.
   */
  lemma AcceptedOnlyWhenChecked(log: seq<Event>, t: string, n: nat, glob: PolicyEngine.Matcher)
    requires RealSessions(log) && n <= |log|
    requires var sys := After(log, n, glob); t in sys.checkpoints && sys.checkpoints[t].status == Status.Accepted
    ensures |After(log, n, glob).checkpoints[t].artifacts| == 1
    ensures var fs := Facts(log, t, glob);
            || (exists s :: Approvals.ByPolicy(fs, s, n) && Judged(log, s, Verdict.Accepted, glob))
            || (exists s, k, r :: Approvals.ByHuman(fs, s, k, r, n) && Judged(log, s, NeedsReview, glob))
  {
    AfterWitness(log, n, glob);
    AcceptedExactlyWhen(log, t, n, glob);
    var fs := Facts(log, t, glob);
    if s :| Approvals.ByPolicy(fs, s, n) {
      StartJudged(log, t, s, glob);
    } else {
      var s, k, r :| Approvals.ByHuman(fs, s, k, r, n);
      StartJudged(log, t, s, glob);
    }
  }

  /**
   * What holds of one thread after every prefix of a log: its stored review, the decision on it, and its acceptance
   * all trace back to what earned them.
   */
  ghost predicate ThreadInvariant(log: seq<Event>, t: string, n: nat, glob: PolicyEngine.Matcher)
    requires n <= |log|
  {
    var sys, fs := After(log, n, glob), Facts(log, t, glob);
    && (t in sys.reviews ==> exists s :: Approvals.Stands(fs, s, n) && Judged(log, s, NeedsReview, glob))
    && (t in sys.reviews && sys.reviews[t].decision.Some? ==>
          exists s, k ::
            && Approvals.DecidedOn(fs, s, k, n) && fs[k].choice == sys.reviews[t].decision.value
            && Judged(log, s, NeedsReview, glob))
    && (t in sys.checkpoints && sys.checkpoints[t].status == Status.Accepted ==>
          && |sys.checkpoints[t].artifacts| == 1
          && (|| (exists s :: Approvals.ByPolicy(fs, s, n) && Judged(log, s, Verdict.Accepted, glob))
              || (exists s, k, r :: Approvals.ByHuman(fs, s, k, r, n) && Judged(log, s, NeedsReview, glob))))
  }

  lemma InvariantHolds(log: seq<Event>, t: string, n: nat, glob: PolicyEngine.Matcher)
    requires RealSessions(log) && n <= |log|
    ensures ThreadInvariant(log, t, n, glob)
  {
    var sys, fs := After(log, n, glob), Facts(log, t, glob);
    if t in sys.reviews {
      AfterView(log, t, n, glob);
      Approvals.ReviewMeans(fs, n);
      var s := Approvals.Poster(fs, n, Some(sys.reviews[t].decision));
      StartJudged(log, t, s, glob);
      if sys.reviews[t].decision.Some? {
        var s', k :| Approvals.DecidedOn(fs, s', k, n) && fs[k].choice == sys.reviews[t].decision.value;
        StartJudged(log, t, s', glob);
      }
    }
    if t in sys.checkpoints && sys.checkpoints[t].status == Status.Accepted {
      AcceptedOnlyWhenChecked(log, t, n, glob);
    }
  }

  // ---- Starting a thread again ---------------------------------------------

  /**
   * The approved start need not be the latest one: the store keeps an approval after the resume that used it, so a
   * thread started again is accepted on the next resume whatever its new run found, unless that run posts a new review.
   */
  lemma RestartReusesApproval(sys: System, restart: Event, a: Answers, p: Packs, glob: PolicyEngine.Matcher)
    requires restart.Start? && restart.submission.threadId in sys.reviews
    requires sys.reviews[restart.submission.threadId].decision == Some(Reviews.Approved)
    ensures var t := restart.submission.threadId;
            var after := Step(Step(sys, restart, glob), Resume(t, a, p), glob).checkpoints;
            t in after && (after[t].status == Status.Accepted <==> !PostsReview(sys, restart, glob))
  {
    var t, again := restart.submission.threadId, Step(sys, restart, glob);
    StepView(sys, restart, t, glob);
    StepView(again, Resume(t, a, p), t, glob);
    assert t in again.checkpoints;
    if Reviews.Forwarded(again.reviews, t).Ok? {
      ForwardedResume(again, Resume(t, a, p), glob);
    }
  }

  /** A patch of a protected file. */
  const PROTECTED_PATCH := Submission("t", "o", ["A"], map["A" := "x"], None, None)

  lemma ProtectedPatchIsJudged(glob: PolicyEngine.Matcher)
    ensures var ev := Gathered(Requested(PROTECTED_PATCH, None), GOOD_ANSWERS);
            PolicyEngine.Judge(glob, DEFAULT_PACK, ev).verdict == NeedsReview
  {
    var q := Requested(PROTECTED_PATCH, None);
    var ev := Gathered(q, GOOD_ANSWERS);
    assert "A" in q.patch && "A" in q.protectedPaths;
    GateShows(q);
    PolicyEngine.AcceptedIffClear(glob, DEFAULT_PACK, ev);
    PolicyEngine.AdmittedEvidence(glob, DEFAULT_PACK, ev);
  }

  /** With good answers its run asks for a human, and posts the review. */
  lemma ProtectedPatchIsPosted(glob: PolicyEngine.Matcher)
    ensures PostsReview(EMPTY, Start(PROTECTED_PATCH, GOOD_ANSWERS, Packs(map[], None)), glob)
  {
    ProtectedPatchIsJudged(glob);
    FirstRunOutcome(Requested(PROTECTED_PATCH, None), GOOD_ANSWERS, Deployed(Packs(map[], None), glob));
  }

  /** A review, its approval and a resume; then the thread is started again, and resumed. */
  function Restarted(restart: Event, a: Answers, p: Packs): seq<Event> {
    [ Start(PROTECTED_PATCH, GOOD_ANSWERS, Packs(map[], None)), Decide("t", Reviews.Approved), Resume("t", a, p),
      restart, Resume("t", a, p) ]
  }

  lemma FirstFact(log: seq<Event>, t: string, glob: PolicyEngine.Matcher)
    requires log != [] && log[0] == Start(PROTECTED_PATCH, GOOD_ANSWERS, Packs(map[], None)) && t == "t"
    ensures Approvals.PostedAt(Facts(log, t, glob), 0)
  {
    ProtectedPatchIsPosted(glob);
    assert After(log, 0, glob) == EMPTY;
  }

  lemma FailedStartPostsNothing(log: seq<Event>, t: string, s: int, glob: PolicyEngine.Matcher)
    requires 0 <= s < |log| && log[s].Start? && log[s].answers.session != Some("") && !ChecksOk(log[s])
    ensures !Approvals.PostedAt(Facts(log, t, glob), s)
  {
    StartFacts(After(log, s, glob), log[s], glob);
  }

  lemma DecisionFact(log: seq<Event>, t: string, k: int, glob: PolicyEngine.Matcher)
    requires 0 <= k < |log|
    ensures log[k] == Decide(t, Reviews.Approved) ==> Facts(log, t, glob)[k] == Approvals.Decided(Reviews.Approved)
    ensures log[k].Resume? && log[k].thread == t ==> Facts(log, t, glob)[k] == Approvals.Resumed
    ensures log[k].Start? ==> !Facts(log, t, glob)[k].Decided?
  {
  }

  /** From the empty system, whatever the restart submits: though its checks are not ok, the thread ends accepted. */
  lemma FailedRestartIsAccepted(restart: Event, a: Answers, p: Packs, glob: PolicyEngine.Matcher)
    requires restart.Start? && restart.submission.threadId == "t" && restart.answers.session != Some("")
    requires !ChecksOk(restart)
    ensures var after := After(Restarted(restart, a, p), 5, glob).checkpoints;
            "t" in after && after["t"].status == Status.Accepted
  {
    var log, t := Restarted(restart, a, p), "t";
    FirstFact(log, t, glob);
    FailedStartPostsNothing(log, t, 3, glob);
    DecisionFact(log, t, 1, glob);
    DecisionFact(log, t, 2, glob);
    DecisionFact(log, t, 3, glob);
    DecisionFact(log, t, 4, glob);
    ReusedAt4(Facts(log, t, glob));
    AfterView(log, t, 5, glob);
  }

  lemma ReusedAt4(fs: seq<Approvals.Fact>)
    requires |fs| == 5 && Approvals.PostedAt(fs, 0) && fs[1] == Approvals.Decided(Reviews.Approved) && fs[2].Resumed?
    requires !fs[3].Decided? && !Approvals.PostedAt(fs, 3) && fs[4].Resumed?
    ensures Approvals.After(fs, 5).accepted
  {
    assert Approvals.DecidedOn(fs, 0, 1, 4);
    Approvals.ApprovalIsReused(fs, 0, 1, 4);
  }

  // ---- Protected paths -----------------------------------------------------

  /**
   * A thread whose latest start touches a protected path is accepted only through a resume after it, on a human's
   * approval; and if that start posted its review, it is that review which was approved.
   */
  lemma ProtectedNeedsHuman(log: seq<Event>, t: string, start: nat, n: nat, glob: PolicyEngine.Matcher)
    requires n <= |log| && Approvals.LatestBegun(Facts(log, t, glob), start, n)
    requires TouchesProtected(RequestOf(After(log, start, glob), log[start]))
    requires var sys := After(log, n, glob); t in sys.checkpoints && sys.checkpoints[t].status == Status.Accepted
    ensures Approvals.HumanAfter(Facts(log, t, glob), start, n)
  {
    AfterView(log, t, n, glob);
    ProtectedNotAccepted(After(log, start, glob), log[start], glob);
    Approvals.NotByStart(Facts(log, t, glob), start, n);
  }

  lemma ProtectedNotAccepted(sys: System, ev: Event, glob: PolicyEngine.Matcher)
    requires ev.Start? && TouchesProtected(RequestOf(sys, ev))
    ensures StartRun(sys, ev, glob).state.status != Status.Accepted
  {
    var st := MakeInitialState(RequestOf(sys, ev));
    if StartRun(sys, ev, glob).finished {
      GatedPatchNeverAccepted(st, ev.answers, ev.packs, glob);
    } else {
      CutShortNotAccepted(InitEnvironment, st, ev.answers, Deployed(ev.packs, glob));
    }
  }

  // ---- Policy's own acceptance ---------------------------------------------

  /** A start whose policy decision is acceptance ends accepted. */
  lemma PolicyAcceptsOnlyAccepted(sys: System, ev: Event, glob: PolicyEngine.Matcher)
    requires PolicySaid(sys, ev, Verdict.Accepted, glob)
    ensures StartRun(sys, ev, glob).finished && StartRun(sys, ev, glob).state.status == Status.Accepted
  {
    DeployedRefuses(ev.packs, glob);
    AcceptanceFinishes(InitEnvironment, MakeInitialState(RequestOf(sys, ev)), ev.answers, Deployed(ev.packs, glob));
  }

  /** At policy review, a decision to accept goes on to finalize. */
  lemma ReviewFinishes(st: State, a: Answers, d: Deployment)
    ensures var r := RunFrom(PolicyReview, st, a, d);
            r.state.policy.Some? && r.state.policy.value.verdict == Verdict.Accepted ==>
              r.finished && r.state.status == Status.Accepted
  {
    var s := Apply(PolicyReview, st, a, d).state;
    if Next(PolicyReview, s).Some? {
      RunStep(PolicyReview, st, a, d);
      if Next(PolicyReview, s).value == InterruptForApproval {
        InterruptEnds(s, a, d);
      } else {
        FinalizeEnds(s, a, d);
      }
    }
  }

  lemma {:induction false} AcceptanceFinishes(n: Node, st: State, a: Answers, d: Deployment)
    requires RefusalsRefuse(d) && (Upstream(n) || n == PolicyReview)
    requires st.policy.None? || st.policy.value.verdict in {Verdict.Rejected, Blocked}
    ensures var r := RunFrom(n, st, a, d);
            r.state.policy.Some? && r.state.policy.value.verdict == Verdict.Accepted ==>
              r.finished && r.state.status == Status.Accepted
    decreases Rank(n)
  {
    if n == PolicyReview {
      ReviewFinishes(st, a, d);
    } else if Apply(n, st, a, d).Updated? {
      UpstreamNext(n, st, a, d);
      RunStep(n, st, a, d);
      PolicyKept(n, st, a, d);
      var s := Apply(n, st, a, d).state;
      if Next(n, s).value in {RepairFromDiagnostics, RepairFromGoals} {
        RepairEnds(Next(n, s).value, s, a, d);
      } else {
        AcceptanceFinishes(Next(n, s).value, s, a, d);
      }
    }
  }

  /** Upstream of policy review, the only decision a node makes is to refuse. */
  lemma PolicyKept(n: Node, st: State, a: Answers, d: Deployment)
    requires RefusalsRefuse(d) && Upstream(n) && Apply(n, st, a, d).Updated?
    ensures var s := Apply(n, st, a, d).state;
            s.policy == st.policy || (s.policy.Some? && s.policy.value.verdict in {Verdict.Rejected, Blocked})
  {
  }
}
