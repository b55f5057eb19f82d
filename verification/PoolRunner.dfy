/**
 * The semaphore around a runner, as steps of any number of concurrent callers: each call waits for a permit,
 * runs the inner runner, which returns or raises, and gives the permit back either way.
 */
module PoolRunner {
  import opened Wrappers

  type Caller = nat

  datatype Outcome = Returned(output: string) | Raised(error: string)

  /** `Leaving` is between the end of the inner run and the release in the `finally` block. */
  datatype Phase = Waiting | InFlight | Leaving(inner: Outcome) | Done(outcome: Outcome)

  datatype Pool = Pool(permits: nat, calls: map<Caller, Phase>)

  datatype Step = Call(c: Caller) | Acquire(c: Caller) | InnerEnds(c: Caller, inner: Outcome) | Release(c: Caller)

  /**
   * The limit taken from the environment, where `raw` is `None` if unset or not a number; `None` leaves the runner as
   * it is.
   */
  function PoolLimit(raw: Option<int>): Option<nat> {
    if raw.None? || raw.value < 1 then None else Some(raw.value)
  }

  predicate Enabled(s: Pool, step: Step) {
    match step
    case Call(c) => c !in s.calls
    case Acquire(c) => c in s.calls && s.calls[c].Waiting? && s.permits > 0
    case InnerEnds(c, _) => c in s.calls && s.calls[c].InFlight?
    case Release(c) => c in s.calls && s.calls[c].Leaving?
  }

  function Apply(s: Pool, step: Step): Pool
    requires Enabled(s, step)
  {
    match step
    case Call(c) => s.(calls := s.calls[c := Waiting])
    case Acquire(c) => Pool(s.permits - 1, s.calls[c := InFlight])
    case InnerEnds(c, inner) => s.(calls := s.calls[c := Leaving(inner)])
    case Release(c) => Pool(s.permits + 1, s.calls[c := Done(s.calls[c].inner)])
  }

  /** The steps can be taken one after the other. */
  predicate Runs(s: Pool, steps: seq<Step>)
    decreases |steps|
  {
    steps == [] || (Enabled(s, steps[0]) && Runs(Apply(s, steps[0]), steps[1..]))
  }

  function After(s: Pool, steps: seq<Step>): Pool
    requires Runs(s, steps)
    decreases |steps|
  {
    if steps == [] then s else After(Apply(s, steps[0]), steps[1..])
  }

  function Running(s: Pool): set<Caller> {
    set c | c in s.calls && s.calls[c].InFlight?
  }

  /** Callers that hold a permit: those running, and those about to give it back. */
  function Holders(s: Pool): set<Caller> {
    set c | c in s.calls && (s.calls[c].InFlight? || s.calls[c].Leaving?)
  }

  predicate AllDone(s: Pool) {
    forall c | c in s.calls :: s.calls[c].Done?
  }

  lemma OneMore(more: set<Caller>, less: set<Caller>, c: Caller)
    requires c !in less && more == less + {c}
    ensures |more| == |less| + 1
  {
  }

  /** Permits, and how many callers hold one. */
  function Total(s: Pool): nat {
    s.permits + |Holders(s)|
  }

  lemma CallConserves(s: Pool, c: Caller)
    requires Enabled(s, Call(c))
    ensures Total(Apply(s, Call(c))) == Total(s)
  {
    assert Holders(Apply(s, Call(c))) == Holders(s);
  }

  lemma AcquireConserves(s: Pool, c: Caller)
    requires Enabled(s, Acquire(c))
    ensures Total(Apply(s, Acquire(c))) == Total(s)
  {
    OneMore(Holders(Apply(s, Acquire(c))), Holders(s), c);
  }

  lemma InnerEndsConserves(s: Pool, c: Caller, inner: Outcome)
    requires Enabled(s, InnerEnds(c, inner))
    ensures Total(Apply(s, InnerEnds(c, inner))) == Total(s)
  {
    assert Holders(Apply(s, InnerEnds(c, inner))) == Holders(s);
  }

  lemma ReleaseConserves(s: Pool, c: Caller)
    requires Enabled(s, Release(c))
    ensures Total(Apply(s, Release(c))) == Total(s)
  {
    OneMore(Holders(s), Holders(Apply(s, Release(c))), c);
  }

  lemma StepConserves(s: Pool, step: Step)
    requires Enabled(s, step)
    ensures Total(Apply(s, step)) == Total(s)
  {
    match step {
      case Call(c) => CallConserves(s, c);
      case Acquire(c) => AcquireConserves(s, c);
      case InnerEnds(c, inner) => InnerEndsConserves(s, c, inner);
      case Release(c) => ReleaseConserves(s, c);
    }
  }

  /** Free permits and permits held always add up to the limit. */
  lemma {:induction false} PermitsConserved(s: Pool, steps: seq<Step>)
    requires Runs(s, steps)
    ensures Total(After(s, steps)) == Total(s)
    decreases |steps|
  {
    if steps != [] {
      StepConserves(s, steps[0]);
      PermitsConserved(Apply(s, steps[0]), steps[1..]);
    }
  }

  lemma SubsetSize(a: set<Caller>, b: set<Caller>)
    requires a <= b
    ensures |a| <= |b|
  {
    assert b == a + (b - a);
  }

  /**
   * However calls interleave, and whether or not their inner runs raise: at most `limit` are in flight, and once
   * every call has ended, all permits are back.
   */
  lemma PoolIsLimited(limit: nat, steps: seq<Step>)
    requires Runs(Pool(limit, map[]), steps)
    ensures var s := After(Pool(limit, map[]), steps);
            && |Running(s)| <= limit
            && s.permits <= limit
            && (AllDone(s) ==> s.permits == limit)
  {
    var s := After(Pool(limit, map[]), steps);
    PermitsConserved(Pool(limit, map[]), steps);
    assert Holders(Pool(limit, map[])) == {};
    SubsetSize(Running(s), Holders(s));
    assert AllDone(s) ==> Holders(s) == {};
  }

  /** Only calls, and acquisitions by them: the start of as many runs as there are permits. */
  function Filling(n: nat): seq<Step> {
    if n == 0 then [] else Filling(n - 1) + [Call(n - 1), Acquire(n - 1)]
  }

  lemma {:induction false} RunsConcat(s: Pool, a: seq<Step>, b: seq<Step>)
    requires Runs(s, a) && Runs(After(s, a), b)
    ensures Runs(s, a + b) && After(s, a + b) == After(After(s, a), b)
    decreases |a|
  {
    if a == [] {
      assert a + b == b;
    } else {
      assert (a + b)[1..] == a[1..] + b;
      RunsConcat(Apply(s, a[0]), a[1..], b);
    }
  }

  /** With `n` calls in flight, no later one has been made. */
  ghost predicate Filled(s: Pool, n: nat) {
    |Running(s)| == n && forall c | c in s.calls :: c < n
  }

  lemma {:induction false} Fills(limit: nat, n: nat)
    requires n <= limit
    ensures Runs(Pool(limit, map[]), Filling(n))
    ensures After(Pool(limit, map[]), Filling(n)).permits == limit - n
    ensures Filled(After(Pool(limit, map[]), Filling(n)), n)
  {
    if n == 0 {
      assert Running(Pool(limit, map[])) == {};
    } else {
      var m := n - 1;
      Fills(limit, m);
      var s := After(Pool(limit, map[]), Filling(m));
      OneMoreRuns(s, m);
      RunsConcat(Pool(limit, map[]), Filling(m), [Call(m), Acquire(m)]);
    }
  }

  lemma OneMoreRuns(s: Pool, m: nat)
    requires Filled(s, m) && s.permits > 0
    ensures Runs(s, [Call(m), Acquire(m)])
    ensures var s' := After(s, [Call(m), Acquire(m)]); Filled(s', m + 1) && s'.permits == s.permits - 1
  {
    var called, two := Apply(s, Call(m)), [Call(m), Acquire(m)];
    var acquired := Apply(called, Acquire(m));
    assert two[1..] == [Acquire(m)] && two[1..][1..] == [];
    assert After(acquired, []) == acquired;
    assert After(called, [Acquire(m)]) == acquired;
    OneMore(Running(acquired), Running(s), m);
  }

  /**
   * A number of at least one in the environment is the limit, and it is reached: that many can be in flight at once,
   * and never more. Anything else there leaves the runner unwrapped.
   */
  lemma LimitIsGiven(n: int)
    ensures PoolLimit(None) == None && (n < 1 ==> PoolLimit(Some(n)) == None)
    ensures n >= 1 ==>
              && PoolLimit(Some(n)) == Some(n)
              && (exists steps :: Runs(Pool(n, map[]), steps) && |Running(After(Pool(n, map[]), steps))| == n)
              && forall steps | Runs(Pool(n, map[]), steps) :: |Running(After(Pool(n, map[]), steps))| <= n
  {
    if n >= 1 {
      Fills(n, n);
      forall steps | Runs(Pool(n, map[]), steps)
        ensures |Running(After(Pool(n, map[]), steps))| <= n
      {
        PoolIsLimited(n, steps);
      }
    }
  }

  // ---- Nobody is left waiting ----------------------------------------------

  /** A wrapped runner has a positive limit, so it never gets stuck: while a call is open, some step is possible. */
  lemma NeverStuck(raw: Option<int>, steps: seq<Step>)
    requires PoolLimit(raw).Some? && Runs(Pool(PoolLimit(raw).value, map[]), steps)
    ensures var s := After(Pool(PoolLimit(raw).value, map[]), steps);
            AllDone(s) || exists step: Step :: !step.Call? && Enabled(s, step)
  {
    var limit := PoolLimit(raw).value;
    var s := After(Pool(limit, map[]), steps);
    PermitsConserved(Pool(limit, map[]), steps);
    assert Holders(Pool(limit, map[])) == {};
    if c :| c in Holders(s) {
      assert Enabled(s, if s.calls[c].InFlight? then InnerEnds(c, Returned("")) else Release(c));
    } else if c :| c in s.calls && !s.calls[c].Done? {
      assert Holders(s) == {} && c !in Holders(s);
      assert Enabled(s, Acquire(c));
    }
  }

  function Queue(s: Pool): set<Caller> {
    set c | c in s.calls && s.calls[c].Waiting?
  }

  function Exiting(s: Pool): set<Caller> {
    set c | c in s.calls && s.calls[c].Leaving?
  }

  /** The steps the open calls still have to take. */
  function Work(s: Pool): nat {
    3 * |Queue(s)| + 2 * |Running(s)| + |Exiting(s)|
  }

  lemma AcquireDoesWork(s: Pool, c: Caller)
    requires Enabled(s, Acquire(c))
    ensures Work(Apply(s, Acquire(c))) == Work(s) - 1
  {
    var s' := Apply(s, Acquire(c));
    OneMore(Queue(s), Queue(s'), c);
    OneMore(Running(s'), Running(s), c);
    assert Exiting(s') == Exiting(s);
  }

  lemma InnerEndsDoesWork(s: Pool, c: Caller, inner: Outcome)
    requires Enabled(s, InnerEnds(c, inner))
    ensures Work(Apply(s, InnerEnds(c, inner))) == Work(s) - 1
  {
    var s' := Apply(s, InnerEnds(c, inner));
    assert Queue(s') == Queue(s);
    OneMore(Running(s), Running(s'), c);
    OneMore(Exiting(s'), Exiting(s), c);
  }

  lemma ReleaseDoesWork(s: Pool, c: Caller)
    requires Enabled(s, Release(c))
    ensures Work(Apply(s, Release(c))) == Work(s) - 1
  {
    var s' := Apply(s, Release(c));
    assert Queue(s') == Queue(s) && Running(s') == Running(s);
    OneMore(Exiting(s), Exiting(s'), c);
  }

  lemma StepDoesWork(s: Pool, step: Step)
    requires Enabled(s, step) && !step.Call?
    ensures Work(Apply(s, step)) == Work(s) - 1
  {
    match step {
      case Acquire(c) => AcquireDoesWork(s, c);
      case InnerEnds(c, inner) => InnerEndsDoesWork(s, c, inner);
      case Release(c) => ReleaseDoesWork(s, c);
    }
  }

  lemma DoneIffNoWork(s: Pool)
    ensures AllDone(s) <==> Work(s) == 0
  {
    if Work(s) == 0 {
      forall c | c in s.calls
        ensures s.calls[c].Done?
      {
        assert c !in Queue(s) && c !in Running(s) && c !in Exiting(s);
      }
    }
    if AllDone(s) {
      assert Queue(s) == {} && Running(s) == {} && Exiting(s) == {};
    }
  }

  /** Without new calls, the open ones end after exactly three steps each less those already taken, and no later. */
  lemma {:induction false} CallsEnd(s: Pool, steps: seq<Step>)
    requires Runs(s, steps) && forall step: Step | step in steps :: !step.Call?
    ensures |steps| + Work(After(s, steps)) == Work(s)
    ensures AllDone(After(s, steps)) <==> |steps| == Work(s)
    decreases |steps|
  {
    if steps == [] {
      DoneIffNoWork(s);
    } else {
      StepDoesWork(s, steps[0]);
      CallsEnd(Apply(s, steps[0]), steps[1..]);
    }
  }

  /** A call ends with what its own inner run came to. */
  lemma {:induction false} OutcomeIsInner(s: Pool, steps: seq<Step>, c: Caller, outcome: Outcome)
    requires Runs(s, steps) && (c in s.calls ==> s.calls[c].Waiting? || s.calls[c].InFlight?)
    requires c in After(s, steps).calls && After(s, steps).calls[c] == Done(outcome)
    ensures InnerEnds(c, outcome) in steps
    decreases |steps|
  {
    var step := steps[0];
    assert steps == [step] + steps[1..];
    if step.InnerEnds? && step.c == c {
      LeavingIsKept(Apply(s, step), steps[1..], c, step.inner, outcome);
    } else {
      OutcomeIsInner(Apply(s, step), steps[1..], c, outcome);
    }
  }

  lemma {:induction false} LeavingIsKept(s: Pool, steps: seq<Step>, c: Caller, inner: Outcome, outcome: Outcome)
    requires Runs(s, steps) && c in s.calls && s.calls[c] in {Leaving(inner), Done(inner)}
    requires c in After(s, steps).calls && After(s, steps).calls[c] == Done(outcome)
    ensures outcome == inner
    decreases |steps|
  {
    if steps != [] {
      LeavingIsKept(Apply(s, steps[0]), steps[1..], c, inner, outcome);
    }
  }
}
