/** The review routes over any interleaving of calls on any number of threads: what a resume forwards, and when. */
module ReviewHistory {
  import opened Wrappers
  import opened Reviews
  import Approvals

  /** The store after the first `n` calls. */
  function After(calls: seq<Call>, n: nat): Store
    requires n <= |calls|
  {
    if n == 0 then map[] else Next(After(calls, n - 1), calls[n - 1])
  }

  /** What a call means to one thread; putting a review is all a start does here. */
  function FactOf(call: Call, t: string): Approvals.Fact {
    if call.thread != t then Approvals.Elsewhere
    else match call
      case Create(_, _) => Approvals.Begun(false, true)
      case Decide(_, choice) => Approvals.Decided(choice)
      case Resume(_) => Approvals.Resumed
  }

  function Facts(calls: seq<Call>, t: string): (fs: seq<Approvals.Fact>)
    ensures |fs| == |calls|
  {
    seq(|calls|, i requires 0 <= i < |calls| => FactOf(calls[i], t))
  }

  lemma {:induction false} StoreFollows(calls: seq<Call>, t: string, n: nat)
    requires n <= |calls|
    ensures var store := After(calls, n);
            Approvals.After(Facts(calls, t), n).review == if t in store then Some(store[t].decision) else None
  {
    if n > 0 {
      StoreFollows(calls, t, n - 1);
    }
  }

  /**
   * A resume forwards exactly the latest decision made on the thread's latest review, and is refused exactly when no
   * review was put, or nothing was decided since the latest one.
   */
  lemma ResumeForwardsLatestDecision(calls: seq<Call>, t: string, n: nat)
    requires n <= |calls|
    ensures var (answer, fs) := (Forwarded(After(calls, n), t), Facts(calls, t));
            && (answer == Err(NotFound) <==> forall s | 0 <= s < n :: !Approvals.PostedAt(fs, s))
            && (answer == Err(BadRequest) <==> exists s :: Approvals.Undecided(fs, s, n))
            && (forall c :: answer == Ok(c) <==> exists s, k :: Approvals.DecidedOn(fs, s, k, n) && fs[k].choice == c)
  {
    var fs := Facts(calls, t);
    StoreFollows(calls, t, n);
    Approvals.ReviewIff(fs, n, None);
    Approvals.ReviewIff(fs, n, Some(None));
    forall c
      ensures Forwarded(After(calls, n), t) == Ok(c) <==>
              exists s, k :: Approvals.DecidedOn(fs, s, k, n) && fs[k].choice == c
    {
      Approvals.ReviewIff(fs, n, Some(Some(c)));
    }
  }
}
