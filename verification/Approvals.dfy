/**
 * One thread's life reduced to what bears on its acceptance: starts, decisions and resumes. Exactly which of them
 * an accepted thread owes its acceptance to.
 */
module Approvals {
  import opened Wrappers
  import Reviews

  /** What an event means to one thread; `Elsewhere` is an event of another one. */
  datatype Fact = Begun(accepted: bool, posted: bool) | Decided(choice: Reviews.Choice) | Resumed | Elsewhere

  /** Whether the thread stands accepted, and the decision on its review, if it has one. */
  datatype Standing = Standing(accepted: bool, review: Option<Option<Reviews.Choice>>)

  const FRESH := Standing(false, None)

  function Next(v: Standing, f: Fact): Standing {
    match f
    case Begun(accepted, posted) => Standing(accepted, if posted then Some(None) else v.review)
    case Decided(choice) => if v.review.Some? then v.(review := Some(Some(choice))) else v
    case Resumed => if v.review.Some? && v.review.value.Some? then v.(accepted := v.review.value.value.Approved?) else v
    case Elsewhere => v
  }

  function After(fs: seq<Fact>, n: nat): Standing
    requires n <= |fs|
  {
    if n == 0 then FRESH else Next(After(fs, n - 1), fs[n - 1])
  }

  lemma AfterNext(fs: seq<Fact>, m: nat, n: nat)
    requires m + 1 == n <= |fs|
    ensures After(fs, n) == Next(After(fs, m), fs[m])
  {
  }

  // ---- The review that stands ----------------------------------------------

  predicate PostedAt(fs: seq<Fact>, s: int) {
    0 <= s < |fs| && fs[s].Begun? && fs[s].posted
  }

  /** The latest review posted before `n` is that of the start at `s`. */
  ghost predicate Stands(fs: seq<Fact>, s: int, n: int) {
    PostedAt(fs, s) && s < n <= |fs| && forall m | s < m < n :: !PostedAt(fs, m)
  }

  /** The latest decision before `n`, at `k`, is on the review posted at `s`. */
  ghost predicate DecidedOn(fs: seq<Fact>, s: int, k: int, n: int) {
    Stands(fs, s, n) && s < k < n && fs[k].Decided? && forall m | k < m < n :: !fs[m].Decided?
  }

  ghost predicate Undecided(fs: seq<Fact>, s: int, n: int) {
    Stands(fs, s, n) && forall m | s < m < n :: !fs[m].Decided?
  }

  /** Where the stored review comes from. */
  ghost predicate ReviewFrom(fs: seq<Fact>, n: nat, review: Option<Option<Reviews.Choice>>) {
    match review
    case None => forall s | 0 <= s < n :: !PostedAt(fs, s)
    case Some(None) => exists s :: Undecided(fs, s, n)
    case Some(Some(c)) => exists s, k :: DecidedOn(fs, s, k, n) && fs[k].choice == c
  }

  lemma Poster(fs: seq<Fact>, n: nat, review: Option<Option<Reviews.Choice>>) returns (s: int)
    requires ReviewFrom(fs, n, review) && review.Some?
    ensures Stands(fs, s, n)
  {
    if review.value.None? {
      s :| Undecided(fs, s, n);
    } else {
      var k;
      s, k :| DecidedOn(fs, s, k, n) && fs[k].choice == review.value.value;
    }
  }

  lemma {:induction false} ReviewMeans(fs: seq<Fact>, n: nat)
    requires n <= |fs|
    ensures ReviewFrom(fs, n, After(fs, n).review)
  {
    if n > 0 {
      var m: nat := n - 1;
      var before := After(fs, m).review;
      ReviewMeans(fs, m);
      if PostedAt(fs, m) {
        assert Undecided(fs, m, n);
      } else if fs[m].Decided? && before.Some? {
        var s := Poster(fs, m, before);
        assert DecidedOn(fs, s, m, n) && fs[m].choice == After(fs, n).review.value.value;
      } else if before == Some(None) {
        var s :| Undecided(fs, s, m);
        assert Undecided(fs, s, n);
      } else if before.Some? {
        var s, k :| DecidedOn(fs, s, k, m) && fs[k].choice == before.value.value;
        assert DecidedOn(fs, s, k, n);
      }
    }
  }

  /** The history determines what is stored, so this works both ways. */
  lemma ReviewIff(fs: seq<Fact>, n: nat, review: Option<Option<Reviews.Choice>>)
    requires n <= |fs|
    ensures After(fs, n).review == review <==> ReviewFrom(fs, n, review)
  {
    ReviewMeans(fs, n);
    if ReviewFrom(fs, n, review) {
      match review {
        case None =>
        case Some(None) =>
          var s :| Undecided(fs, s, n);
        case Some(Some(c)) =>
          var s, k :| DecidedOn(fs, s, k, n) && fs[k].choice == c;
      }
    }
  }

  /** A decision is stored exactly when the latest one is on the review that stands. */
  lemma DecisionStored(fs: seq<Fact>, s: int, k: int, n: nat)
    requires n <= |fs| && DecidedOn(fs, s, k, n)
    ensures After(fs, n).review == Some(Some(fs[k].choice))
  {
    ReviewMeans(fs, n);
  }

  // ---- What acceptance is owed to ------------------------------------------

  /** Events that settle whether the thread is accepted: starts, and resumes of a decided review. */
  ghost predicate Settles(fs: seq<Fact>, m: int) {
    0 <= m < |fs| && (fs[m].Begun? || (fs[m].Resumed? && exists s, k :: DecidedOn(fs, s, k, m)))
  }

  /** The latest event to settle it was an accepted start, at `s`. */
  ghost predicate ByPolicy(fs: seq<Fact>, s: int, n: int) {
    0 <= s < n <= |fs| && fs[s].Begun? && fs[s].accepted && forall m | s < m < n :: !Settles(fs, m)
  }

  /** It was the resume at `r`, when the latest decision, at `k`, approved the review posted by the start at `s`. */
  ghost predicate ByHuman(fs: seq<Fact>, s: int, k: int, r: int, n: int) {
    && 0 <= r < n <= |fs| && fs[r].Resumed? && (forall m | r < m < n :: !Settles(fs, m))
    && DecidedOn(fs, s, k, r) && fs[k].choice.Approved?
  }

  lemma SettlesIff(fs: seq<Fact>, m: nat)
    requires m < |fs| && fs[m].Resumed?
    ensures Settles(fs, m) <==> After(fs, m).review.Some? && After(fs, m).review.value.Some?
  {
    ReviewMeans(fs, m);
    if s, k :| DecidedOn(fs, s, k, m) {
      DecisionStored(fs, s, k, m);
    }
  }

  lemma {:induction false} Unsettled(fs: seq<Fact>, j: nat, n: nat)
    requires j <= n <= |fs| && forall m | j <= m < n :: !Settles(fs, m)
    ensures After(fs, n).accepted == After(fs, j).accepted
    decreases n
  {
    if j < n {
      Unsettled(fs, j, n - 1);
      assert !Settles(fs, n - 1);
      if fs[n - 1].Resumed? {
        SettlesIff(fs, n - 1);
      }
    }
  }

  lemma {:induction false} OwedToSomeone(fs: seq<Fact>, n: nat)
    requires n <= |fs| && After(fs, n).accepted
    ensures (exists s :: ByPolicy(fs, s, n)) || (exists s, k, r :: ByHuman(fs, s, k, r, n))
  {
    var m: nat := n - 1;
    if fs[m].Begun? {
      assert ByPolicy(fs, m, n);
    } else if Settles(fs, m) {
      SettlesIff(fs, m);
      ReviewMeans(fs, m);
      var s, k :| DecidedOn(fs, s, k, m) && fs[k].choice == After(fs, m).review.value.value;
      assert ByHuman(fs, s, k, m, n);
    } else {
      Unsettled(fs, m, n);
      OwedToSomeone(fs, m);
      if s :| ByPolicy(fs, s, m) {
        assert ByPolicy(fs, s, n);
      } else {
        var s, k, r :| ByHuman(fs, s, k, r, m);
        assert ByHuman(fs, s, k, r, n);
      }
    }
  }

  /**
   * A thread stands accepted exactly when the latest event to settle it was an accepted start, or a resume while the
   * latest decision on the latest posted review was an approval.
   */
  lemma AcceptedIff(fs: seq<Fact>, n: nat)
    requires n <= |fs|
    ensures After(fs, n).accepted <==>
            (exists s :: ByPolicy(fs, s, n)) || (exists s, k, r :: ByHuman(fs, s, k, r, n))
  {
    if After(fs, n).accepted {
      OwedToSomeone(fs, n);
    } else if s :| ByPolicy(fs, s, n) {
      Unsettled(fs, s + 1, n);
    } else if s, k, r :| ByHuman(fs, s, k, r, n) {
      DecisionStored(fs, s, k, r);
      Unsettled(fs, r + 1, n);
    }
  }

  ghost predicate LatestBegun(fs: seq<Fact>, s: int, n: int) {
    0 <= s < n <= |fs| && fs[s].Begun? && forall m | s < m < n :: !fs[m].Begun?
  }

  /**
   * Acceptance is owed to a human's approval and a resume after the given start; the approval is of that start's own
   * review if it posted one.
   */
  ghost predicate HumanAfter(fs: seq<Fact>, start: nat, n: nat)
    requires start < |fs| && fs[start].Begun?
  {
    exists s, k, r :: ByHuman(fs, s, k, r, n) && s <= start < r && (fs[start].posted ==> s == start)
  }

  /**
   * When the latest start was not accepted, acceptance is owed to a human: a resume after that start, on an approval
   * of the review that stood, which is that start's own if it posted one.
   */
  lemma NotByStart(fs: seq<Fact>, start: nat, n: nat)
    requires LatestBegun(fs, start, n) && !fs[start].accepted && After(fs, n).accepted
    ensures HumanAfter(fs, start, n)
  {
    AcceptedIff(fs, n);
    if s :| ByPolicy(fs, s, n) {
      assert s < start ==> Settles(fs, start);
    } else {
      var s, k, r :| ByHuman(fs, s, k, r, n);
      assert r < start ==> Settles(fs, start);
      assert s < start && fs[start].posted ==> PostedAt(fs, start);
    }
  }

  /** An approval outlives the resume that used it: until a new review is posted, every further resume accepts again. */
  lemma ApprovalIsReused(fs: seq<Fact>, s: int, k: int, r: nat)
    requires r < |fs| && fs[r].Resumed? && DecidedOn(fs, s, k, r) && fs[k].choice.Approved?
    ensures After(fs, r + 1).accepted
  {
    DecisionStored(fs, s, k, r);
  }
}
