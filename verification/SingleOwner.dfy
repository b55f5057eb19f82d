/** The per-task owner chain of delegations, and how interleaving tasks leaves its verdict alone. */
module SingleOwner {
  import opened Wrappers

  /** `recipient` is the payload's `to_agent_id`; only delegations matter here. */
  datatype Event = Event(isDelegate: bool, actor: string, task: string, recipient: Option<string>)

  const REASON := "multiple_active_owners"

  /** A delegation without a recipient hands the task to an agent spelled "None". */
  function Receiver(e: Event): string {
    if e.recipient.Some? then e.recipient.value else "None"
  }

  /** The index of the latest delegation of `task` before `n`. */
  ghost predicate LatestDelegation(es: seq<Event>, task: string, i: int, n: int) {
    && 0 <= i < n <= |es| && es[i].isDelegate && es[i].task == task
    && forall k | i < k < n :: !(es[k].isDelegate && es[k].task == task)
  }

  /** Event `j` delegates a task its actor does not own. */
  ghost predicate Violation(es: seq<Event>, j: nat)
    requires j < |es|
  {
    es[j].isDelegate && exists i :: LatestDelegation(es, es[j].task, i, j) && Receiver(es[i]) != es[j].actor
  }

  ghost function Violations(es: seq<Event>): nat {
    if es == [] then 0 else Violations(es[..|es| - 1]) + if Violation(es, |es| - 1) then 1 else 0
  }

  // ---- One task at a time --------------------------------------------------

  /** The events of one task, in order. */
  ghost function Project(es: seq<Event>, task: string): seq<Event> {
    if es == [] then []
    else
      var last := es[|es| - 1];
      Project(es[..|es| - 1], task) + if last.task == task then [last] else []
  }

  /** The owner the delegations of a task leave behind. */
  ghost function OwnerAfter(es: seq<Event>, task: string): Option<string> {
    if es == [] then None
    else
      var last := es[|es| - 1];
      if last.isDelegate && last.task == task then Some(Receiver(last)) else OwnerAfter(es[..|es| - 1], task)
  }

  lemma {:induction false} OwnerAfterLatest(es: seq<Event>, task: string, n: nat)
    requires n <= |es|
    ensures OwnerAfter(es[..n], task).None? ==> forall i :: !LatestDelegation(es, task, i, n)
    ensures OwnerAfter(es[..n], task).Some? ==>
              exists i :: LatestDelegation(es, task, i, n) && Receiver(es[i]) == OwnerAfter(es[..n], task).value
    ensures forall i | LatestDelegation(es, task, i, n) :: OwnerAfter(es[..n], task) == Some(Receiver(es[i]))
  {
    if n > 0 {
      assert es[..n][..n - 1] == es[..n - 1];
      if es[n - 1].isDelegate && es[n - 1].task == task {
        assert LatestDelegation(es, task, n - 1, n);
      } else {
        OwnerAfterLatest(es, task, n - 1);
        assert forall i :: LatestDelegation(es, task, i, n) <==> LatestDelegation(es, task, i, n - 1);
      }
    }
  }

  lemma ViolationByOwner(es: seq<Event>, j: nat)
    requires j < |es|
    ensures var e, owner := es[j], OwnerAfter(es[..j], es[j].task);
            Violation(es, j) <==> e.isDelegate && owner.Some? && owner.value != e.actor
  {
    OwnerAfterLatest(es, es[j].task, j);
  }

  method ValidateSingleOwner(events: seq<Event>) returns (ok: bool, reasons: seq<string>)
    ensures ok <==> Violations(events) == 0
    ensures |reasons| == Violations(events) && forall r | r in reasons :: r == "multiple_active_owners"
  {
    reasons := [];
    var owners: map<string, string> := map[];
    for j := 0 to |events|
      invariant |reasons| == Violations(events[..j]) && forall r | r in reasons :: r == REASON
      invariant forall t :: OwnerAfter(events[..j], t) == if t in owners then Some(owners[t]) else None
    {
      var e := events[j];
      assert events[..j + 1][..j] == events[..j];
      ViolationByOwner(events[..j + 1], j);
      if e.isDelegate {
        if e.task in owners && owners[e.task] != e.actor {
          reasons := reasons + [REASON];
        }
        owners := owners[e.task := Receiver(e)];
      }
    }
    assert events[..|events|] == events;
    ok := |reasons| == 0;
  }

  lemma {:induction false} OwnerAfterProject(es: seq<Event>, task: string)
    ensures OwnerAfter(Project(es, task), task) == OwnerAfter(es, task)
  {
    if es != [] {
      var n := |es| - 1;
      OwnerAfterProject(es[..n], task);
      var p := Project(es, task);
      if es[n].task == task {
        assert p[..|p| - 1] == Project(es[..n], task);
      } else {
        assert p == Project(es[..n], task);
      }
    }
  }

  /** What appending one event does to a task's count: its own task sees it exactly as the whole trace does. */
  lemma ProjectStep(es: seq<Event>, task: string)
    requires es != []
    ensures var n := |es| - 1;
            Violations(Project(es, task)) ==
              Violations(Project(es[..n], task)) + if es[n].task == task && Violation(es, n) then 1 else 0
  {
    var n, p := |es| - 1, Project(es, task);
    if es[n].task == task {
      assert p[..|p| - 1] == Project(es[..n], task);
      ViolationByOwner(es, n);
      ViolationByOwner(p, |p| - 1);
      OwnerAfterProject(es[..n], task);
    } else {
      assert p == Project(es[..n], task);
    }
  }

  /** The counts of the single tasks, added up over a list of tasks. */
  ghost function SumOver(tasks: seq<string>, es: seq<Event>): nat {
    if tasks == [] then 0 else Violations(Project(es, tasks[0])) + SumOver(tasks[1..], es)
  }

  ghost predicate Distinct(tasks: seq<string>) {
    forall i, j | 0 <= i < j < |tasks| :: tasks[i] != tasks[j]
  }

  lemma {:induction false} SumStep(tasks: seq<string>, es: seq<Event>)
    requires es != [] && Distinct(tasks)
    ensures var n := |es| - 1;
            SumOver(tasks, es) == SumOver(tasks, es[..n]) + if es[n].task in tasks && Violation(es, n) then 1 else 0
  {
    if tasks != [] {
      ProjectStep(es, tasks[0]);
      SumStep(tasks[1..], es);
      assert tasks == [tasks[0]] + tasks[1..];
      assert forall t | t in tasks[1..] :: t != tasks[0];
    }
  }

  lemma {:induction false} SumOfNothing(tasks: seq<string>)
    ensures SumOver(tasks, []) == 0
  {
    if tasks != [] {
      SumOfNothing(tasks[1..]);
    }
  }

  /** The reasons of a trace are the reasons of its tasks taken alone, added up. */
  lemma {:induction false} ViolationsAddUp(es: seq<Event>, tasks: seq<string>)
    requires Distinct(tasks) && forall e | e in es :: e.task in tasks
    ensures Violations(es) == SumOver(tasks, es)
  {
    if es == [] {
      SumOfNothing(tasks);
    } else {
      SumStep(tasks, es);
      assert es[|es| - 1] in es;
      ViolationsAddUp(es[..|es| - 1], tasks);
    }
  }

  lemma {:induction false} SumDependsOnProjections(tasks: seq<string>, a: seq<Event>, b: seq<Event>)
    requires forall t :: Project(a, t) == Project(b, t)
    ensures SumOver(tasks, a) == SumOver(tasks, b)
  {
    if tasks != [] {
      SumDependsOnProjections(tasks[1..], a, b);
    }
  }

  /** All tasks of a trace, each once. */
  ghost function Tasks(es: seq<Event>): (ts: seq<string>)
    ensures Distinct(ts) && forall e | e in es :: e.task in ts
  {
    if es == [] then []
    else
      var n := |es| - 1;
      var ts := Tasks(es[..n]);
      assert es == es[..n] + [es[n]];
      if es[n].task in ts then ts else ts + [es[n].task]
  }

  /** Two interleavings that keep every task's own order get the same number of reasons. */
  lemma InterleavingKeepsCount(a: seq<Event>, b: seq<Event>)
    requires forall t :: Project(a, t) == Project(b, t)
    ensures Violations(a) == Violations(b)
  {
    var ts := Tasks(a + b);
    assert forall e | e in a :: e in a + b;
    assert forall e | e in b :: e in a + b;
    ViolationsAddUp(a, ts);
    ViolationsAddUp(b, ts);
    SumDependsOnProjections(ts, a, b);
  }

  /** The verdict is ok exactly when, task by task, each later delegation is made by the previous one's receiver. */
  lemma {:induction false} OkIffChains(es: seq<Event>, n: nat)
    requires n <= |es|
    ensures Violations(es[..n]) == 0 <==>
            forall i, j | 0 <= i < j < n && es[j].isDelegate && LatestDelegation(es, es[j].task, i, j) ::
              Receiver(es[i]) == es[j].actor
  {
    if n > 0 {
      OkIffChains(es, n - 1);
      assert es[..n][..n - 1] == es[..n - 1];
      ViolationByOwner(es[..n], n - 1);
      ViolationByOwner(es, n - 1);
    }
  }

  /** Whom a delegation hands its task to: the recipient, or an agent spelled "None" when there is none. */
  predicate HandsTo(e: Event, agent: string) {
    if e.recipient.Some? then e.recipient.value == agent else agent == "None"
  }

  /** Event `j` delegates a task that the latest earlier delegation of it, at `i`, handed to somebody else. */
  ghost predicate TakenAt(es: seq<Event>, i: int, j: int) {
    && 0 <= i < j < |es| && es[i].isDelegate && es[j].isDelegate && es[i].task == es[j].task
    && !HandsTo(es[i], es[j].actor)
    && forall k | i < k < j :: !(es[k].isDelegate && es[k].task == es[j].task)
  }

  ghost predicate Taken(es: seq<Event>, j: int) {
    exists i :: TakenAt(es, i, j)
  }

  lemma TakenIsViolation(es: seq<Event>, j: nat)
    requires j < |es|
    ensures Violation(es, j) <==> Taken(es, j)
  {
    if Violation(es, j) {
      var i :| LatestDelegation(es, es[j].task, i, j) && Receiver(es[i]) != es[j].actor;
      assert TakenAt(es, i, j);
    }
    if Taken(es, j) {
      var i :| TakenAt(es, i, j);
      assert LatestDelegation(es, es[j].task, i, j);
    }
  }

  lemma TakenPrefix(es: seq<Event>, n: nat)
    requires n <= |es|
    ensures forall j | 0 <= j < n :: Taken(es[..n], j) <==> Taken(es, j)
  {
    forall j | 0 <= j < n
      ensures Taken(es[..n], j) <==> Taken(es, j)
    {
      assert forall i | 0 <= i < n :: es[..n][i] == es[i];
      assert forall i :: TakenAt(es[..n], i, j) <==> TakenAt(es, i, j);
    }
  }

  ghost function TakenBefore(es: seq<Event>, n: int): set<int> {
    set j | 0 <= j < n && Taken(es, j)
  }

  lemma TakenStep(es: seq<Event>, m: nat, n: nat)
    requires m + 1 == n <= |es|
    ensures |TakenBefore(es, n)| == |TakenBefore(es, m)| + if Taken(es, m) then 1 else 0
  {
    assert m !in TakenBefore(es, m);
    assert TakenBefore(es, n) == TakenBefore(es, m) + if Taken(es, m) then {m} else {};
  }

  /** A trace has one violation for each delegation of a task by an agent it was not handed to. */
  lemma {:induction false} ViolationsCounted(es: seq<Event>, n: nat)
    requires n <= |es|
    ensures Violations(es[..n]) == |TakenBefore(es, n)|
  {
    if n == 0 {
      assert TakenBefore(es, n) == {};
    } else {
      var m := n - 1;
      ViolationsCounted(es, m);
      assert es[..n][..m] == es[..m];
      TakenIsViolation(es[..n], m);
      TakenPrefix(es, n);
      TakenStep(es, m, n);
    }
  }
}
