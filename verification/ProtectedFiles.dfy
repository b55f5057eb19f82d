/**
 * Protected files: the gate compares paths as text, the gateway writes where they resolve. Exactly when the two agree.
 */
module ProtectedFiles {
  import opened Wrappers
  import opened PolicyModels
  import opened PatchMetadata
  import opened PathSafety
  import opened Runtime
  import opened RuntimeProperties
  import Approvals
  import PolicyEngine
  import Strings
  import Threads
  import WorkspaceHistory
  import Workspaces

  // ---- What a patch writes -------------------------------------------------

  /** A path string that resolves in the workspace to the same file as some protected path. */
  ghost predicate Lands(work: Path, key: string, protectedPaths: seq<string>) {
    var file := ResolveUnderRoot(work, key);
    file.Ok? && exists p | p in protectedPaths :: ResolveUnderRoot(work, p) == file
  }

  /** Applying the files writes to a protected file of the workspace. */
  ghost predicate WritesProtected(
    d: Workspaces.Disk, work: Path, files: seq<(string, string)>, protectedPaths: seq<string>)
  {
    var writes := Workspaces.ApplyFiles(d, work, files).writes;
    exists j, p | 0 <= j < |writes| && p in protectedPaths :: ResolveUnderRoot(work, p) == Ok(work + writes[j].0)
  }

  /** A patch writes a protected file only under a key that lands on it. */
  lemma WriteHasKey(
    d: Workspaces.Disk, work: Path, files: seq<(string, string)>, patch: Files, protectedPaths: seq<string>)
    requires Lists(files, patch) && WritesProtected(d, work, files, protectedPaths)
    ensures exists key :: key in patch && Lands(work, key, protectedPaths)
  {
    WorkspaceHistory.PatchWritesPrefix(d, work, files);
    var writes := Workspaces.ApplyFiles(d, work, files).writes;
    var j, p :| 0 <= j < |writes| && p in protectedPaths && ResolveUnderRoot(work, p) == Ok(work + writes[j].0);
    assert ResolveUnderRoot(work, files[j].0) == Ok(work + writes[j].0);
    assert files[j].0 in patch && Lands(work, files[j].0, protectedPaths);
  }

  /** And a patch that is applied whole writes one under every such key. */
  lemma KeyIsWritten(
    d: Workspaces.Disk, work: Path, files: seq<(string, string)>, patch: Files, protectedPaths: seq<string>,
    key: string)
    requires Lists(files, patch) && Workspaces.ApplyFiles(d, work, files).fault.None?
    requires key in patch
    ensures ResolveUnderRoot(work, key).Ok?
    ensures Lands(work, key, protectedPaths) ==> WritesProtected(d, work, files, protectedPaths)
  {
    WorkspaceHistory.PatchWritesPrefix(d, work, files);
    var writes := Workspaces.ApplyFiles(d, work, files).writes;
    var i :| 0 <= i < |files| && files[i].0 == key;
    assert ResolveUnderRoot(work, files[i].0) == Ok(work + writes[i].0);
    if Lands(work, key, protectedPaths) {
      var p :| p in protectedPaths && ResolveUnderRoot(work, p) == ResolveUnderRoot(work, key);
      assert 0 <= i < |writes| && p in protectedPaths && ResolveUnderRoot(work, p) == Ok(work + writes[i].0);
    }
  }

  // ---- What the gate sees --------------------------------------------------

  /**
   * Of a patch that is applied whole, the gate sees a write to a protected file exactly when some key that lands on
   * one is, letter by letter, a protected path.
   */
  lemma GateSeesIff(q: Request, d: Workspaces.Disk, work: Path, files: seq<(string, string)>)
    requires Lists(files, q.patch) && Workspaces.ApplyFiles(d, work, files).fault.None?
    ensures Summarize(map[], q.patch, q.protectedPaths).protectedTouched != [] <==>
            exists key :: key in q.patch && Lands(work, key, q.protectedPaths) && key in q.protectedPaths
  {
    GateShows(q);
    if key :| key in q.patch && key in q.protectedPaths {
      KeyIsWritten(d, work, files, q.patch, q.protectedPaths, key);
      assert Lands(work, key, q.protectedPaths);
    }
  }

  /** Everything but the protected paths is in order for a first run to be accepted. */
  ghost predicate OtherwiseAccepted(q: Request, a: Answers, p: Packs, glob: PolicyEngine.Matcher) {
    InOrder(q, a, p) && PolicyEngine.Clear(glob, ReviewPack(q, p), Gathered(q, a).(protectedTouched := []))
  }

  /**
   * So a first run whose patch is otherwise in order is accepted without a human exactly when every key that lands on
   * a protected file is spelled otherwise than the protected paths are.
   */
  lemma ProtectedWriteAcceptedIff(
    q: Request, a: Answers, p: Packs, glob: PolicyEngine.Matcher,
    d: Workspaces.Disk, work: Path, files: seq<(string, string)>)
    requires Lists(files, q.patch) && Workspaces.ApplyFiles(d, work, files).fault.None?
    requires OtherwiseAccepted(q, a, p, glob)
    ensures var r := Invoke(MakeInitialState(q), a, Deployed(p, glob));
            r.finished && r.state.status == Status.Accepted <==>
            forall key | key in q.patch && Lands(work, key, q.protectedPaths) :: key !in q.protectedPaths
  {
    GateSeesIff(q, d, work, files);
    FirstRunAcceptedIff(q, a, p, glob);
    var ev := Gathered(q, a);
    assert ev.protectedTouched == Summarize(map[], q.patch, q.protectedPaths).protectedTouched;
  }

  // ---- Plain spelling ------------------------------------------------------

  ghost predicate PlainlySpelled(q: Request) {
    (forall key | key in q.patch :: PlainSpelling(key)) && (forall p | p in q.protectedPaths :: PlainSpelling(p))
  }

  /** In plain spelling the gate sees every write to a protected file. */
  lemma PlainWritesAreSeen(q: Request, d: Workspaces.Disk, work: Path, files: seq<(string, string)>)
    requires Lists(files, q.patch) && PlainlySpelled(q) && WritesProtected(d, work, files, q.protectedPaths)
    ensures TouchesProtected(q)
  {
    WriteHasKey(d, work, files, q.patch, q.protectedPaths);
    var key :| key in q.patch && Lands(work, key, q.protectedPaths);
    var p :| p in q.protectedPaths && ResolveUnderRoot(work, p) == ResolveUnderRoot(work, key);
    PlainSpellingsAgree(work, key, p);
  }

  /** So no run from the start whose patch wrote a protected file ends accepted, when both are spelled plainly. */
  lemma PlainProtectedWriteNeverAccepted(
    st: State, a: Answers, p: Packs, glob: PolicyEngine.Matcher,
    d: Workspaces.Disk, work: Path, files: seq<(string, string)>)
    requires Lists(files, st.request.patch) && PlainlySpelled(st.request)
    requires WritesProtected(d, work, files, st.request.protectedPaths)
    requires RunFrom(InitEnvironment, st, a, Deployed(p, glob)).finished
    ensures RunFrom(InitEnvironment, st, a, Deployed(p, glob)).state.status != Status.Accepted
  {
    PlainWritesAreSeen(st.request, d, work, files);
    GatedPatchNeverAccepted(st, a, p, glob);
  }

  /** And a thread whose latest start made such a patch is accepted only by a resume after it, on a human's approval. */
  lemma PlainProtectedWriteNeedsHuman(
    log: seq<Threads.Event>, t: string, start: nat, n: nat, glob: PolicyEngine.Matcher,
    d: Workspaces.Disk, work: Path, files: seq<(string, string)>)
    requires n <= |log| && Approvals.LatestBegun(Threads.Facts(log, t, glob), start, n)
    requires var q := Threads.RequestOf(Threads.After(log, start, glob), log[start]);
             Lists(files, q.patch) && PlainlySpelled(q) && WritesProtected(d, work, files, q.protectedPaths)
    requires var sys := Threads.After(log, n, glob);
             t in sys.checkpoints && sys.checkpoints[t].status == Status.Accepted
    ensures Approvals.HumanAfter(Threads.Facts(log, t, glob), start, n)
  {
    var q := Threads.RequestOf(Threads.After(log, start, glob), log[start]);
    PlainWritesAreSeen(q, d, work, files);
    Threads.ProtectedNeedsHuman(log, t, start, n, glob);
  }

  // ---- Another spelling ----------------------------------------------------

  /** A patch of the protected file "A" under another name. */
  const ALIASED := Request("t", "o", ["A"], map["./A" := "x"], [], "")

  lemma AliasLands(work: Path)
    ensures ResolveUnderRoot(work, "./A") == ResolveUnderRoot(work, "A") == Ok(work + ["A"])
  {
    var dotted, plain := ["." , "A"], ["A"];
    Strings.IndexOf("./A", '/', 1);
    Strings.IndexOf("A", '/', 1);
    assert "./A"[2..] == "A" && "./A"[..1] == "." && "A"[..1] == "A";
    assert Components("A") == plain && Components("./A") == dotted;
    assert dotted[1..] == plain && plain[1..] == [];
    assert Walk(work, plain) == Walk(work + ["A"], []);
    assert Walk(work, dotted) == Walk(work, plain);
  }

  /** The gate is silent about it, and no import is in sight. */
  lemma AliasUnseen()
    ensures !TouchesProtected(ALIASED) && !WritesImport(ALIASED)
  {
    assert "./A" != "A";
    ContainsMeaning("x", "import ");
  }

  lemma AliasIsWritten(d: Workspaces.Disk, work: Path)
    requires Workspaces.CanWrite(d, work + ["A"])
    ensures var patched := Workspaces.ApplyFiles(d, work, [("./A", "x")]);
            && patched.fault.None? && patched.disk(work + ["A"]) == Workspaces.File("x")
            && WritesProtected(d, work, [("./A", "x")], ["A"])
  {
    var files := [("./A", "x")];
    AliasLands(work);
    assert files[..0] == [] && Workspaces.ApplyFiles(d, work, []) == Workspaces.Patched(d, [], None);
    assert (work + ["A"])[|work|..] == ["A"];
    var patched := Workspaces.ApplyFiles(d, work, files);
    assert patched.writes == [(["A"], "x")];
    assert "A" in ["A"] && ResolveUnderRoot(work, "A") == Ok(work + patched.writes[0].0);
  }

  lemma AliasRun(glob: PolicyEngine.Matcher)
    ensures var r := Invoke(MakeInitialState(ALIASED), GOOD_ANSWERS, Deployed(Packs(map[], None), glob));
            r.finished && r.state.status == Status.Accepted
  {
    AliasUnseen();
    GateShows(ALIASED);
    FirstRunAcceptedIff(ALIASED, GOOD_ANSWERS, Packs(map[], None), glob);
  }

  /** The run is accepted outright, although the patch has rewritten the protected file. */
  lemma AliasIsAccepted(d: Workspaces.Disk, work: Path, glob: PolicyEngine.Matcher)
    requires Workspaces.CanWrite(d, work + ["A"])
    ensures var r := Invoke(MakeInitialState(ALIASED), GOOD_ANSWERS, Deployed(Packs(map[], None), glob));
            r.finished && r.state.status == Status.Accepted
    ensures var patched := Workspaces.ApplyFiles(d, work, [("./A", "x")]);
            && patched.fault.None? && patched.disk(work + ["A"]) == Workspaces.File("x")
            && WritesProtected(d, work, [("./A", "x")], ALIASED.protectedPaths)
  {
    AliasIsWritten(d, work);
    AliasRun(glob);
  }
}
