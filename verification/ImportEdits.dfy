/**
 * Import edits: the runtime's gate is shown only a patch's new text, never what the workspace held before. Exactly
 * which edits of imports it lets through.
 */
module ImportEdits {
  import opened Wrappers
  import opened PolicyModels
  import opened PatchMetadata
  import opened PathSafety
  import opened Runtime
  import opened RuntimeProperties
  import PolicyEngine
  import WorkspaceHistory
  import Workspaces

  const WORD := "import "

  // ---- What a patch does to imports ----------------------------------------

  /** The text the workspace holds where a path string resolves to, if there is a file. */
  function TextAt(d: Workspaces.Disk, work: Path, key: string): string {
    var file := ResolveUnderRoot(work, key);
    if file.Ok? && d(file.value).File? then d(file.value).content else ""
  }

  /** The workspace's own text of the files a patch replaces. */
  function TextsBefore(d: Workspaces.Disk, work: Path, patch: Files): Files {
    map key | key in patch :: TextAt(d, work, key)
  }

  /** The patch changes the text of a file that imports before or after it. */
  ghost predicate EditsImports(d: Workspaces.Disk, work: Path, patch: Files) {
    exists key :: key in patch && TouchesImports(TextsBefore(d, work, patch), patch, key)
  }

  // ---- What the gate makes of it -------------------------------------------

  /** Everything but the import gate is in order for a first run to be accepted, and the policy pack sets it. */
  ghost predicate OnlyImportsGated(q: Request, a: Answers, p: Packs, glob: PolicyEngine.Matcher) {
    && InOrder(q, a, p) && ReviewPack(q, p).requireHumanIfImportsChange
    && PolicyEngine.Clear(glob, ReviewPack(q, p), Gathered(q, a).(importsChanged := false))
  }

  /**
   * Under a gating pack, a first run that is otherwise in order is accepted outright exactly when no new text in its
   * patch contains the word, and goes to a human exactly when some does. What was there before makes no difference.
   */
  lemma ImportGateIff(q: Request, a: Answers, p: Packs, glob: PolicyEngine.Matcher)
    requires OnlyImportsGated(q, a, p, glob)
    ensures var r := Invoke(MakeInitialState(q), a, Deployed(p, glob));
            && r.finished
            && (r.state.status == Status.Accepted <==> !WritesImport(q))
            && (r.state.status == AwaitingApproval <==> WritesImport(q))
  {
    var pack, ev := ReviewPack(q, p), Gathered(q, a);
    GateShows(q);
    assert ev.importsChanged == WritesImport(q);
    FirstRunOutcome(q, a, Deployed(p, glob));
    PolicyEngine.AcceptedIffClear(glob, pack, ev);
    PolicyEngine.AdmittedEvidence(glob, pack, ev);
  }

  /** No two keys of a patch resolve to one file. */
  ghost predicate OneKeyPerFile(work: Path, files: seq<(string, string)>) {
    forall i, j | 0 <= i < j < |files| :: ResolveUnderRoot(work, files[i].0) != ResolveUnderRoot(work, files[j].0)
  }

  /** A patch that is applied whole leaves in each of its files the text it sent. */
  lemma TextAfter(q: Request, d: Workspaces.Disk, work: Path, files: seq<(string, string)>, key: string)
    requires Lists(files, q.patch) && OneKeyPerFile(work, files) && key in q.patch
    requires Workspaces.ApplyFiles(d, work, files).fault.None?
    ensures TextAt(Workspaces.ApplyFiles(d, work, files).disk, work, key) == q.patch[key]
  {
    var i :| 0 <= i < |files| && files[i].0 == key;
    WorkspaceHistory.PatchedText(d, work, files, i);
  }

  /**
   * So of the patches that edit imports and are applied whole, the gate misses exactly those that leave the word in
   * none of the patched files: their runs are accepted, all others wait for a human.
   */
  lemma MissedEditIff(
    q: Request, a: Answers, p: Packs, glob: PolicyEngine.Matcher,
    d: Workspaces.Disk, work: Path, files: seq<(string, string)>)
    requires OnlyImportsGated(q, a, p, glob) && EditsImports(d, work, q.patch)
    requires Lists(files, q.patch) && OneKeyPerFile(work, files) && Workspaces.ApplyFiles(d, work, files).fault.None?
    ensures var r := Invoke(MakeInitialState(q), a, Deployed(p, glob));
            var after := Workspaces.ApplyFiles(d, work, files).disk;
            var missed := forall key | key in q.patch :: !Contains(TextAt(after, work, key), WORD);
            && (r.finished && r.state.status == Status.Accepted <==> missed)
            && (r.finished && r.state.status == AwaitingApproval <==> !missed)
  {
    ImportGateIff(q, a, p, glob);
    forall key | key in q.patch
      ensures TextAt(Workspaces.ApplyFiles(d, work, files).disk, work, key) == q.patch[key]
    {
      TextAfter(q, d, work, files, key);
    }
  }

  // ---- An edit that is missed ----------------------------------------------

  /** A patch of a module that drops its one import. */
  const IMPORT_DROPPED := Request("t", "o", [], map["M" := "x"], [], "")

  lemma DropIsUnseen()
    ensures !WritesImport(IMPORT_DROPPED) && !TouchesProtected(IMPORT_DROPPED)
  {
    ContainsMeaning("x", WORD);
  }

  /** The run is accepted outright under the strict pack. */
  lemma DropRun(glob: PolicyEngine.Matcher)
    ensures OnlyImportsGated(IMPORT_DROPPED, GOOD_ANSWERS, Packs(map[], None), glob)
    ensures var r := Invoke(MakeInitialState(IMPORT_DROPPED), GOOD_ANSWERS, Deployed(Packs(map[], None), glob));
            r.finished && r.state.status == Status.Accepted
  {
    DropIsUnseen();
    GateShows(IMPORT_DROPPED);
    ImportGateIff(IMPORT_DROPPED, GOOD_ANSWERS, Packs(map[], None), glob);
  }

  lemma DropIsWritten(d: Workspaces.Disk, work: Path)
    requires Workspaces.CanWrite(d, work + ["M"]) && d(work + ["M"]) == Workspaces.File("import A")
    ensures EditsImports(d, work, IMPORT_DROPPED.patch)
    ensures var patched := Workspaces.ApplyFiles(d, work, [("M", "x")]);
            patched.fault.None? && patched.disk(work + ["M"]) == Workspaces.File("x")
  {
    var files := [("M", "x")];
    PlainPathResolves(work, ["M"]);
    assert Render(["M"]) == "M";
    assert files[..0] == [] && Workspaces.ApplyFiles(d, work, []) == Workspaces.Patched(d, [], None);
    assert TextAt(d, work, "M") == "import A" && WORD <= "import A";
    assert TouchesImports(TextsBefore(d, work, IMPORT_DROPPED.patch), IMPORT_DROPPED.patch, "M");
  }

  /** Though the patch deletes a file's import, its run is accepted without a human under a pack that gates imports. */
  lemma DropIsAccepted(d: Workspaces.Disk, work: Path, glob: PolicyEngine.Matcher)
    requires Workspaces.CanWrite(d, work + ["M"]) && d(work + ["M"]) == Workspaces.File("import A")
    ensures ReviewPack(IMPORT_DROPPED, Packs(map[], None)).requireHumanIfImportsChange
    ensures EditsImports(d, work, IMPORT_DROPPED.patch)
    ensures var patched := Workspaces.ApplyFiles(d, work, [("M", "x")]);
            patched.fault.None? && patched.disk(work + ["M"]) == Workspaces.File("x")
    ensures var r := Invoke(MakeInitialState(IMPORT_DROPPED), GOOD_ANSWERS, Deployed(Packs(map[], None), glob));
            r.finished && r.state.status == Status.Accepted
  {
    DropIsWritten(d, work);
    DropRun(glob);
  }

  /** Neither does the gate see an import that is followed by a tab. */
  lemma TabIsUnseen()
    ensures !Contains("import\tA", WORD)
  {
    ContainsMeaning("import\tA", WORD);
    assert "import\tA"[6] != WORD[6];
  }
}
