/** What the gateway's disk looks like: always a tree, with each thing in its place; and whom a session is granted. */
module WorkspaceLaws {
  import opened Wrappers
  import opened PathSafety
  import opened Workspaces
  import Sorting
  import PathMeaning
  import Strings
  import opened WorkspaceHistory

  // ---- One write -----------------------------------------------------------

  /** Whatever is there lies in a directory, all the way up. */
  ghost predicate TreeShaped(d: Disk) {
    forall x, n | 0 <= n < |x| && !d(x).Missing? :: d(x[..n]).Dir?
  }

  /** A write puts the file, makes the directories above it that were missing, and changes nothing else. */
  lemma WriteMeaning(d: Disk, p: Path, content: string, x: Path)
    ensures Write(d, p, content)(p) == File(content)
    ensures x != p && (forall n | 0 <= n < |p| :: x != p[..n]) ==> Write(d, p, content)(x) == d(x)
    ensures forall n | 0 <= n < |p| ::
              Write(d, p, content)(p[..n]) == if d(p[..n]).Missing? then Dir else d(p[..n])
  {
    assert x < p ==> x == p[..|x|];
    assert forall n | 0 <= n < |p| :: p[..n] < p;
  }

  /** A file can be written exactly where writing replaces no directory and leaves a tree. */
  lemma CanWriteIff(d: Disk, p: Path, content: string)
    requires TreeShaped(d)
    ensures CanWrite(d, p) <==> !d(p).Dir? && TreeShaped(Write(d, p, content))
  {
    var d' := Write(d, p, content);
    if CanWrite(d, p) {
      forall x, n | 0 <= n < |x| && !d'(x).Missing?
        ensures d'(x[..n]).Dir?
      {
        WriteKeepsDirs(d, p, content, x, n);
      }
    } else if !d(p).Dir? {
      var n :| 0 <= n < |p| && d(p[..n]).File?;
      assert d'(p[..n]).File? && !d'(p).Missing?;
    }
  }

  lemma WriteKeepsDirs(d: Disk, p: Path, content: string, x: Path, n: nat)
    requires TreeShaped(d) && CanWrite(d, p) && n < |x| && !Write(d, p, content)(x).Missing?
    ensures Write(d, p, content)(x[..n]).Dir?
  {
    var y := x[..n];
    if x <= p {
      assert x == p[..|x|] && y == p[..n];
      assert y < p && !d(y).File?;
    } else {
      assert d(x[..n]).Dir?;
    }
  }

  // ---- Patches that escape -------------------------------------------------

  /** Walking a key from where it starts ends outside the workspace. */
  predicate Escapes(work: Path, rel: string) {
    !(work <= Walk(if "/" <= rel then [] else work, Strings.Split(rel, '/')))
  }

  /** A patch never gets past a key that escapes; if nothing stopped it earlier, it is refused for that key. */
  lemma EscapeStops(d: Disk, work: Path, files: seq<(string, string)>, i: nat)
    requires i < |files| && Escapes(work, files[i].0)
    ensures var p, before := ApplyFiles(d, work, files), ApplyFiles(d, work, files[..i]);
            && p.disk == before.disk && p.writes == before.writes
            && p.fault == if before.fault.Some? then before.fault else Some(PathTraversal(files[i].0))
  {
    assert files[..i + 1][..i] == files[..i];
    PathMeaning.ResolvesIff(work, files[i].0);
    FaultStops(d, work, files, i + 1);
  }

  /** So it is for an absolute path to anything outside, such as "/etc/passwd". */
  lemma AbsoluteEscapes(work: Path, cs: Path)
    requires cs != [] && AllPlain(cs) && !(work <= cs)
    ensures Escapes(work, "/" + Render(cs))
  {
    PathMeaning.AbsolutePathResolves(work, cs);
    PathMeaning.ResolvesIff(work, "/" + Render(cs));
  }

  /** What a patch answers lists each of its keys once, in order. */
  lemma AnswerLists(files: seq<(string, string)>, name: string)
    ensures Sorting.Ascending(Sorting.Sorted(Names(files)))
    ensures name in Sorting.Sorted(Names(files)) <==> exists i :: 0 <= i < |files| && files[i].0 == name
  {
    assert name in Sorting.Sorted(Names(files)) <==> name in Names(files);
  }

  // ---- The gateway's disk --------------------------------------------------

  predicate Kind(kind: string) {
    kind in {"environments", "overlays"}
  }

  /** A tree in which the directories the gateway makes are not files, nor its metadata files directories. */
  ghost predicate Shaped(root: Path, d: Disk) {
    && TreeShaped(d)
    && (forall n | 0 <= n <= |root| :: !d(root[..n]).File?)
    && forall kind, id | Kind(kind) :: InPlace(root, d, kind, id)
  }

  predicate InPlace(root: Path, d: Disk, kind: string, id: string) {
    !d(root + [kind]).File? && !d(root + [kind, id]).File? && !d(root + [kind, id, "meta.json"]).Dir?
  }

  /** A file far below the root can be there or not without spoiling the shape. */
  lemma DeepWrite(root: Path, d: Disk, p: Path, content: string)
    requires Shaped(root, d) && CanWrite(d, p) && root < p && |p| >= |root| + 3
    requires forall kind, id | Kind(kind) :: !(root + [kind, id, "meta.json"] < p)
    ensures Shaped(root, Write(d, p, content))
  {
    var d' := Write(d, p, content);
    CanWriteIff(d, p, content);
    forall n | 0 <= n <= |root|
      ensures !d'(root[..n]).File?
    {
      assert root[..n] != p;
    }
    forall kind, id | Kind(kind)
      ensures InPlace(root, d', kind, id)
    {
      assert InPlace(root, d, kind, id);
      assert |root + [kind, id]| < |p|;
    }
  }

  lemma GraftKeepsTree(d: Disk, at: Path, tree: Disk)
    requires TreeShaped(d) && TreeShaped(tree) && tree([]).Dir?
    requires forall q :: d(at + q).Missing?
    requires forall n | 0 <= n < |at| :: !d(at[..n]).File?
    ensures TreeShaped(Graft(d, at, tree))
  {
    var d' := Graft(d, at, tree);
    forall x, n | 0 <= n < |x| && !d'(x).Missing?
      ensures d'(x[..n]).Dir?
    {
      if at <= x {
        assert at + x[|at|..] == x;
        if n < |at| {
          assert x[..n] == at[..n];
        } else {
          var q := x[|at|..];
          assert x[..n][|at|..] == q[..n - |at|] && at <= x[..n];
        }
      } else if x < at {
        assert x[..n] == at[..n];
      } else {
        assert d(x[..n]).Dir?;
        assert !(at <= x[..n]);
      }
    }
  }

  /** Putting a tree at one of the gateway's own places. */
  lemma DeepGraft(root: Path, d: Disk, kind: string, id: string, leaf: string, tree: Disk)
    requires Shaped(root, d) && Kind(kind) && leaf != "meta.json" && TreeShaped(tree) && tree([]).Dir?
    requires forall q :: d(root + [kind, id, leaf] + q).Missing?
    ensures Shaped(root, Graft(d, root + [kind, id, leaf], tree))
  {
    var at := root + [kind, id, leaf];
    var d' := Graft(d, at, tree);
    assert InPlace(root, d, kind, id);
    forall n | 0 <= n < |at|
      ensures !d(at[..n]).File?
    {
      if n <= |root| {
        assert at[..n] == root[..n];
      } else {
        assert at[..n] == if n == |root| + 1 then root + [kind] else root + [kind, id];
      }
    }
    GraftKeepsTree(d, at, tree);
    forall kind', id' | Kind(kind')
      ensures InPlace(root, d', kind', id')
    {
      var meta := root + [kind', id', "meta.json"];
      assert InPlace(root, d, kind', id');
      assert meta[|root| + 2] == "meta.json" && at[|root| + 2] == leaf;
      assert !(at <= meta) && !(meta < at);
    }
  }

  lemma MetaWrite(root: Path, d: Disk, kind: string, id: string)
    requires Shaped(root, d) && Kind(kind)
    ensures Shaped(root, Write(d, MetaPath(root, kind, id), META))
  {
    var p := root + [kind, id, "meta.json"];
    assert InPlace(root, d, kind, id);
    forall n | 0 <= n < |p|
      ensures !d(p[..n]).File?
    {
      if n <= |root| {
        assert p[..n] == root[..n];
      } else {
        assert p[..n] == if n == |root| + 1 then root + [kind] else root + [kind, id];
      }
    }
    forall kind', id' | Kind(kind')
      ensures !(root + [kind', id', "meta.json"] < p)
    {
      assert |root + [kind', id', "meta.json"]| == |p|;
    }
    DeepWrite(root, d, p, META);
  }

  lemma OpenShaped(root: Path, d: Disk, fid: string, source: Disk)
    requires Shaped(root, d) && TreeShaped(source) && source([]).Dir?
    ensures Shaped(root, Snapshotted(d, root, fid, source))
  {
    var at := BasePath(root, fid);
    if d(at).Missing? {
      forall q
        ensures d(at + q).Missing?
      {
        assert (at + q)[..|at|] == at;
        assert at + [] == at;
      }
      DeepGraft(root, d, "environments", fid, "base", source);
      MetaWrite(root, Graft(d, at, source), "environments", fid);
    }
  }

  lemma SessionShaped(root: Path, d: Disk, base: Path, sid: string)
    requires Shaped(root, d) && d(base).Dir? && forall q :: d(WorkPath(root, sid) + q).Missing?
    ensures Shaped(root, Overlaid(d, root, base, sid))
  {
    var tree := Extract(d, base);
    assert base + [] == base;
    forall x, n | 0 <= n < |x| && !tree(x).Missing?
      ensures tree(x[..n]).Dir?
    {
      assert (base + x)[..|base| + n] == base + x[..n];
    }
    assert root + ["overlays", sid, "work"] == WorkPath(root, sid);
    DeepGraft(root, d, "overlays", sid, "work", tree);
    MetaWrite(root, Graft(d, WorkPath(root, sid), tree), "overlays", sid);
  }

  lemma {:induction false} PatchShaped(root: Path, d: Disk, sid: string, files: seq<(string, string)>)
    requires Shaped(root, d)
    ensures Shaped(root, ApplyFiles(d, WorkPath(root, sid), files).disk)
  {
    if files != [] {
      var work, n := WorkPath(root, sid), |files| - 1;
      PatchShaped(root, d, sid, files[..n]);
      var before, file := ApplyFiles(d, work, files[..n]), ResolveUnderRoot(work, files[n].0);
      if before.fault.None? && file.Ok? && CanWrite(before.disk, file.value) {
        forall kind, id | Kind(kind)
          ensures !(root + [kind, id, "meta.json"] < file.value)
        {
          assert file.value[|root| + 2] == work[|root| + 2] == "work" && "work" != "meta.json";
          assert (root + [kind, id, "meta.json"])[|root| + 2] == "meta.json";
        }
        assert root == work[..|root|] == file.value[..|root|];
        DeepWrite(root, before.disk, file.value, files[n].1);
      }
    }
  }

  // ---- Whom a session is granted -------------------------------------------

  /** Each component that goes anywhere is followed from a directory. */
  ghost predicate Passable(d: Disk, p: Path, cs: seq<string>) {
    forall k | 0 <= k < |cs| && cs[k] !in {"", "."} :: d(Walk(p, cs[..k])).Dir?
  }

  lemma PassableStep(d: Disk, p: Path, cs: seq<string>)
    requires cs != []
    ensures Passable(d, p, cs) <==> (cs[0] in {"", "."} || d(p).Dir?) && Passable(d, Follow(p, cs[0]), cs[1..])
  {
    var q, rest := Follow(p, cs[0]), cs[1..];
    assert cs[..0] == [];
    forall k | 0 < k < |cs|
      ensures cs[k] == rest[k - 1] && Walk(p, cs[..k]) == Walk(q, rest[..k - 1])
    {
      assert cs[..k][1..] == rest[..k - 1];
    }
    if Passable(d, p, cs) {
      forall k | 0 <= k < |rest| && rest[k] !in {"", "."}
        ensures d(Walk(q, rest[..k])).Dir?
      {
        assert cs[k + 1] == rest[k];
        assert cs[..k + 1][1..] == rest[..k];
      }
    }
  }

  lemma {:induction false} FollowsIff(d: Disk, p: Path, cs: seq<string>)
    ensures Follows(d, p, cs) == if Passable(d, p, cs) then Some(Walk(p, cs)) else None
    decreases |cs|
  {
    if cs != [] {
      PassableStep(d, p, cs);
      FollowsIff(d, Follow(p, cs[0]), cs[1..]);
    }
  }

  /** Where the id of a request starts: at the top of the disk if it is absolute, else where snapshots are kept. */
  function StartOf(root: Path, fid: string): Path {
    if "/" <= fid then [] else root + ["environments"]
  }

  function Asked(fid: string): seq<string> {
    Strings.Split(fid, '/') + ["base"]
  }

  /**
   * Whatever string names its base, a session is refused exactly when the name cannot be followed to something that
   * is there, when that is a file, or when the new workspace would lie inside it.
   */
  lemma SessionCheckIff(root: Path, d: Disk, fid: string, sid: string)
    ensures var (there, base) := (Passable(d, StartOf(root, fid), Asked(fid)), Walk(StartOf(root, fid), Asked(fid)));
            SessionCheck(d, root, fid, sid) ==
            if !there || d(base).Missing? then Some(SnapshotNotFound)
            else if d(base).File? then Some(NotADirectory)
            else if base <= root + ["overlays", sid, "work"] then Some(CopyIntoItself)
            else None
    ensures SessionCheck(d, root, fid, sid).None? ==>
              RequestedBase(d, root, fid) == Some(Walk(StartOf(root, fid), Asked(fid)))
  {
    FollowsIff(d, StartOf(root, fid), Asked(fid));
  }

  /** What a session request with a plain id asks for: the place where opening that environment puts it. */
  lemma PlainRequest(root: Path, d: Disk, fid: string)
    requires Plain(fid) && TreeShaped(d) && d(root + ["environments", fid, "base"]).Dir?
    ensures RequestedBase(d, root, fid) == Some(root + ["environments", fid, "base"])
  {
    var start, base := root + ["environments"], root + ["environments", fid, "base"];
    SplitRender([fid]);
    assert base[..|root| + 1] == start && base[..|root| + 2] == start + [fid];
    assert d(start).Dir? && d(start + [fid]).Dir?;
    assert start + [fid] + ["base"] == base;
    var cs := [fid, "base"];
    assert [fid] + ["base"] == cs && cs[1..] == ["base"] && cs[1..][1..] == [];
    assert Follows(d, base, []) == Some(base);
    assert Follows(d, start + [fid], ["base"]) == Some(base);
    assert Follows(d, start, cs) == Some(base);
    assert fid[0] in fid;
  }

  /** A snapshot that stands as a directory is granted to every session that asks for it by its plain id. */
  lemma SessionGranted(root: Path, d: Disk, fid: string, sid: string)
    requires Plain(fid) && TreeShaped(d) && d(root + ["environments", fid, "base"]).Dir?
    ensures SessionCheck(d, root, fid, sid).None?
  {
    PlainRequest(root, d, fid);
    var base, work := root + ["environments", fid, "base"], WorkPath(root, sid);
    assert base[|root|] == "environments" && work[|root|] == "overlays" && "environments"[0] != "overlays"[0];
  }

  // ---- Any history ---------------------------------------------------------

  /** What `Legal` asks, and that sources are trees. */
  ghost predicate WithTrees(ops: seq<Op>) {
    forall op | op in ops && op.Open? :: TreeShaped(op.source)
  }

  lemma StepShaped(root: Path, w: World, op: Op)
    requires Isolated(root, w) && Shaped(root, w.disk) && Enabled(root, w, op) && (op.Open? ==> TreeShaped(op.source))
    ensures Shaped(root, Step(root, w, op).disk)
  {
    match op {
      case Open(fid, source) => OpenShaped(root, w.disk, fid, source);
      case NewSession(fid, sid) =>
        if SessionCheck(w.disk, root, fid, sid).None? {
          SessionShaped(root, w.disk, RequestedBase(w.disk, root, fid).value, sid);
        }
      case Patch(sid, files) =>
        if sid in w.leases {
          PatchShaped(root, w.disk, sid, files);
        }
    }
  }

  /** No history of opened environments, sessions and patches ever leaves a file where a directory is needed. */
  lemma {:induction false} AlwaysShaped(root: Path, w: World, ops: seq<Op>)
    requires Isolated(root, w) && Shaped(root, w.disk) && Legal(root, w, ops) && WithTrees(ops)
    ensures Shaped(root, After(root, w, ops).disk)
    decreases |ops|
  {
    if ops != [] {
      StepIsolated(root, w, ops[0]);
      StepShaped(root, w, ops[0]);
      AlwaysShaped(root, Step(root, w, ops[0]), ops[1..]);
    }
  }

  /**
   * An environment that was opened can be asked for by its plain id ever after: a new session is granted, whatever
   * else happened in between, and starts from what was opened.
   */
  lemma OpenedIsGranted(root: Path, w: World, fid: string, source: Disk, ops: seq<Op>, sid: string)
    requires Isolated(root, w) && Shaped(root, w.disk) && w.disk(BasePath(root, fid)).Missing? && fid !in w.snapshots
    requires source([]).Dir? && TreeShaped(source) && Plain(fid)
    requires Legal(root, Step(root, w, Open(fid, source)), ops) && WithTrees(ops)
    ensures var later := After(root, Step(root, w, Open(fid, source)), ops);
            && SessionCheck(later.disk, root, fid, sid).None?
            && Granted(root, Step(root, later, NewSession(fid, sid)), sid)
            && forall q :: Step(root, later, NewSession(fid, sid)).sessions[sid].base(q) == source(q)
  {
    var first := Step(root, w, Open(fid, source));
    StepIsolated(root, w, Open(fid, source));
    StepShaped(root, w, Open(fid, source));
    AlwaysIsolated(root, first, ops);
    AlwaysShaped(root, first, ops);
    SnapshotStands(root, first, ops, fid);
    var later := After(root, first, ops);
    var base := root + ["environments", fid, "base"];
    assert Holds(later.disk, BasePath(root, fid), source);
    assert base + [] == base && later.disk(base) == source([]);
    SessionGranted(root, later.disk, fid, sid);
    SessionStartsFromSnapshot(root, later, fid, sid);
    SessionLaid(root, later, fid, sid);
  }

  /** The session holds the lease of its workspace, which stands beside its metadata. */
  ghost predicate Granted(root: Path, w: World, sid: string) {
    && sid in w.leases && w.leases[sid] == root + ["overlays", sid, "work"] && sid in w.sessions
    && w.disk(root + ["overlays", sid, "work"]).Dir? && w.disk(root + ["overlays", sid, "meta.json"]).File?
  }

  lemma SessionLaid(root: Path, w: World, fid: string, sid: string)
    requires SessionCheck(w.disk, root, fid, sid).None?
    ensures Granted(root, Step(root, w, NewSession(fid, sid)), sid)
  {
    var base, work := RequestedBase(w.disk, root, fid).value, root + ["overlays", sid, "work"];
    var meta := root + ["overlays", sid, "meta.json"];
    assert base + [] == base && work[|work|..] == [] && work == WorkPath(root, sid);
    assert meta[|root| + 2] == "meta.json" && work[|root| + 2] == "work" && "meta.json"[0] != "work"[0];
    assert !(work < meta) && !(work == meta);
  }

  /** Opening an environment that is not there puts its source and its metadata in place; else nothing happens. */
  lemma SnapshotLaid(root: Path, d: Disk, fid: string, source: Disk, q: Path)
    requires !source(q).Missing?
    ensures var base := root + ["environments", fid, "base"];
            if d(base).Missing? then
              && Snapshotted(d, root, fid, source)(base + q) == source(q)
              && Snapshotted(d, root, fid, source)(root + ["environments", fid, "meta.json"]).File?
            else Snapshotted(d, root, fid, source) == d
  {
    var base, meta := root + ["environments", fid, "base"], root + ["environments", fid, "meta.json"];
    assert base == BasePath(root, fid) && meta == MetaPath(root, "environments", fid);
    if d(base).Missing? {
      PlacesPart(root, fid, fid);
      assert (base + q)[|base|..] == q;
      WriteElsewhere(Graft(d, base, source), base, meta, META, q);
    }
  }
}
