/** Isolation over any history of opened environments, new sessions and patches with arbitrary paths. */
module WorkspaceHistory {
  import opened Wrappers
  import opened PathSafety
  import opened Workspaces

  /** What a session was made from, and what it has written since. */
  datatype Session = Session(base: Disk, writes: Writes)

  /** The gateway's state, with the history of snapshots and sessions beside it. */
  datatype World = World(
    disk: Disk,
    leases: map<string, Path>,
    snapshots: map<string, Disk>,
    sessions: map<string, Session>)

  datatype Op =
    | Open(fid: string, source: Disk)
    | NewSession(fid: string, sid: string)
    | Patch(sid: string, files: seq<(string, string)>)

  function Step(root: Path, w: World, op: Op): World {
    match op
    case Open(fid, source) =>
      var found := if w.disk(BasePath(root, fid)).Missing? then source else Extract(w.disk, BasePath(root, fid));
      w.(disk := Snapshotted(w.disk, root, fid, source),
         snapshots := if fid in w.snapshots then w.snapshots else w.snapshots[fid := found])
    case NewSession(fid, sid) =>
      if SessionCheck(w.disk, root, fid, sid).Some? then w
      else
        var base := RequestedBase(w.disk, root, fid).value;
        w.(disk := Overlaid(w.disk, root, base, sid),
              leases := w.leases[sid := WorkPath(root, sid)],
              sessions := w.sessions[sid := Session(Extract(w.disk, base), [])])
    case Patch(sid, files) =>
      if sid !in w.leases || sid !in w.sessions then w
      else
        var p := ApplyFiles(w.disk, w.leases[sid], files);
        w.(disk := p.disk, sessions := w.sessions[sid := w.sessions[sid].(writes := w.sessions[sid].writes + p.writes)])
  }

  /** The source of a snapshot is a directory, and a new session id names nothing yet. */
  ghost predicate Enabled(root: Path, w: World, op: Op) {
    match op
    case Open(_, source) => source([]).Dir?
    case NewSession(_, sid) => sid !in w.leases && forall q :: w.disk(WorkPath(root, sid) + q).Missing?
    case Patch(_, _) => true
  }

  ghost predicate Legal(root: Path, w: World, ops: seq<Op>)
    decreases |ops|
  {
    ops == [] || (Enabled(root, w, ops[0]) && Legal(root, Step(root, w, ops[0]), ops[1..]))
  }

  function After(root: Path, w: World, ops: seq<Op>): World
    decreases |ops|
  {
    if ops == [] then w else After(root, Step(root, w, ops[0]), ops[1..])
  }

  // ---- Overlays ------------------------------------------------------------

  function WriteAll(tree: Disk, writes: Writes): Disk {
    if writes == [] then tree
    else
      var (q, content) := writes[|writes| - 1];
      Write(WriteAll(tree, writes[..|writes| - 1]), q, content)
  }

  /** A file of an overlay holds what was written to it last. */
  lemma {:induction false} LastWriteWins(tree: Disk, writes: Writes, i: nat)
    requires i < |writes| && forall j | i < j < |writes| :: writes[j].0 != writes[i].0
    ensures WriteAll(tree, writes)(writes[i].0) == File(writes[i].1)
  {
    if i < |writes| - 1 {
      LastWriteWins(tree, writes[..|writes| - 1], i);
    }
  }

  /** Everything else is as in the tree, but for directories made on the way to a file. */
  lemma {:induction false} UnwrittenIsBase(tree: Disk, writes: Writes, q: Path)
    requires forall j | 0 <= j < |writes| :: writes[j].0 != q
    ensures var node := WriteAll(tree, writes)(q);
            || node == tree(q)
            || (tree(q).Missing? && node.Dir? && exists j :: 0 <= j < |writes| && q < writes[j].0)
  {
    if writes != [] {
      UnwrittenIsBase(tree, writes[..|writes| - 1], q);
    }
  }

  lemma {:induction false} WriteAllConcat(tree: Disk, a: Writes, b: Writes)
    ensures WriteAll(tree, a + b) == WriteAll(WriteAll(tree, a), b)
  {
    if b == [] {
      assert a + b == a;
    } else {
      assert (a + b)[..|a + b| - 1] == a + b[..|b| - 1];
      WriteAllConcat(tree, a, b[..|b| - 1]);
    }
  }

  // ---- Frames --------------------------------------------------------------

  /** What is below `at` on the disk is the given tree. */
  ghost predicate Holds(d: Disk, at: Path, tree: Disk) {
    forall q :: d(at + q) == tree(q)
  }

  /** Two paths part at some component, so nothing lies below both. */
  ghost predicate Part(a: Path, b: Path) {
    exists i :: 0 <= i < |a| && i < |b| && a[i] != b[i]
  }

  lemma WriteElsewhere(d: Disk, at: Path, p: Path, content: string, q: Path)
    requires Part(at, p)
    ensures Write(d, p, content)(at + q) == d(at + q)
  {
    var i :| 0 <= i < |at| && i < |p| && at[i] != p[i];
    assert (at + q)[i] == at[i];
  }

  lemma GraftElsewhere(d: Disk, at: Path, to: Path, tree: Disk, q: Path)
    requires Part(at, to)
    ensures Graft(d, to, tree)(at + q) == d(at + q)
  {
    var i :| 0 <= i < |at| && i < |to| && at[i] != to[i];
    assert (at + q)[i] == at[i];
  }

  lemma PartBelow(at: Path, work: Path, p: Path)
    requires Part(at, work) && work <= p
    ensures Part(at, p)
  {
    var i :| 0 <= i < |at| && i < |work| && at[i] != work[i];
    assert p[i] == work[i];
  }

  lemma WriteInside(d: Disk, at: Path, tree: Disk, q0: Path, content: string)
    requires Holds(d, at, tree)
    ensures Holds(Write(d, at + q0, content), at, Write(tree, q0, content))
  {
    var p := at + q0;
    forall q
      ensures Write(d, p, content)(at + q) == Write(tree, q0, content)(q)
    {
      assert p[|at|..] == q0 && (at + q)[|at|..] == q;
      assert at + q < p <==> q < q0 by {
        if at + q < p {
          assert q == p[..|at + q|][|at|..] == q0[..|q|];
        }
      }
    }
  }

  lemma GraftInside(d: Disk, at: Path, tree: Disk)
    requires forall q :: d(at + q).Missing?
    ensures Holds(Graft(d, at, tree), at, tree)
  {
    forall q
      ensures Graft(d, at, tree)(at + q) == tree(q)
    {
      assert (at + q)[|at|..] == q;
    }
  }

  /** The last file of a patch was written, after all the others, where its path resolves. */
  ghost predicate LastWritten(d: Disk, work: Path, files: seq<(string, string)>, q: Path)
    requires files != []
  {
    var (rel, content) := files[|files| - 1];
    var (before, p) := (ApplyFiles(d, work, files[..|files| - 1]), ApplyFiles(d, work, files));
    && before.fault.None? && p.fault.None? && ResolveUnderRoot(work, rel) == Ok(work + q)
    && p.disk == Write(before.disk, work + q, content) && p.writes == before.writes + [(q, content)]
  }

  /** What the last file of a patch does: it is written, or there is a fault and nothing more is written. */
  lemma LastFile(d: Disk, work: Path, files: seq<(string, string)>)
    requires files != []
    ensures var (before, p) := (ApplyFiles(d, work, files[..|files| - 1]), ApplyFiles(d, work, files));
            || (p.disk == before.disk && p.writes == before.writes && p.fault.Some?)
            || exists q :: LastWritten(d, work, files, q)
  {
    var p, file := ApplyFiles(d, work, files), ResolveUnderRoot(work, files[|files| - 1].0);
    if p.fault.None? {
      assert file.value == work + file.value[|work|..];
      assert LastWritten(d, work, files, file.value[|work|..]);
    }
  }

  lemma {:induction false} PatchInside(d: Disk, work: Path, files: seq<(string, string)>, tree: Disk)
    requires Holds(d, work, tree)
    ensures Holds(ApplyFiles(d, work, files).disk, work, WriteAll(tree, ApplyFiles(d, work, files).writes))
  {
    if files != [] {
      var before, p := ApplyFiles(d, work, files[..|files| - 1]), ApplyFiles(d, work, files);
      PatchInside(d, work, files[..|files| - 1], tree);
      LastFile(d, work, files);
      if q :| LastWritten(d, work, files, q) {
        assert p.writes[..|p.writes| - 1] == before.writes;
        WriteInside(before.disk, work, WriteAll(tree, before.writes), q, files[|files| - 1].1);
      }
    }
  }

  lemma {:induction false} PatchApart(d: Disk, work: Path, files: seq<(string, string)>, at: Path, q: Path)
    requires Part(at, work)
    ensures ApplyFiles(d, work, files).disk(at + q) == d(at + q)
  {
    if files != [] {
      var before, p := ApplyFiles(d, work, files[..|files| - 1]), ApplyFiles(d, work, files);
      PatchApart(d, work, files[..|files| - 1], at, q);
      LastFile(d, work, files);
      if r :| LastWritten(d, work, files, r) {
        PartBelow(at, work, work + r);
        WriteElsewhere(before.disk, at, work + r, files[|files| - 1].1, q);
      }
    }
  }

  /** A patch rewrites its own workspace by its recorded writes, and nothing that parts from it. */
  lemma PatchFrame(d: Disk, work: Path, files: seq<(string, string)>, tree: Disk)
    requires Holds(d, work, tree)
    ensures var p := ApplyFiles(d, work, files);
            && Holds(p.disk, work, WriteAll(tree, p.writes))
            && forall at, q | Part(at, work) :: p.disk(at + q) == d(at + q)
  {
    PatchInside(d, work, files, tree);
    forall at, q | Part(at, work)
      ensures ApplyFiles(d, work, files).disk(at + q) == d(at + q)
    {
      PatchApart(d, work, files, at, q);
    }
  }

  lemma {:induction false} WritesMatch(d: Disk, work: Path, files: seq<(string, string)>)
    ensures var p := ApplyFiles(d, work, files);
            && |p.writes| <= |files| && (p.fault.None? <==> |p.writes| == |files|)
            && forall i | 0 <= i < |p.writes| ::
                 ResolveUnderRoot(work, files[i].0) == Ok(work + p.writes[i].0) && p.writes[i].1 == files[i].1
  {
    if files != [] {
      var n := |files| - 1;
      var before, p := ApplyFiles(d, work, files[..n]), ApplyFiles(d, work, files);
      WritesMatch(d, work, files[..n]);
      LastFile(d, work, files);
      assert forall i | 0 <= i < |before.writes| :: p.writes[i] == before.writes[i];
    }
  }

  lemma {:induction false} FaultExplained(d: Disk, work: Path, files: seq<(string, string)>)
    requires ApplyFiles(d, work, files).fault.Some?
    ensures var p := ApplyFiles(d, work, files);
            && |p.writes| < |files|
            && var rel := files[|p.writes|].0;
               if ResolveUnderRoot(work, rel).Err? then p.fault == Some(PathTraversal(rel))
               else p.fault == Some(OsError(rel)) && !CanWrite(p.disk, ResolveUnderRoot(work, rel).value)
  {
    var n := |files| - 1;
    if ApplyFiles(d, work, files[..n]).fault.Some? {
      FaultExplained(d, work, files[..n]);
    } else {
      WritesMatch(d, work, files[..n]);
    }
  }

  /**
   * A patch writes a prefix of its files, each where its path resolves; it stops only at a path that escapes or
   * cannot be written.
   */
  lemma PatchWritesPrefix(d: Disk, work: Path, files: seq<(string, string)>)
    ensures var p := ApplyFiles(d, work, files);
            && |p.writes| <= |files|
            && (forall i | 0 <= i < |p.writes| ::
                  ResolveUnderRoot(work, files[i].0) == Ok(work + p.writes[i].0) && p.writes[i].1 == files[i].1)
            && (p.fault.None? <==> |p.writes| == |files|)
            && (p.fault.Some? ==>
                  var rel := files[|p.writes|].0;
                  if ResolveUnderRoot(work, rel).Err? then p.fault == Some(PathTraversal(rel))
                  else p.fault == Some(OsError(rel)) && !CanWrite(p.disk, ResolveUnderRoot(work, rel).value))
  {
    WritesMatch(d, work, files);
    if ApplyFiles(d, work, files).fault.Some? {
      FaultExplained(d, work, files);
    }
  }

  /** After a patch that is applied whole, a file holds the text of the last key that resolves onto it. */
  lemma PatchedText(d: Disk, work: Path, files: seq<(string, string)>, i: nat)
    requires i < |files| && ApplyFiles(d, work, files).fault.None?
    requires forall j | i < j < |files| :: ResolveUnderRoot(work, files[j].0) != ResolveUnderRoot(work, files[i].0)
    ensures var file := ResolveUnderRoot(work, files[i].0);
            file.Ok? && ApplyFiles(d, work, files).disk(file.value) == File(files[i].1)
  {
    var tree, writes := Extract(d, work), ApplyFiles(d, work, files).writes;
    PatchWritesPrefix(d, work, files);
    PatchFrame(d, work, files, tree);
    forall j | i < j < |writes|
      ensures writes[j].0 != writes[i].0
    {
      assert ResolveUnderRoot(work, files[j].0) == Ok(work + writes[j].0);
    }
    LastWriteWins(tree, writes, i);
  }

  // ---- Isolation -----------------------------------------------------------

  lemma PlacesPart(root: Path, a: string, b: string)
    ensures Part(BasePath(root, a), WorkPath(root, b)) && Part(WorkPath(root, b), BasePath(root, a))
    ensures Part(BasePath(root, a), MetaPath(root, "overlays", b))
    ensures Part(WorkPath(root, a), MetaPath(root, "environments", b))
    ensures Part(BasePath(root, a), MetaPath(root, "environments", b))
    ensures Part(WorkPath(root, a), MetaPath(root, "overlays", b))
    ensures a != b ==> Part(BasePath(root, a), BasePath(root, b)) && Part(WorkPath(root, a), WorkPath(root, b))
  {
    var k := |root|;
    assert BasePath(root, a)[k] == "environments";
    assert WorkPath(root, a)[k] == "overlays" && WorkPath(root, b)[k] == "overlays";
    assert "environments"[0] == 'e' && "overlays"[0] == 'o';
    assert MetaPath(root, "overlays", b)[k] == "overlays" && MetaPath(root, "environments", b)[k] == "environments";
    assert BasePath(root, a)[k + 1] == a && WorkPath(root, a)[k + 1] == a;
    assert BasePath(root, b)[k + 1] == b && WorkPath(root, b)[k + 1] == b;
    assert BasePath(root, a)[k + 2] == "base" && WorkPath(root, a)[k + 2] == "work";
    assert MetaPath(root, "environments", b)[k + 2] == "meta.json";
    assert MetaPath(root, "overlays", b)[k + 2] == "meta.json";
    assert "base"[0] == 'b' && "work"[0] == 'w' && "meta.json"[0] == 'm';
  }

  /** Where no snapshot stands, nothing lies below its place. */
  ghost predicate NoOrphans(root: Path, d: Disk) {
    forall fid, q :: d(BasePath(root, fid)).Missing? ==> d(BasePath(root, fid) + q).Missing?
  }

  /** Every snapshot is as it was first found, and every workspace is its base copy under the session's own writes. */
  ghost predicate Isolated(root: Path, w: World) {
    && NoOrphans(root, w.disk)
    && w.leases.Keys == w.sessions.Keys
    && (forall fid | fid in w.snapshots ::
          Holds(w.disk, BasePath(root, fid), w.snapshots[fid]) && !w.snapshots[fid]([]).Missing?)
    && (forall sid | sid in w.sessions ::
          && w.leases[sid] == WorkPath(root, sid)
          && Holds(w.disk, WorkPath(root, sid), WriteAll(w.sessions[sid].base, w.sessions[sid].writes)))
  }

  lemma OpenElsewhere(root: Path, d: Disk, fid: string, source: Disk, at: Path)
    requires Part(at, BasePath(root, fid)) && Part(at, MetaPath(root, "environments", fid))
    ensures forall q :: Snapshotted(d, root, fid, source)(at + q) == d(at + q)
  {
    forall q
      ensures Snapshotted(d, root, fid, source)(at + q) == d(at + q)
    {
      GraftElsewhere(d, at, BasePath(root, fid), source, q);
      WriteElsewhere(Graft(d, BasePath(root, fid), source), at, MetaPath(root, "environments", fid), META, q);
    }
  }

  lemma OverlayElsewhere(root: Path, d: Disk, base: Path, sid: string, at: Path)
    requires Part(at, WorkPath(root, sid)) && Part(at, MetaPath(root, "overlays", sid))
    ensures forall q :: Overlaid(d, root, base, sid)(at + q) == d(at + q)
  {
    forall q
      ensures Overlaid(d, root, base, sid)(at + q) == d(at + q)
    {
      GraftElsewhere(d, at, WorkPath(root, sid), Extract(d, base), q);
      WriteElsewhere(Graft(d, WorkPath(root, sid), Extract(d, base)), at, MetaPath(root, "overlays", sid), META, q);
    }
  }

  lemma KeepsNoOrphans(root: Path, d: Disk, d': Disk, fid: string)
    requires forall q :: d'(BasePath(root, fid) + q) == d(BasePath(root, fid) + q)
    ensures d'(BasePath(root, fid)) == d(BasePath(root, fid))
  {
    assert BasePath(root, fid) + [] == BasePath(root, fid);
  }

  /** After an open, the snapshot's place holds the source if it was new, and what it held before otherwise. */
  lemma OpenOwn(root: Path, d: Disk, fid: string, source: Disk)
    requires NoOrphans(root, d) && source([]).Dir?
    ensures var at := BasePath(root, fid);
            Holds(Snapshotted(d, root, fid, source), at, if d(at).Missing? then source else Extract(d, at))
    ensures !Snapshotted(d, root, fid, source)(BasePath(root, fid)).Missing?
  {
    var at := BasePath(root, fid);
    if d(at).Missing? {
      assert forall q :: d(at + q).Missing?;
      GraftInside(d, at, source);
      PlacesPart(root, fid, fid);
      forall q
        ensures Snapshotted(d, root, fid, source)(at + q) == source(q)
      {
        WriteElsewhere(Graft(d, at, source), at, MetaPath(root, "environments", fid), META, q);
      }
      assert at + [] == at;
    }
  }

  /** A known snapshot's place is taken, so opening it again leaves the disk alone. */
  lemma KnownIsTaken(root: Path, w: World, fid: string)
    requires Isolated(root, w) && fid in w.snapshots
    ensures !w.disk(BasePath(root, fid)).Missing?
  {
    assert BasePath(root, fid) + [] == BasePath(root, fid);
  }

  lemma OpenKeepsOthers(root: Path, d: Disk, fid: string, source: Disk, other: string)
    ensures other != fid ==>
              forall q :: Snapshotted(d, root, fid, source)(BasePath(root, other) + q) == d(BasePath(root, other) + q)
    ensures other != fid ==> Snapshotted(d, root, fid, source)(BasePath(root, other)) == d(BasePath(root, other))
    ensures forall q :: Snapshotted(d, root, fid, source)(WorkPath(root, other) + q) == d(WorkPath(root, other) + q)
  {
    PlacesPart(root, other, fid);
    PlacesPart(root, fid, other);
    OpenElsewhere(root, d, fid, source, WorkPath(root, other));
    if other != fid {
      OpenElsewhere(root, d, fid, source, BasePath(root, other));
      KeepsNoOrphans(root, d, Snapshotted(d, root, fid, source), other);
    }
  }

  lemma OpenIsolated(root: Path, w: World, op: Op)
    requires Isolated(root, w) && op.Open? && Enabled(root, w, op)
    ensures Isolated(root, Step(root, w, op))
  {
    var w', at := Step(root, w, op), BasePath(root, op.fid);
    OpenOwn(root, w.disk, op.fid, op.source);
    assert at + [] == at;
    forall fid, q | w'.disk(BasePath(root, fid)).Missing?
      ensures w'.disk(BasePath(root, fid) + q).Missing?
    {
      OpenKeepsOthers(root, w.disk, op.fid, op.source, fid);
    }
    forall fid | fid in w'.snapshots
      ensures Holds(w'.disk, BasePath(root, fid), w'.snapshots[fid]) && !w'.snapshots[fid]([]).Missing?
    {
      OpenKeepsOthers(root, w.disk, op.fid, op.source, fid);
      if fid in w.snapshots {
        KnownIsTaken(root, w, fid);
      }
    }
    forall sid | sid in w.sessions
      ensures Holds(w'.disk, WorkPath(root, sid), WriteAll(w.sessions[sid].base, w.sessions[sid].writes))
    {
      OpenKeepsOthers(root, w.disk, op.fid, op.source, sid);
    }
  }

  /** A new session's workspace holds a copy of the base it was made from. */
  lemma SessionOwn(root: Path, d: Disk, base: Path, sid: string)
    requires forall q :: d(WorkPath(root, sid) + q).Missing?
    ensures Holds(Overlaid(d, root, base, sid), WorkPath(root, sid), Extract(d, base))
  {
    var at, tree := WorkPath(root, sid), Extract(d, base);
    GraftInside(d, at, tree);
    PlacesPart(root, sid, sid);
    forall q
      ensures Overlaid(d, root, base, sid)(at + q) == tree(q)
    {
      WriteElsewhere(Graft(d, at, tree), at, MetaPath(root, "overlays", sid), META, q);
    }
  }

  /** And it leaves every snapshot and every other workspace alone. */
  lemma SessionKeepsOthers(root: Path, d: Disk, base: Path, sid: string, other: string)
    ensures var d' := Overlaid(d, root, base, sid);
            && (forall q :: d'(BasePath(root, other) + q) == d(BasePath(root, other) + q))
            && d'(BasePath(root, other)) == d(BasePath(root, other))
            && (other != sid ==> forall q :: d'(WorkPath(root, other) + q) == d(WorkPath(root, other) + q))
  {
    PlacesPart(root, other, sid);
    OverlayElsewhere(root, d, base, sid, BasePath(root, other));
    KeepsNoOrphans(root, d, Overlaid(d, root, base, sid), other);
    if other != sid {
      OverlayElsewhere(root, d, base, sid, WorkPath(root, other));
    }
  }

  lemma SessionIsolated(root: Path, w: World, op: Op)
    requires Isolated(root, w) && op.NewSession? && Enabled(root, w, op)
    ensures Isolated(root, Step(root, w, op))
  {
    if SessionCheck(w.disk, root, op.fid, op.sid).None? {
      var w', base := Step(root, w, op), RequestedBase(w.disk, root, op.fid).value;
      forall fid, q | w'.disk(BasePath(root, fid)).Missing?
        ensures w'.disk(BasePath(root, fid) + q).Missing?
      {
        SessionKeepsOthers(root, w.disk, base, op.sid, fid);
      }
      forall fid | fid in w.snapshots
        ensures Holds(w'.disk, BasePath(root, fid), w.snapshots[fid])
      {
        SessionKeepsOthers(root, w.disk, base, op.sid, fid);
      }
      SessionOwn(root, w.disk, base, op.sid);
      forall sid | sid in w.sessions
        ensures Holds(w'.disk, WorkPath(root, sid), WriteAll(w.sessions[sid].base, w.sessions[sid].writes))
      {
        SessionKeepsOthers(root, w.disk, base, op.sid, sid);
      }
    }
  }

  /** A session made for a known snapshot, named by its plain id, starts from that snapshot's tree. */
  lemma SessionStartsFromSnapshot(root: Path, w: World, fid: string, sid: string)
    requires Isolated(root, w) && fid in w.snapshots && Plain(fid)
    requires SessionCheck(w.disk, root, fid, sid).None?
    ensures var w' := Step(root, w, NewSession(fid, sid));
            && sid in w'.sessions && w'.sessions[sid].writes == []
            && forall q :: w'.sessions[sid].base(q) == w.snapshots[fid](q)
  {
    var environments := root + ["environments"];
    SplitRender([fid]);
    FollowsIsWalk(w.disk, environments, [fid] + ["base"]);
    WalkDown(environments, [fid, "base"]);
    assert RequestedBase(w.disk, root, fid).value == BasePath(root, fid);
    assert Holds(w.disk, BasePath(root, fid), w.snapshots[fid]);
  }

  lemma PatchIsolated(root: Path, w: World, op: Op)
    requires Isolated(root, w) && op.Patch?
    ensures Isolated(root, Step(root, w, op))
  {
    if op.sid in w.leases {
      var w', at, s := Step(root, w, op), WorkPath(root, op.sid), w.sessions[op.sid];
      var p := ApplyFiles(w.disk, at, op.files);
      PatchFrame(w.disk, at, op.files, WriteAll(s.base, s.writes));
      WriteAllConcat(s.base, s.writes, p.writes);
      forall fid
        ensures forall q :: w'.disk(BasePath(root, fid) + q) == w.disk(BasePath(root, fid) + q)
        ensures w'.disk(BasePath(root, fid)) == w.disk(BasePath(root, fid))
      {
        PlacesPart(root, fid, op.sid);
        KeepsNoOrphans(root, w.disk, w'.disk, fid);
      }
      forall sid | sid in w.sessions && sid != op.sid
        ensures Holds(w'.disk, WorkPath(root, sid), WriteAll(w.sessions[sid].base, w.sessions[sid].writes))
      {
        PlacesPart(root, sid, op.sid);
      }
    }
  }

  /**
   * Over any history, with any path strings: each workspace is the copy it started from under its session's own
   * writes, in order, and no snapshot changes.
   */
  lemma {:induction false} AlwaysIsolated(root: Path, w: World, ops: seq<Op>)
    requires Isolated(root, w) && Legal(root, w, ops)
    ensures Isolated(root, After(root, w, ops))
    decreases |ops|
  {
    if ops != [] {
      StepIsolated(root, w, ops[0]);
      AlwaysIsolated(root, Step(root, w, ops[0]), ops[1..]);
    }
  }

  /** So it is for a gateway that starts on a disk with no sessions, whatever snapshots it finds there. */
  lemma FreshGatewayIsolated(root: Path, d: Disk, ops: seq<Op>)
    requires NoOrphans(root, d) && Legal(root, World(d, map[], map[], map[]), ops)
    ensures Isolated(root, After(root, World(d, map[], map[], map[]), ops))
  {
    AlwaysIsolated(root, World(d, map[], map[], map[]), ops);
  }

  /** The writes one operation makes to a session. */
  function WritesBy(w: World, op: Op, sid: string): Writes {
    if op.Patch? && op.sid == sid && sid in w.leases then ApplyFiles(w.disk, w.leases[sid], op.files).writes else []
  }

  /** The writes a history makes to one session. */
  function WritesTo(root: Path, w: World, ops: seq<Op>, sid: string): Writes
    decreases |ops|
  {
    if ops == [] then [] else WritesBy(w, ops[0], sid) + WritesTo(root, Step(root, w, ops[0]), ops[1..], sid)
  }

  lemma StepIsolated(root: Path, w: World, op: Op)
    requires Isolated(root, w) && Enabled(root, w, op)
    ensures Isolated(root, Step(root, w, op))
  {
    match op {
      case Open(_, _) => OpenIsolated(root, w, op);
      case NewSession(_, _) => SessionIsolated(root, w, op);
      case Patch(_, _) => PatchIsolated(root, w, op);
    }
  }

  lemma RecordsStep(root: Path, w: World, op: Op, sid: string, fid: string)
    requires Isolated(root, w) && Enabled(root, w, op)
    ensures fid in w.snapshots ==>
              fid in Step(root, w, op).snapshots && Step(root, w, op).snapshots[fid] == w.snapshots[fid]
    ensures sid in w.sessions ==>
              && sid in Step(root, w, op).sessions
              && Step(root, w, op).sessions[sid].base == w.sessions[sid].base
              && Step(root, w, op).sessions[sid].writes == w.sessions[sid].writes + WritesBy(w, op, sid)
  {
    assert sid in w.sessions ==> w.sessions[sid].writes + [] == w.sessions[sid].writes;
  }

  lemma {:induction false} SnapshotStands(root: Path, w: World, ops: seq<Op>, fid: string)
    requires Isolated(root, w) && Legal(root, w, ops) && fid in w.snapshots
    ensures fid in After(root, w, ops).snapshots && After(root, w, ops).snapshots[fid] == w.snapshots[fid]
    decreases |ops|
  {
    if ops != [] {
      StepIsolated(root, w, ops[0]);
      RecordsStep(root, w, ops[0], "", fid);
      SnapshotStands(root, Step(root, w, ops[0]), ops[1..], fid);
    }
  }

  /** A session keeps the tree it was made from, and its record grows by its own writes alone. */
  lemma {:induction false} SessionStands(root: Path, w: World, ops: seq<Op>, sid: string)
    requires Isolated(root, w) && Legal(root, w, ops) && sid in w.sessions
    ensures sid in After(root, w, ops).sessions && After(root, w, ops).sessions[sid].base == w.sessions[sid].base
    ensures After(root, w, ops).sessions[sid].writes == w.sessions[sid].writes + WritesTo(root, w, ops, sid)
    decreases |ops|
  {
    var earlier := w.sessions[sid].writes;
    if ops == [] {
      assert earlier + [] == earlier;
    } else {
      var w' := Step(root, w, ops[0]);
      StepIsolated(root, w, ops[0]);
      RecordsStep(root, w, ops[0], sid, "");
      SessionStands(root, w', ops[1..], sid);
      Associate(earlier, WritesBy(w, ops[0], sid), WritesTo(root, w', ops[1..], sid));
    }
  }

  lemma Associate(a: Writes, b: Writes, c: Writes)
    ensures a + b + c == a + (b + c)
  {
  }

  /** From any moment on, a snapshot never changes and a workspace changes only by its own session's patches. */
  lemma NothingElseChanges(root: Path, w: World, ops: seq<Op>, sid: string, fid: string)
    requires Isolated(root, w) && Legal(root, w, ops)
    ensures fid in w.snapshots ==> Holds(After(root, w, ops).disk, BasePath(root, fid), w.snapshots[fid])
    ensures sid in w.sessions ==>
              Holds(After(root, w, ops).disk, WorkPath(root, sid),
                    WriteAll(w.sessions[sid].base, w.sessions[sid].writes + WritesTo(root, w, ops, sid)))
  {
    AlwaysIsolated(root, w, ops);
    if fid in w.snapshots {
      SnapshotStands(root, w, ops, fid);
    }
    if sid in w.sessions {
      SessionStands(root, w, ops, sid);
    }
  }
}
