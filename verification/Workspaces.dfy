/** Snapshots, session workspaces and patches over one disk. */
module Workspaces {
  import opened Wrappers
  import opened PathSafety
  import Sorting

  datatype Node = Missing | Dir | File(content: string)

  /** What is at each path. A tree is a disk whose paths are relative. */
  type Disk = Path -> Node

  /** A file can be written where no directory is, and where no file is in the way. */
  predicate CanWrite(d: Disk, p: Path) {
    !d(p).Dir? && forall n | 0 <= n < |p| :: !d(p[..n]).File?
  }

  /** Making the parent directories and writing the file. */
  function Write(d: Disk, p: Path, content: string): Disk {
    (x: Path) => if x == p then File(content) else if x < p && d(x).Missing? then Dir else d(x)
  }

  /** The tree below a path, relative to it. */
  function Extract(d: Disk, at: Path): Disk {
    (q: Path) => d(at + q)
  }

  /** A copy of a tree at a path, its parent directories included. */
  function Graft(d: Disk, at: Path, tree: Disk): Disk {
    (x: Path) =>
      if at <= x && !tree(x[|at|..]).Missing? then tree(x[|at|..])
      else if x < at && d(x).Missing? then Dir
      else d(x)
  }

  // ---- Where things live ---------------------------------------------------

  function BasePath(root: Path, fid: string): Path {
    root + ["environments", fid, "base"]
  }

  function WorkPath(root: Path, sid: string): Path {
    root + ["overlays", sid, "work"]
  }

  /** The metadata file of a snapshot or an overlay; what it says is not modelled. */
  function MetaPath(root: Path, kind: string, id: string): Path {
    root + [kind, id, "meta.json"]
  }

  const META := "{}"

  // ---- The operations ------------------------------------------------------

  /** Opening an environment: the first time, the source tree is copied; later on, the snapshot stays as it is. */
  function Snapshotted(d: Disk, root: Path, fid: string, source: Disk): Disk {
    if !d(BasePath(root, fid)).Missing? then d
    else Write(Graft(d, BasePath(root, fid), source), MetaPath(root, "environments", fid), META)
  }

  datatype SessionFault = SnapshotNotFound | NotADirectory | CopyIntoItself

  /**
   * Where a path leads on the disk, one component after the other. Unlike a lexical walk, it cannot go on from
   * anything but a directory, not even back up.
   */
  function Follows(d: Disk, p: Path, cs: seq<string>): Option<Path>
    decreases |cs|
  {
    if cs == [] then Some(p)
    else if cs[0] == "" || cs[0] == "." then Follows(d, p, cs[1..])
    else if !d(p).Dir? then None
    else Follows(d, Follow(p, cs[0]), cs[1..])
  }

  /** The base a session request names: the fingerprint id is joined as the client sent it. */
  function RequestedBase(d: Disk, root: Path, fid: string): Option<Path> {
    var start := if fid != "" && fid[0] == '/' then [] else root + ["environments"];
    var base := Follows(d, start, Components(fid) + ["base"]);
    if base.Some? && d(base.value).Missing? then None else base
  }

  function SessionCheck(d: Disk, root: Path, fid: string, sid: string): Option<SessionFault> {
    match RequestedBase(d, root, fid)
    case None => Some(SnapshotNotFound)
    case Some(base) =>
      if !d(base).Dir? then Some(NotADirectory)
      else if base <= WorkPath(root, sid) then Some(CopyIntoItself)
      else None
  }

  /** Where it leads is where the path resolves lexically. */
  lemma {:induction false} FollowsIsWalk(d: Disk, p: Path, cs: seq<string>)
    requires Follows(d, p, cs).Some?
    ensures Follows(d, p, cs).value == Walk(p, cs)
    decreases |cs|
  {
    if cs != [] {
      FollowsIsWalk(d, Follow(p, cs[0]), cs[1..]);
    }
  }

  function Overlaid(d: Disk, root: Path, base: Path, sid: string): Disk {
    Write(Graft(d, WorkPath(root, sid), Extract(d, base)), MetaPath(root, "overlays", sid), META)
  }

  datatype PatchFault = SessionNotFound | PathTraversal(rel: string) | OsError(rel: string)

  /** Writes are recorded relative to the workspace. */
  type Writes = seq<(Path, string)>

  datatype Patched = Patched(disk: Disk, writes: Writes, fault: Option<PatchFault>)

  /** Writing files one by one until a path escapes or cannot be written. */
  function ApplyFiles(d: Disk, work: Path, files: seq<(string, string)>): Patched {
    if files == [] then Patched(d, [], None)
    else
      var n := |files| - 1;
      var before := ApplyFiles(d, work, files[..n]);
      var (rel, content) := files[n];
      if before.fault.Some? then before
      else
        match ResolveUnderRoot(work, rel)
        case Err(_) => before.(fault := Some(PathTraversal(rel)))
        case Ok(p) =>
          if CanWrite(before.disk, p)
          then Patched(Write(before.disk, p, content), before.writes + [(p[|work|..], content)], None)
          else before.(fault := Some(OsError(rel)))
  }

  predicate DistinctKeys(files: seq<(string, string)>) {
    forall i, j | 0 <= i < j < |files| :: files[i].0 != files[j].0
  }

  function Names(files: seq<(string, string)>): set<string> {
    set i | 0 <= i < |files| :: files[i].0
  }

  class Gateway {
    const root: Path
    var disk: Disk
    var leases: map<string, Path>

    constructor (root: Path, disk: Disk)
      ensures this.root == root && this.disk == disk && leases == map[]
    {
      this.root, this.disk, leases := root, disk, map[];
    }

    method OpenEnvironment(fid: string, source: Disk) returns (base: Path)
      modifies this`disk
      ensures base == BasePath(root, fid)
      ensures disk == Snapshotted(old(disk), root, fid, source)
    {
      base := BasePath(root, fid);
      if disk(base).Missing? {
        disk := Graft(disk, base, source);
        disk := Write(disk, MetaPath(root, "environments", fid), META);
      }
    }

    method CreateOverlay(base: Path, sid: string)
      modifies this`disk
      ensures disk == Overlaid(old(disk), root, base, sid)
    {
      disk := Graft(disk, WorkPath(root, sid), Extract(disk, base));
      disk := Write(disk, MetaPath(root, "overlays", sid), META);
    }

    /** `sid` is a newly generated session id. */
    method CreateSession(fid: string, sid: string) returns (r: Result<Path, SessionFault>)
      modifies this
      ensures var fault := SessionCheck(old(disk), root, fid, sid);
              r == if fault.Some? then Err(fault.value) else Ok(WorkPath(root, sid))
      ensures disk == if r.Ok? then Overlaid(old(disk), root, RequestedBase(old(disk), root, fid).value, sid)
                      else old(disk)
      ensures leases == if r.Ok? then old(leases)[sid := r.value] else old(leases)
    {
      var requested := RequestedBase(disk, root, fid);
      var work := WorkPath(root, sid);
      if requested.None? {
        return Err(SnapshotNotFound);
      }
      var base := requested.value;
      if !disk(base).Dir? {
        return Err(NotADirectory);
      }
      if base <= work {
        return Err(CopyIntoItself);
      }
      CreateOverlay(base, sid);
      leases := leases[sid := work];
      return Ok(work);
    }

    /** The answer lists the changed files in order; files written before a fault stay written. */
    method ApplyPatch(sid: string, files: seq<(string, string)>) returns (r: Result<seq<string>, PatchFault>)
      requires DistinctKeys(files)
      modifies this`disk
      ensures sid !in leases ==> r == Err(SessionNotFound) && disk == old(disk)
      ensures sid in leases ==>
                var p := ApplyFiles(old(disk), leases[sid], files);
                disk == p.disk && r == if p.fault.Some? then Err(p.fault.value) else Ok(Sorting.Sorted(Names(files)))
    {
      if sid !in leases {
        return Err(SessionNotFound);
      }
      var work := leases[sid];
      var changed: set<string> := {};
      for i := 0 to |files|
        invariant disk == ApplyFiles(old(disk), work, files[..i]).disk
        invariant ApplyFiles(old(disk), work, files[..i]).fault.None?
        invariant changed == Names(files[..i])
      {
        var (rel, content) := files[i];
        assert files[..i + 1][..i] == files[..i];
        var path := ResolveUnderRoot(work, rel);
        if path.Err? {
          FaultStops(old(disk), work, files, i + 1);
          return Err(PathTraversal(rel));
        }
        if !CanWrite(disk, path.value) {
          FaultStops(old(disk), work, files, i + 1);
          return Err(OsError(rel));
        }
        disk := Write(disk, path.value, content);
        changed := changed + {rel};
        NamesStep(files, i);
      }
      assert files[..|files|] == files;
      var names := Sorting.SortedKeys(changed);
      return Ok(names);
    }
  }

  lemma NamesStep(files: seq<(string, string)>, i: nat)
    requires i < |files|
    ensures Names(files[..i + 1]) == Names(files[..i]) + {files[i].0}
  {
    var more, less := files[..i + 1], files[..i];
    assert forall k | 0 <= k < i :: more[k] == less[k];
    assert more[i] == files[i];
  }

  lemma {:induction false} FaultStops(d: Disk, work: Path, files: seq<(string, string)>, n: nat)
    requires n <= |files| && ApplyFiles(d, work, files[..n]).fault.Some?
    ensures ApplyFiles(d, work, files) == ApplyFiles(d, work, files[..n])
  {
    if n == |files| {
      assert files[..n] == files;
    } else {
      assert files[..|files| - 1][..n] == files[..n];
      FaultStops(d, work, files[..|files| - 1], n);
    }
  }
}
