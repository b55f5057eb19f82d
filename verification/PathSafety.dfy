/** Paths as component sequences, and resolving a client's path under a workspace root. */
module PathSafety {
  import opened Strings
  import opened Wrappers

  type Path = seq<string>

  /** The components a path string spells out, empty ones included. */
  function Components(s: string): seq<string> {
    Split(s, '/')
  }

  /** Following one component: nothing for an empty one or a dot, up for two dots, down otherwise. */
  function Follow(p: Path, c: string): Path {
    if c == "" || c == "." then p
    else if c == ".." then (if p == [] then p else p[..|p| - 1])
    else p + [c]
  }

  function Walk(p: Path, cs: seq<string>): Path
    decreases |cs|
  {
    if cs == [] then p else Walk(Follow(p, cs[0]), cs[1..])
  }

  /** Joining a path to a root, an absolute one replacing it, and resolving the result without symbolic links. */
  function Join(root: Path, rel: string): Path {
    Walk(if rel != "" && rel[0] == '/' then [] else root, Components(rel))
  }

  datatype Escape = Escape(rel: string)

  function ResolveUnderRoot(root: Path, rel: string): (r: Result<Path, Escape>)
    ensures r.Ok? ==> root <= r.value
  {
    var p := Join(root, rel);
    if root <= p then Ok(p) else Err(Escape(rel))
  }

  predicate Plain(c: string) {
    c != "" && c != "." && c != ".." && '/' !in c
  }

  predicate AllPlain(p: Path) {
    forall c | c in p :: Plain(c)
  }

  lemma {:induction false} SplitHasNoSlash(s: string)
    ensures forall c | c in Components(s) :: '/' !in c
  {
    var i := Index(s, '/');
    if i < |s| {
      SplitHasNoSlash(s[i + 1..]);
    } else {
      assert s[..i] == s;
    }
  }

  lemma {:induction false} WalkPlain(p: Path, cs: seq<string>)
    requires AllPlain(p) && forall c | c in cs :: '/' !in c
    ensures AllPlain(Walk(p, cs))
    decreases |cs|
  {
    if cs != [] {
      assert cs[0] in cs;
      WalkPlain(Follow(p, cs[0]), cs[1..]);
    }
  }

  /** A resolved path lies under the root and names everything on the way: no dots, no empty components. */
  lemma ResolvedIsInside(root: Path, rel: string)
    requires AllPlain(root) && ResolveUnderRoot(root, rel).Ok?
    ensures root <= ResolveUnderRoot(root, rel).value && AllPlain(ResolveUnderRoot(root, rel).value)
  {
    SplitHasNoSlash(rel);
    WalkPlain(if rel != "" && rel[0] == '/' then [] else root, Components(rel));
  }

  /** Walking never goes up from where it started. */
  predicate NeverAbove(q: Path, cs: seq<string>)
    decreases |cs|
  {
    cs == [] || ((cs[0] == ".." ==> q != []) && NeverAbove(Follow(q, cs[0]), cs[1..]))
  }

  lemma {:induction false} WalkBelow(root: Path, q: Path, cs: seq<string>)
    requires NeverAbove(q, cs)
    ensures Walk(root + q, cs) == root + Walk(q, cs)
    decreases |cs|
  {
    if cs != [] {
      assert Follow(root + q, cs[0]) == root + Follow(q, cs[0]);
      WalkBelow(root, Follow(q, cs[0]), cs[1..]);
    }
  }

  /** A relative path that never climbs above its start is admitted, and names the same file under every root. */
  lemma RelativePathResolves(root: Path, rel: string)
    requires (rel != "" ==> rel[0] != '/') && NeverAbove([], Components(rel))
    ensures ResolveUnderRoot(root, rel) == Ok(root + Walk([], Components(rel)))
  {
    assert root + [] == root;
    WalkBelow(root, [], Components(rel));
  }

  function Render(cs: Path): string {
    if cs == [] then "" else if |cs| == 1 then cs[0] else cs[0] + "/" + Render(cs[1..])
  }

  lemma {:induction false} SplitRender(cs: Path)
    requires cs != [] && AllPlain(cs)
    ensures Components(Render(cs)) == cs
  {
    var s := Render(cs);
    var c := cs[0];
    assert c in cs && s[..|c|] == c;
    if |cs| == 1 {
      IndexOf(s, '/', |c|);
    } else {
      assert s[|c| + 1..] == Render(cs[1..]);
      IndexOf(s, '/', |c|);
      SplitRender(cs[1..]);
    }
  }

  lemma {:induction false} WalkDown(p: Path, cs: Path)
    requires AllPlain(cs)
    ensures Walk(p, cs) == p + cs
    decreases |cs|
  {
    if cs != [] {
      assert cs[0] in cs;
      WalkDown(p + [cs[0]], cs[1..]);
    }
  }

  /** Every file under the root can be named, and its plain name resolves to it. */
  lemma PlainPathResolves(root: Path, cs: Path)
    requires cs != [] && AllPlain(cs)
    ensures ResolveUnderRoot(root, Render(cs)) == Ok(root + cs)
  {
    SplitRender(cs);
    WalkDown(root, cs);
    assert cs[0] in cs && cs[0] != "" && Render(cs)[0] == cs[0][0];
    assert cs[0][0] in cs[0];
  }

  // ---- Plain spelling ------------------------------------------------------

  /** A path with nothing to resolve: no leading, trailing or double slash, and no dots as components. */
  predicate PlainSpelling(s: string) {
    AllPlain(Components(s))
  }

  lemma RenderCons(c: string, cs: Path)
    requires cs != []
    ensures Render([c] + cs) == c + "/" + Render(cs)
  {
    assert ([c] + cs)[1..] == cs;
  }

  lemma CutAtSlash(s: string, i: nat)
    requires i < |s| && s[i] == '/'
    ensures s == s[..i] + "/" + s[i + 1..]
  {
  }

  lemma {:induction false} RenderSplit(s: string)
    ensures Components(s) != [] && Render(Components(s)) == s
    decreases |s|
  {
    var i := Index(s, '/');
    if i == |s| {
      assert s[..i] == s;
    } else {
      RenderSplit(s[i + 1..]);
      RenderCons(s[..i], Components(s[i + 1..]));
      CutAtSlash(s, i);
    }
  }

  /** Two plain spellings of one file of a workspace are the same string. */
  lemma PlainSpellingsAgree(work: Path, a: string, b: string)
    requires PlainSpelling(a) && PlainSpelling(b) && ResolveUnderRoot(work, a) == ResolveUnderRoot(work, b)
    ensures a == b
  {
    RenderSplit(a);
    RenderSplit(b);
    PlainPathResolves(work, Components(a));
    PlainPathResolves(work, Components(b));
    assert (work + Components(a))[|work|..] == Components(a) && (work + Components(b))[|work|..] == Components(b);
  }
}
