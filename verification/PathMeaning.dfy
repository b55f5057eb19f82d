/** Which strings resolve to which file, and which are refused, from the characters up. */
module PathMeaning {
  import opened Strings
  import opened Wrappers
  import opened PathSafety

  // ---- Splitting -----------------------------------------------------------

  /** What is split has no separator left in it. */
  lemma SplitWhole(s: string, c: char)
    requires c !in s
    ensures Split(s, c) == [s]
  {
    IndexOf(s, c, |s|);
    assert s[..|s|] == s;
  }

  /** A string is split at each separator, the first one first. */
  lemma SplitFirst(a: string, b: string, c: char)
    requires c !in a
    ensures Split(a + [c] + b, c) == [a] + Split(b, c)
  {
    var s := a + [c] + b;
    assert s[..|a|] == a && s[|a| + 1..] == b;
    IndexOf(s, c, |a|);
  }

  // ---- Walking -------------------------------------------------------------

  lemma {:induction false} WalkConcat(p: Path, a: seq<string>, b: seq<string>)
    ensures Walk(p, a + b) == Walk(Walk(p, a), b)
    decreases |a|
  {
    if a == [] {
      assert a + b == b;
    } else {
      assert (a + b)[1..] == a[1..] + b;
      WalkConcat(Follow(p, a[0]), a[1..], b);
    }
  }

  /** One more component: empty ones and dots stay, two dots go up and stay at the top, anything else goes down. */
  lemma WalkOn(p: Path, cs: seq<string>, c: string)
    ensures Walk(p, []) == p
    ensures c in {"", "."} ==> Walk(p, cs + [c]) == Walk(p, cs)
    ensures c == ".." ==> Walk(p, cs + [c]) == Up(Walk(p, cs))
    ensures c !in {"", ".", ".."} ==> Walk(p, cs + [c]) == Walk(p, cs) + [c]
  {
    WalkConcat(p, cs, [c]);
    assert [c][1..] == [];
  }

  function Up(p: Path): Path {
    p[..if p == [] then 0 else |p| - 1]
  }

  // ---- Resolving -----------------------------------------------------------

  /**
   * An absolute path is admitted exactly when walking it from the top ends under the root, a relative one when walking
   * it from the root does; each is then the path it ends at, and is refused by its name otherwise.
   */
  lemma ResolvesIff(root: Path, rel: string)
    ensures var p := Walk(if "/" <= rel then [] else root, Split(rel, '/'));
            ResolveUnderRoot(root, rel) == if root <= p then Ok(p) else Err(Escape(rel))
  {
  }

  /** So an absolute path in plain spelling is admitted exactly when it names something under the root. */
  lemma AbsolutePathResolves(root: Path, cs: Path)
    requires cs != [] && AllPlain(cs)
    ensures ResolveUnderRoot(root, "/" + Render(cs)) == if root <= cs then Ok(cs) else Err(Escape("/" + Render(cs)))
  {
    var rel := "/" + Render(cs);
    assert rel == "" + ['/'] + Render(cs);
    SplitFirst("", Render(cs), '/');
    SplitRender(cs);
    WalkDown([], cs);
    assert ([""] + cs)[1..] == cs && [] + cs == cs;
    assert Walk([], [""] + cs) == Walk([], cs);
  }

  /** Climbing out of the root and on to anything else is refused; climbing back in is not. */
  lemma ClimbResolves(root: Path, top: string, cs: Path)
    requires cs != [] && AllPlain(cs)
    ensures ResolveUnderRoot(root + [top], "../" + Render(cs)) ==
            if cs[0] == top then Ok(root + cs) else Err(Escape("../" + Render(cs)))
  {
    var rel := "../" + Render(cs);
    assert rel == ".." + ['/'] + Render(cs);
    SplitFirst("..", Render(cs), '/');
    SplitRender(cs);
    WalkDown(root, cs);
    assert ([".."] + cs)[1..] == cs && (root + [top])[..|root|] == root;
    assert Walk(root + [top], [".."] + cs) == root + cs;
    assert root + [top] <= root + cs <==> cs[0] == top by {
      assert (root + [top])[|root|] == top && (root + cs)[|root|] == cs[0];
    }
  }
}
