/** Packs that reach a shared pack along two ways: it counts once, where it is merged last. */
module PackDiamonds {
  import opened Wrappers
  import opened PackLoader
  import opened PackComposition

  lemma {:induction false} FlattenConcat(a: seq<seq<Layer>>, b: seq<seq<Layer>>)
    ensures Flatten(a + b) == Flatten(a) + Flatten(b)
  {
    if b == [] {
      assert a + b == a;
    } else {
      var n := |b| - 1;
      assert (a + b)[..|a + b| - 1] == a + b[..n];
      FlattenConcat(a, b[..n]);
    }
  }

  lemma FlattenOne(l: seq<Layer>)
    ensures Flatten([l]) == l
  {
    assert [l][..0] == [];
  }

  lemma Cut<T>(s: seq<T>, i: nat)
    requires i < |s|
    ensures s == s[..i] + [s[i]] + s[i + 1..]
  {
  }

  lemma FlattenAround(lists: seq<seq<Layer>>, i: nat)
    requires i < |lists|
    ensures Flatten(lists) == Flatten(lists[..i]) + lists[i] + Flatten(lists[i + 1..])
  {
    Cut(lists, i);
    FlattenConcat(lists[..i] + [lists[i]], lists[i + 1..]);
    FlattenConcat(lists[..i], [lists[i]]);
    FlattenOne(lists[i]);
  }

  /** A pack's layers are those of everything it refers to, in order, and its own body. */
  lemma LayersOfRefs(d: Disk, name: string, depth: nat)
    requires depth <= MAX_DEPTH && Readable(d, name)
    ensures Layers(d, name, depth) == Flatten(SubLayers(d, Refs(RawOf(d, name)), depth + 1)) + [RawOf(d, name).body]
  {
    var raw := RawOf(d, name);
    var imports := SubLayers(d, ImportNames(raw), depth + 1);
    if raw.base.Base? {
      var base := Layers(d, raw.base.pack, depth + 1);
      assert SubLayers(d, Refs(raw), depth + 1) == [base] + imports;
      FlattenConcat([base], imports);
      FlattenOne(base);
    } else {
      assert Refs(raw) == ImportNames(raw);
    }
  }

  /** A pack that composes at two depths has the same layers at both. */
  lemma {:induction false} SameLayers(d: Disk, name: string, m: nat, n: nat, v: set<string>, w: set<string>)
    requires Merge(d, name, m, v).Ok? && Merge(d, name, n, w).Ok?
    ensures Layers(d, name, m) == Layers(d, name, n)
    decreases Left(m)
  {
    MergeStepDown(d, name, m, v);
    MergeStepDown(d, name, n, w);
    var file, refs := Resolve(d, name), Refs(RawOf(d, name));
    forall i | 0 <= i < |refs|
      ensures Layers(d, refs[i], m + 1) == Layers(d, refs[i], n + 1)
    {
      assert refs[i] in refs;
      SameLayers(d, refs[i], m + 1, n + 1, v + {file}, w + {file});
    }
    assert SubLayers(d, refs, m + 1) == SubLayers(d, refs, n + 1);
    LayersOfRefs(d, name, m);
    LayersOfRefs(d, name, n);
  }

  lemma Nested<T>(l: seq<T>, a: seq<T>, s: seq<T>, c: seq<T>, r: seq<T>, z: seq<T>)
    ensures l + (a + s + c) + r + z == (l + a) + s + (c + r + z)
  {
  }

  /** The layers of a pack lie, as one run, within those of any pack that composes and refers to it. */
  lemma {:induction false} LayersWithin(d: Disk, p: seq<string>, depth: nat, visiting: set<string>)
    returns (a: seq<Layer>, c: seq<Layer>, n: nat, v: set<string>)
    requires RefPath(d, p) && Merge(d, p[0], depth, visiting).Ok?
    ensures Merge(d, p[|p| - 1], n, v).Ok?
    ensures Layers(d, p[0], depth) == a + Layers(d, p[|p| - 1], n) + c
    decreases |p|
  {
    if |p| == 1 {
      a, c, n, v := [], [], depth, visiting;
    } else {
      MergeStepDown(d, p[0], depth, visiting);
      PathTail(d, p);
      var refs := Refs(RawOf(d, p[0]));
      var i :| 0 <= i < |refs| && refs[i] == p[1];
      var lists := SubLayers(d, refs, depth + 1);
      var inner := visiting + {Resolve(d, p[0])};
      assert refs[i] in refs && Merge(d, p[1], depth + 1, inner).Ok?;
      a, c, n, v := LayersWithin(d, p[1..], depth + 1, inner);
      assert lists[i] == a + Layers(d, p[|p| - 1], n) + c;
      LayersOfRefs(d, p[0], depth);
      FlattenAround(lists, i);
      var l, r, z := Flatten(lists[..i]), Flatten(lists[i + 1..]), [RawOf(d, p[0]).body];
      Nested(l, a, Layers(d, p[|p| - 1], n), c, r, z);
      a, c := l + a, c + r + z;
    }
  }

  lemma Twice<T>(l: seq<T>, a: seq<T>, s: seq<T>, b: seq<T>, m: seq<T>, a': seq<T>, b': seq<T>, r: seq<T>)
    ensures l + (a + s + b) + m + (a' + s + b') + r == (l + a) + s + (b + m + a') + s + (b' + r)
  {
  }

  /** Two runs within two of several lists, the one list after the other. */
  lemma RunsWithin(
    lists: seq<seq<Layer>>, i: nat, j: nat,
    a: seq<Layer>, s: seq<Layer>, b: seq<Layer>, a': seq<Layer>, b': seq<Layer>)
    requires i < j < |lists| && lists[i] == a + s + b && lists[j] == a' + s + b'
    ensures Flatten(lists)
         == (Flatten(lists[..i]) + a) + s + (b + Flatten(lists[i + 1..j]) + a') + s + (b' + Flatten(lists[j + 1..]))
  {
    FlattenAround(lists, j);
    FlattenAround(lists[..j], i);
    Prefixes(lists, i, j);
    Twice(Flatten(lists[..i]), a, s, b, Flatten(lists[i + 1..j]), a', b', Flatten(lists[j + 1..]));
  }

  lemma Prefixes<T>(s: seq<T>, i: nat, j: nat)
    requires i < j < |s|
    ensures s[..j][i] == s[i] && s[..j][..i] == s[..i] && s[..j][i + 1..] == s[i + 1..j]
  {
  }

  lemma Append<T>(a: seq<T>, s: seq<T>, b: seq<T>, c: seq<T>, z: seq<T>)
    ensures a + s + b + s + c + z == a + s + b + s + (c + z)
  {
  }

  /** The run that a path from one of a pack's references ends in, within the layers of that reference. */
  lemma RunAt(d: Disk, name: string, depth: nat, visiting: set<string>, i: nat, p: seq<string>)
    returns (a: seq<Layer>, c: seq<Layer>, n: nat, v: set<string>)
    requires Readable(d, name) && Merge(d, name, depth, visiting).Ok?
    requires i < |Refs(RawOf(d, name))| && RefPath(d, p) && p[0] == Refs(RawOf(d, name))[i]
    ensures Merge(d, p[|p| - 1], n, v).Ok?
    ensures SubLayers(d, Refs(RawOf(d, name)), depth + 1)[i] == a + Layers(d, p[|p| - 1], n) + c
  {
    MergeStepDown(d, name, depth, visiting);
    assert p[0] in Refs(RawOf(d, name));
    a, c, n, v := LayersWithin(d, p, depth + 1, visiting + {Resolve(d, name)});
  }

  /** From the runs within two references to those within the whole pack. */
  lemma DiamondLayers(
    lists: seq<seq<Layer>>, i: nat, j: nat, shared: seq<Layer>, body: Layer,
    pa: seq<Layer>, pc: seq<Layer>, qa: seq<Layer>, qc: seq<Layer>)
    returns (a: seq<Layer>, b: seq<Layer>, c: seq<Layer>)
    requires i < j < |lists| && lists[i] == pa + shared + pc && lists[j] == qa + shared + qc
    ensures Flatten(lists) + [body] == a + shared + b + shared + c
  {
    RunsWithin(lists, i, j, pa, shared, pc, qa, qc);
    a, b, c := Flatten(lists[..i]) + pa, pc + Flatten(lists[i + 1..j]) + qa, qc + Flatten(lists[j + 1..]);
    Append(a, shared, b, c, [body]);
    c := c + [body];
  }

  /**
   * A diamond: a pack that composes reaches a shared pack through two of its references. The layers of the shared pack
   * occur twice among its own, and it is what it would be without the earlier run of them.
   */
  lemma DiamondFolds(
    d: Disk, name: string, depth: nat, visiting: set<string>, i: nat, j: nat, p: seq<string>, q: seq<string>)
    returns (a: seq<Layer>, shared: seq<Layer>, b: seq<Layer>, c: seq<Layer>, n: nat)
    requires Readable(d, name) && Merge(d, name, depth, visiting).Ok?
    requires i < j < |Refs(RawOf(d, name))| && RefPath(d, p) && RefPath(d, q)
    requires p[0] == Refs(RawOf(d, name))[i] && q[0] == Refs(RawOf(d, name))[j] && p[|p| - 1] == q[|q| - 1]
    ensures shared == Layers(d, p[|p| - 1], n)
    ensures Layers(d, name, depth) == a + shared + b + shared + c
    ensures Merge(d, name, depth, visiting).value == Fold(a + b + shared + c)
  {
    var pa, pc, m, v := RunAt(d, name, depth, visiting, i, p);
    var qa, qc, k, w := RunAt(d, name, depth, visiting, j, q);
    SameLayers(d, p[|p| - 1], m, k, v, w);
    n, shared := m, Layers(d, p[|p| - 1], m);
    ComposedIsFold(d, name, depth, visiting);
    MergeStepDown(d, name, depth, visiting);
    LayersOfRefs(d, name, depth);
    var lists := SubLayers(d, Refs(RawOf(d, name)), depth + 1);
    a, b, c := DiamondLayers(lists, i, j, shared, RawOf(d, name).body, pa, pc, qa, qc);
    DropEarlierDuplicate(a, shared, b, c);
  }
}
