/** What a composed pack is, when composing succeeds, and that strict imports do not depend on their order. */
module PackComposition {
  import opened Wrappers
  import opened PackLoader

  // ---- Layers and last-wins folds ------------------------------------------

  /** The bodies that make up a pack, in merge order: those of its base, of its imports, and its own. */
  function Layers(d: Disk, name: string, depth: nat): seq<Layer>
    decreases Left(depth), 0
  {
    var file := Resolve(d, name);
    if depth > MAX_DEPTH || file !in d.files || !d.files[file].Document? then []
    else
      var raw := d.files[file].raw;
      (if raw.base.Base? then Layers(d, raw.base.pack, depth + 1) else [])
      + Flatten(SubLayers(d, ImportNames(raw), depth + 1))
      + [raw.body]
  }

  function SubLayers(d: Disk, names: seq<string>, depth: nat): seq<seq<Layer>>
    decreases Left(depth), 1
  {
    seq(|names|, i requires 0 <= i < |names| => Layers(d, names[i], depth))
  }

  function Flatten(lists: seq<seq<Layer>>): seq<Layer> {
    if lists == [] then [] else Flatten(lists[..|lists| - 1]) + lists[|lists| - 1]
  }

  function Fold(layers: seq<Layer>): Layer {
    if layers == [] then map[] else Fold(layers[..|layers| - 1]) + layers[|layers| - 1]
  }

  lemma {:induction false} FoldConcat(a: seq<Layer>, b: seq<Layer>)
    ensures Fold(a + b) == Fold(a) + Fold(b)
  {
    if b == [] {
      assert a + b == a;
    } else {
      var n := |b| - 1;
      assert (a + b)[..|a + b| - 1] == a + b[..n];
      FoldConcat(a, b[..n]);
    }
  }

  /** A fold has exactly the keys its layers have. */
  lemma {:induction false} KeysOfFold(layers: seq<Layer>, k: Key)
    ensures k in Fold(layers) <==> exists l :: l in layers && k in l
  {
    if layers != [] {
      var n := |layers| - 1;
      assert layers == layers[..n] + [layers[n]];
      KeysOfFold(layers[..n], k);
    }
  }

  /** Each key of a fold has the value of the last layer that defines it. */
  lemma {:induction false} LastDefinerWins(layers: seq<Layer>, i: nat, k: Key)
    requires i < |layers| && k in layers[i]
    requires forall j | i < j < |layers| :: k !in layers[j]
    ensures k in Fold(layers) && Fold(layers)[k] == layers[i][k]
  {
    var n := |layers| - 1;
    if i < n {
      LastDefinerWins(layers[..n], i, k);
    }
  }

  /** A shared run of layers may be dropped wherever it occurs again later: diamonds cost nothing. */
  lemma DropEarlierDuplicate(a: seq<Layer>, shared: seq<Layer>, b: seq<Layer>, c: seq<Layer>)
    ensures Fold(a + shared + b + shared + c) == Fold(a + b + shared + c)
  {
    FoldConcat(a + shared + b + shared, c);
    FoldConcat(a + shared + b, shared);
    FoldConcat(a + shared, b);
    FoldConcat(a, shared);
    FoldConcat(a + b + shared, c);
    FoldConcat(a + b, shared);
    FoldConcat(a, b);
    Absorb(Fold(a), Fold(shared), Fold(b));
  }

  lemma Absorb(a: Layer, s: Layer, b: Layer)
    ensures a + s + b + s == a + b + s
  {
  }

  /** The folds of several lists of layers. */
  function Folds(lists: seq<seq<Layer>>): seq<Layer> {
    seq(|lists|, i requires 0 <= i < |lists| => Fold(lists[i]))
  }

  lemma {:induction false} FoldFlatten(lists: seq<seq<Layer>>)
    ensures Fold(Flatten(lists)) == Fold(Folds(lists))
  {
    if lists != [] {
      var n := |lists| - 1;
      FoldFlatten(lists[..n]);
      FoldConcat(Flatten(lists[..n]), lists[n]);
      assert Folds(lists)[..n] == Folds(lists[..n]);
    }
  }

  lemma FoldOne(l: Layer)
    ensures Fold([l]) == l
  {
    assert [l][..0] == [];
  }

  /** Folding what a base and its imports fold to, then a body, is folding all their layers at once. */
  lemma FoldOfParts(base: seq<Layer>, imports: seq<seq<Layer>>, body: Layer)
    ensures Fold(base + Flatten(imports) + [body]) == Fold([Fold(base)] + Folds(imports)) + body
  {
    FoldFlatten(imports);
    FoldConcat([Fold(base)], Folds(imports));
    FoldOne(Fold(base));
    FoldConcat(base, Flatten(imports));
    FoldConcat(base + Flatten(imports), [body]);
    FoldOne(body);
  }

  /** What a file's `extends` contributes before its imports are merged. */
  function BaseOf(d: Disk, raw: Raw, depth: nat, visiting: set<string>): Outcome {
    if raw.base.Base? then Merge(d, raw.base.pack, depth, visiting) else Ok(map[])
  }

  /** A pack that composes is the last-wins fold of its layers. */
  lemma {:induction false} ComposedIsFold(d: Disk, name: string, depth: nat, visiting: set<string>)
    requires Merge(d, name, depth, visiting).Ok?
    ensures Merge(d, name, depth, visiting).value == Fold(Layers(d, name, depth))
    decreases Left(depth), 0
  {
    var raw, inner := d.files[Resolve(d, name)].raw, visiting + {Resolve(d, name)};
    MergeValue(d, name, depth, visiting);
    ChildFolds(d, raw, depth + 1, inner);
    var layers := if raw.base.Base? then Layers(d, raw.base.pack, depth + 1) else [];
    FoldOfParts(layers, SubLayers(d, ImportNames(raw), depth + 1), raw.body);
  }

  /** What one level of a merge that succeeds answers, in terms of what its base and its imports answer. */
  lemma MergeValue(d: Disk, name: string, depth: nat, visiting: set<string>)
    requires Merge(d, name, depth, visiting).Ok?
    ensures var raw, inner := d.files[Resolve(d, name)].raw, visiting + {Resolve(d, name)};
            var base := BaseOf(d, raw, depth + 1, inner);
            var subs := Subs(d, ImportNames(raw), depth + 1, inner);
            && base.Ok? && AllOk(subs)
            && Merge(d, name, depth, visiting).value == Fold([base.value] + Values(subs)) + raw.body
  {
    var raw, inner := d.files[Resolve(d, name)].raw, visiting + {Resolve(d, name)};
    var base := BaseOf(d, raw, depth + 1, inner);
    ImportsSucceedIff(ImportNames(raw), Subs(d, ImportNames(raw), depth + 1, inner), Strict(raw), base.value);
  }

  /** Where all children compose, what they compose to is the fold of their layers. */
  lemma {:induction false} ChildFolds(d: Disk, raw: Raw, depth: nat, visiting: set<string>)
    requires raw.base.Base? ==> Merge(d, raw.base.pack, depth, visiting).Ok?
    requires AllOk(Subs(d, ImportNames(raw), depth, visiting))
    ensures raw.base.Base? ==> Merge(d, raw.base.pack, depth, visiting).value == Fold(Layers(d, raw.base.pack, depth))
    ensures Values(Subs(d, ImportNames(raw), depth, visiting)) == Folds(SubLayers(d, ImportNames(raw), depth))
    decreases Left(depth), 1
  {
    if raw.base.Base? {
      ComposedIsFold(d, raw.base.pack, depth, visiting);
    }
    var names := ImportNames(raw);
    var subs := Subs(d, names, depth, visiting);
    forall i | 0 <= i < |names|
      ensures subs[i].Ok? && subs[i].value == Fold(Layers(d, names[i], depth))
    {
      assert subs[i] in subs;
      ComposedIsFold(d, names[i], depth, visiting);
    }
  }

  // ---- Strict imports ------------------------------------------------------

  ghost predicate Agree(a: Layer, b: Layer) {
    forall k | Scalar(k) && k in a && k in b :: a[k] == b[k]
  }

  ghost predicate AllAgree(layers: seq<Layer>) {
    forall a, b | a in layers && b in layers :: Agree(a, b)
  }

  ghost predicate AllOk(subs: seq<Outcome>) {
    forall s | s in subs :: s.Ok?
  }

  function Values(subs: seq<Outcome>): seq<Layer>
    requires AllOk(subs)
  {
    seq(|subs|, i requires 0 <= i < |subs| => assert subs[i] in subs; subs[i].value)
  }

  /** Agreeing with a fold of agreeing layers is agreeing with each of them. */
  lemma {:induction false} AgreeWithFold(layers: seq<Layer>, x: Layer)
    requires AllAgree(layers)
    ensures Agree(Fold(layers), x) <==> forall l | l in layers :: Agree(l, x)
  {
    if layers != [] {
      var n := |layers| - 1;
      var last, rest := layers[n], layers[..n];
      assert layers == rest + [last];
      AgreeWithFold(rest, x);
      AgreeWithFold(rest, last);
      AgreeWithSum(Fold(rest), last, x);
    }
  }

  lemma AgreeWithSum(a: Layer, b: Layer, x: Layer)
    requires Agree(a, b)
    ensures Agree(a + b, x) <==> Agree(a, x) && Agree(b, x)
  {
    forall k | Scalar(k) && k in a && k in x && Agree(a + b, x)
      ensures a[k] == x[k]
    {
      assert k in a + b;
    }
    forall k | Scalar(k) && k in b && k in x && Agree(a + b, x)
      ensures b[k] == x[k]
    {
      assert k in a + b;
    }
  }

  lemma AllAgreeStep(layers: seq<Layer>, x: Layer)
    ensures AllAgree(layers + [x]) <==> AllAgree(layers) && forall l | l in layers :: Agree(l, x)
  {
    assert forall l :: l in layers + [x] <==> l in layers || l == x;
    assert x in layers + [x];
  }

  /** Importing succeeds exactly when every import composes and, if strict, base and imports agree on scalars. */
  lemma {:induction false} ImportsSucceedIff(names: seq<string>, subs: seq<Outcome>, strict: bool, base: Layer)
    requires |subs| == |names|
    ensures MergeImports(names, subs, strict, base).Ok? <==> AllOk(subs) && (strict ==> AllAgree([base] + Values(subs)))
    ensures MergeImports(names, subs, strict, base).Ok? ==>
              MergeImports(names, subs, strict, base).value == Fold([base] + Values(subs))
  {
    if names == [] {
      FoldOne(base);
      assert [base] + Values(subs) == [base];
    } else {
      var n := |names| - 1;
      ImportsSucceedIff(names[..n], subs[..n], strict, base);
      assert subs == subs[..n] + [subs[n]];
      assert AllOk(subs) <==> AllOk(subs[..n]) && subs[n].Ok?;
      if AllOk(subs) {
        var rest, last := [base] + Values(subs[..n]), subs[n].value;
        assert [base] + Values(subs) == rest + [last];
        OneMore(rest, last);
      }
    }
  }

  /** Merging one more layer: it agrees with all before it exactly when it does not conflict with their fold. */
  lemma OneMore(rest: seq<Layer>, last: Layer)
    ensures Fold(rest + [last]) == Fold(rest) + last
    ensures AllAgree(rest + [last]) <==> AllAgree(rest) && !Conflicts(Fold(rest), last)
  {
    assert (rest + [last])[..|rest|] == rest;
    AllAgreeStep(rest, last);
    if AllAgree(rest) {
      AgreeWithFold(rest, last);
    }
  }

  /** On a scalar key, a fold of agreeing layers has the value any of them gives it. */
  lemma ScalarOfAgreeing(layers: seq<Layer>, l: Layer, k: Key)
    requires AllAgree(layers) && l in layers && Scalar(k) && k in l
    ensures k in Fold(layers) && Fold(layers)[k] == l[k]
  {
    KeysOfFold(layers, k);
    AgreeWithFold(layers, l);
  }

  /** Strict imports may be reordered, or listed again: neither success nor any scalar value changes. */
  lemma StrictImportOrderIrrelevant(
    d: Disk, names: seq<string>, names': seq<string>, depth: nat, visiting: set<string>, base: Layer)
    requires forall n :: n in names <==> n in names'
    ensures var r := MergeImports(names, Subs(d, names, depth, visiting), true, base);
            var r' := MergeImports(names', Subs(d, names', depth, visiting), true, base);
            && (r.Ok? <==> r'.Ok?)
            && (r.Ok? ==>
                  forall k | Scalar(k) ::
                    (k in r.value <==> k in r'.value) && (k in r.value ==> r.value[k] == r'.value[k]))
  {
    var subs, subs' := Subs(d, names, depth, visiting), Subs(d, names', depth, visiting);
    ImportsSucceedIff(names, subs, true, base);
    ImportsSucceedIff(names', subs', true, base);
    SameOutcomes(d, names, names', depth, visiting);
    SameOutcomes(d, names', names, depth, visiting);
    if AllOk(subs) {
      var all, all' := [base] + Values(subs), [base] + Values(subs');
      SameValues(subs, subs');
      SameValues(subs', subs);
      assert forall l :: l in all <==> l in all';
      if AllAgree(all) {
        forall k | Scalar(k)
          ensures (k in Fold(all) <==> k in Fold(all')) && (k in Fold(all) ==> Fold(all)[k] == Fold(all')[k])
        {
          SameScalar(all, all', k);
        }
      }
    }
  }

  lemma SameScalar(all: seq<Layer>, all': seq<Layer>, k: Key)
    requires AllAgree(all) && Scalar(k) && forall l :: l in all <==> l in all'
    ensures (k in Fold(all) <==> k in Fold(all')) && (k in Fold(all) ==> Fold(all)[k] == Fold(all')[k])
  {
    KeysOfFold(all, k);
    KeysOfFold(all', k);
    if l :| l in all && k in l {
      ScalarOfAgreeing(all, l, k);
      ScalarOfAgreeing(all', l, k);
    }
  }

  lemma SameOutcomes(d: Disk, names: seq<string>, names': seq<string>, depth: nat, visiting: set<string>)
    requires forall n | n in names :: n in names'
    ensures forall s | s in Subs(d, names, depth, visiting) :: s in Subs(d, names', depth, visiting)
  {
    forall s | s in Subs(d, names, depth, visiting)
      ensures s in Subs(d, names', depth, visiting)
    {
      var i :| 0 <= i < |names| && s == Subs(d, names, depth, visiting)[i];
      assert names[i] in names';
      var j :| 0 <= j < |names'| && names'[j] == names[i];
      assert Subs(d, names', depth, visiting)[j] == s;
    }
  }

  lemma SameValues(subs: seq<Outcome>, subs': seq<Outcome>)
    requires AllOk(subs) && AllOk(subs') && forall s | s in subs :: s in subs'
    ensures forall l | l in Values(subs) :: l in Values(subs')
  {
    forall l | l in Values(subs)
      ensures l in Values(subs')
    {
      var i :| 0 <= i < |subs| && l == Values(subs)[i];
      assert subs[i] in subs';
      var j :| 0 <= j < |subs'| && subs'[j] == subs[i];
      assert Values(subs')[j] == l;
    }
  }

  // ---- When composing succeeds ---------------------------------------------

  predicate Readable(d: Disk, name: string) {
    Resolve(d, name) in d.files && d.files[Resolve(d, name)].Document?
  }

  function RawOf(d: Disk, name: string): Raw
    requires Readable(d, name)
  {
    d.files[Resolve(d, name)].raw
  }

  /** The packs a file refers to. */
  function Refs(raw: Raw): seq<string> {
    (if raw.base.Base? then [raw.base.pack] else []) + ImportNames(raw)
  }

  /** A chain of references: each name but the last is a readable pack that refers to the next. */
  ghost predicate RefPath(d: Disk, p: seq<string>) {
    p != [] && forall i | 0 <= i < |p| - 1 :: Readable(d, p[i]) && p[i + 1] in Refs(RawOf(d, p[i]))
  }

  ghost predicate NoRepeat(d: Disk, p: seq<string>) {
    forall i, j | 0 <= i < j < |p| :: Resolve(d, p[i]) != Resolve(d, p[j])
  }

  ghost predicate Avoids(d: Disk, p: seq<string>, files: set<string>) {
    forall i | 0 <= i < |p| :: Resolve(d, p[i]) !in files
  }

  /** A file that is there, is a mapping, has a proper `extends`, and, if strict, whose parts agree on scalars. */
  ghost predicate WellFormed(d: Disk, name: string, depth: nat) {
    && Readable(d, name)
    && var raw := RawOf(d, name);
       && !raw.base.NotAString?
       && (Strict(raw) ==> PartsAgree(d, raw, depth + 1))
  }

  /** What a file extends and imports, each composed on its own, pairwise agree on scalars. */
  ghost predicate PartsAgree(d: Disk, raw: Raw, depth: nat) {
    AllAgree([if raw.base.Base? then Fold(Layers(d, raw.base.pack, depth)) else map[]]
             + Folds(SubLayers(d, ImportNames(raw), depth)))
  }

  ghost predicate ShortAndSimple(d: Disk, p: seq<string>, depth: nat, visiting: set<string>) {
    depth + |p| - 1 <= MAX_DEPTH && NoRepeat(d, p) && Avoids(d, p, visiting)
  }

  ghost predicate GoodPath(d: Disk, p: seq<string>, depth: nat, visiting: set<string>)
    requires p != []
  {
    ShortAndSimple(d, p, depth, visiting) && EndsWell(d, p, depth)
  }

  /** The last name of a path is well formed at its depth. */
  ghost predicate EndsWell(d: Disk, p: seq<string>, depth: nat)
    requires p != []
  {
    if |p| == 1 then WellFormed(d, p[0], depth) else EndsWell(d, p[1..], depth + 1)
  }

  lemma {:induction false} EndsWellIs(d: Disk, p: seq<string>, depth: nat, last: string, n: nat)
    requires p != [] && last == p[|p| - 1] && n == depth + |p| - 1
    ensures EndsWell(d, p, depth) <==> WellFormed(d, last, n)
  {
    if |p| == 1 {
      assert p[0] == last && depth == n;
    } else {
      EndsWellIs(d, p[1..], depth + 1, last, n);
    }
  }

  ghost predicate AllPathsGood(d: Disk, name: string, depth: nat, visiting: set<string>) {
    forall p | RefPath(d, p) && p[0] == name :: GoodPath(d, p, depth, visiting)
  }

  ghost predicate ChildrenCompose(d: Disk, raw: Raw, depth: nat, visiting: set<string>) {
    forall c | c in Refs(raw) :: Merge(d, c, depth, visiting).Ok?
  }

  lemma ChildrenComposeIff(d: Disk, raw: Raw, depth: nat, visiting: set<string>)
    ensures ChildrenCompose(d, raw, depth, visiting) <==>
            && (raw.base.Base? ==> Merge(d, raw.base.pack, depth, visiting).Ok?)
            && AllOk(Subs(d, ImportNames(raw), depth, visiting))
  {
    var names := ImportNames(raw);
    var subs := Subs(d, names, depth, visiting);
    assert forall c :: c in Refs(raw) <==> (raw.base.Base? && c == raw.base.pack) || c in names;
    assert forall i | 0 <= i < |names| :: subs[i] in subs && names[i] in names;
  }

  lemma MergeUnfolds(d: Disk, name: string, depth: nat, visiting: set<string>)
    requires depth <= MAX_DEPTH && Resolve(d, name) !in visiting
    requires Readable(d, name) && !RawOf(d, name).base.NotAString?
    ensures var raw, inner := RawOf(d, name), visiting + {Resolve(d, name)};
            var base, names := BaseOf(d, raw, depth + 1, inner), ImportNames(raw);
            Merge(d, name, depth, visiting).Ok? <==>
            base.Ok? && MergeImports(names, Subs(d, names, depth + 1, inner), Strict(raw), base.value).Ok?
  {
  }

  /** One level: a pack that composes is itself in order, and everything it refers to composes. */
  lemma MergeStepDown(d: Disk, name: string, depth: nat, visiting: set<string>)
    requires Merge(d, name, depth, visiting).Ok?
    ensures depth <= MAX_DEPTH && Resolve(d, name) !in visiting && WellFormed(d, name, depth)
    ensures ChildrenCompose(d, RawOf(d, name), depth + 1, visiting + {Resolve(d, name)})
  {
    var raw, inner := RawOf(d, name), visiting + {Resolve(d, name)};
    MergeUnfolds(d, name, depth, visiting);
    PartsCompose(d, raw, depth + 1, inner, BaseOf(d, raw, depth + 1, inner).value);
    ChildrenComposeIff(d, raw, depth + 1, inner);
  }

  /** And a pack that is in order composes when everything it refers to does. */
  lemma MergeStepUp(d: Disk, name: string, depth: nat, visiting: set<string>)
    requires depth <= MAX_DEPTH && Resolve(d, name) !in visiting && WellFormed(d, name, depth)
    requires ChildrenCompose(d, RawOf(d, name), depth + 1, visiting + {Resolve(d, name)})
    ensures Merge(d, name, depth, visiting).Ok?
  {
    var raw, inner := RawOf(d, name), visiting + {Resolve(d, name)};
    ChildrenComposeIff(d, raw, depth + 1, inner);
    PartsCompose(d, raw, depth + 1, inner, BaseOf(d, raw, depth + 1, inner).value);
    MergeUnfolds(d, name, depth, visiting);
  }

  /** A file's imports merge exactly when they all compose and, if strict, agree. */
  lemma PartsCompose(d: Disk, raw: Raw, depth: nat, visiting: set<string>, base: Layer)
    requires BaseOf(d, raw, depth, visiting) == Ok(base)
    ensures var names := ImportNames(raw);
            MergeImports(names, Subs(d, names, depth, visiting), Strict(raw), base).Ok? <==>
            && AllOk(Subs(d, names, depth, visiting))
            && (Strict(raw) ==> PartsAgree(d, raw, depth))
  {
    var subs := Subs(d, ImportNames(raw), depth, visiting);
    ImportsSucceedIff(ImportNames(raw), subs, Strict(raw), base);
    if AllOk(subs) {
      ChildFolds(d, raw, depth, visiting);
    }
  }

  /** A path is short and simple when its first name is not being visited and the rest is so one level down. */
  lemma PathStep(d: Disk, p: seq<string>, depth: nat, visiting: set<string>)
    requires |p| > 1
    ensures ShortAndSimple(d, p, depth, visiting) <==>
            Resolve(d, p[0]) !in visiting && ShortAndSimple(d, p[1..], depth + 1, visiting + {Resolve(d, p[0])})
  {
    NoRepeatStep(d, p);
    var q, files := p[1..], visiting + {Resolve(d, p[0])};
    assert forall i | 0 <= i < |q| :: q[i] == p[i + 1];
    assert Avoids(d, q, files) <==> Avoids(d, q, visiting) && Avoids(d, q, {Resolve(d, p[0])});
    assert Avoids(d, p, visiting) <==> Resolve(d, p[0]) !in visiting && Avoids(d, q, visiting) by {
      assert forall i | 0 < i < |p| :: p[i] == q[i - 1];
    }
  }

  lemma NoRepeatStep(d: Disk, p: seq<string>)
    requires |p| > 1
    ensures NoRepeat(d, p) <==> NoRepeat(d, p[1..]) && Avoids(d, p[1..], {Resolve(d, p[0])})
  {
    var q := p[1..];
    if NoRepeat(d, p) {
      assert forall i | 0 <= i < |q| :: q[i] == p[i + 1];
    } else {
      var i, j :| 0 <= i < j < |p| && Resolve(d, p[i]) == Resolve(d, p[j]);
      assert p[j] == q[j - 1];
      assert i > 0 ==> p[i] == q[i - 1];
    }
  }

  lemma PathTail(d: Disk, p: seq<string>)
    requires RefPath(d, p) && |p| > 1
    ensures Readable(d, p[0]) && p[1] in Refs(RawOf(d, p[0])) && RefPath(d, p[1..])
  {
    assert p[0 + 1] in Refs(RawOf(d, p[0]));
  }

  lemma {:induction false} ComposeSound(d: Disk, depth: nat, visiting: set<string>, p: seq<string>)
    requires RefPath(d, p) && Merge(d, p[0], depth, visiting).Ok?
    ensures GoodPath(d, p, depth, visiting)
    decreases |p|
  {
    MergeStepDown(d, p[0], depth, visiting);
    if |p| > 1 {
      PathTail(d, p);
      ComposeSound(d, depth + 1, visiting + {Resolve(d, p[0])}, p[1..]);
      PathStep(d, p, depth, visiting);
    }
  }

  lemma {:induction false} ComposeComplete(d: Disk, name: string, depth: nat, visiting: set<string>)
    requires AllPathsGood(d, name, depth, visiting)
    ensures Merge(d, name, depth, visiting).Ok?
    decreases Left(depth)
  {
    EntryGood(d, name, depth, visiting);
    var raw, inner := RawOf(d, name), visiting + {Resolve(d, name)};
    forall c | c in Refs(raw)
      ensures Merge(d, c, depth + 1, inner).Ok?
    {
      ChildPathsGood(d, name, depth, visiting, c);
      ComposeComplete(d, c, depth + 1, inner);
    }
    assert ChildrenCompose(d, raw, depth + 1, inner);
    MergeStepUp(d, name, depth, visiting);
  }

  /** The path of the entry alone. */
  lemma EntryGood(d: Disk, name: string, depth: nat, visiting: set<string>)
    requires AllPathsGood(d, name, depth, visiting)
    ensures depth <= MAX_DEPTH && Resolve(d, name) !in visiting && WellFormed(d, name, depth)
  {
    var p := [name];
    assert RefPath(d, p) && p[0] == name;
    assert GoodPath(d, p, depth, visiting);
  }

  lemma ChildPathsGood(d: Disk, name: string, depth: nat, visiting: set<string>, c: string)
    requires AllPathsGood(d, name, depth, visiting)
    requires Readable(d, name) && c in Refs(RawOf(d, name))
    ensures AllPathsGood(d, c, depth + 1, visiting + {Resolve(d, name)})
  {
    forall q | RefPath(d, q) && q[0] == c
      ensures GoodPath(d, q, depth + 1, visiting + {Resolve(d, name)})
    {
      LongerPath(d, name, depth, visiting, q);
    }
  }

  lemma LongerPath(d: Disk, name: string, depth: nat, visiting: set<string>, q: seq<string>)
    requires AllPathsGood(d, name, depth, visiting)
    requires RefPath(d, q) && Readable(d, name) && q[0] in Refs(RawOf(d, name))
    ensures GoodPath(d, q, depth + 1, visiting + {Resolve(d, name)})
  {
    var p := [name] + q;
    assert p[1..] == q;
    assert RefPath(d, p) by {
      forall i | 0 <= i < |p| - 1
        ensures Readable(d, p[i]) && p[i + 1] in Refs(RawOf(d, p[i]))
      {
        if i > 0 {
          assert p[i] == q[i - 1] && p[i + 1] == q[i - 1 + 1];
        }
      }
    }
    assert GoodPath(d, p, depth, visiting);
    PathStep(d, p, depth, visiting);
  }

  /**
   * A pack composes exactly when every chain of references from it repeats no file, has at most twelve
   * references, and ends in a well-formed file. Cyclic and over-deep pack sets are refused, and only bad ones are.
   */
  lemma ComposesIff(d: Disk, name: string)
    ensures Merge(d, name, 0, {}).Ok? <==>
            forall p | RefPath(d, p) && p[0] == name ::
              |p| - 1 <= 12 && NoRepeat(d, p) && WellFormed(d, p[|p| - 1], |p| - 1)
  {
    if Merge(d, name, 0, {}).Ok? {
      forall p | RefPath(d, p) && p[0] == name
        ensures |p| - 1 <= 12 && NoRepeat(d, p) && WellFormed(d, p[|p| - 1], |p| - 1)
      {
        ComposeSound(d, 0, {}, p);
        EndsWellIs(d, p, 0, p[|p| - 1], |p| - 1);
      }
    } else if forall p | RefPath(d, p) && p[0] == name ::
        |p| - 1 <= 12 && NoRepeat(d, p) && WellFormed(d, p[|p| - 1], |p| - 1) {
      forall p | RefPath(d, p) && p[0] == name
        ensures GoodPath(d, p, 0, {})
      {
        EndsWellIs(d, p, 0, p[|p| - 1], |p| - 1);
      }
      ComposeComplete(d, name, 0, {});
    }
  }
}
