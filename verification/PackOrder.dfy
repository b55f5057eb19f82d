/** Reordering one strict file's import list: no pack that uses it, near or far, notices in success or in any scalar. */
module PackOrder {
  import opened Wrappers
  import opened PackLoader
  import opened PackComposition

  // ---- Layers and outcomes with the same scalars ---------------------------

  ghost predicate SameScalars(a: Layer, b: Layer) {
    forall k | Scalar(k) :: (k in a <==> k in b) && (k in a ==> a[k] == b[k])
  }

  /** Both fail, or both succeed with the same scalars. */
  ghost predicate Alike(r: Outcome, r': Outcome) {
    (r.Ok? <==> r'.Ok?) && (r.Ok? ==> SameScalars(r.value, r'.value))
  }

  /** Every layer of the one list has one with the same scalars in the other. */
  ghost predicate Covered(all: seq<Layer>, all': seq<Layer>) {
    forall l {:trigger Mirrored(l, all')} | l in all :: Mirrored(l, all')
  }

  ghost predicate Mirrored(l: Layer, all: seq<Layer>) {
    exists l' :: l' in all && SameScalars(l, l')
  }

  lemma AgreementCarries(all: seq<Layer>, all': seq<Layer>)
    requires Covered(all', all) && AllAgree(all)
    ensures AllAgree(all')
  {
    forall a', b' | a' in all' && b' in all'
      ensures Agree(a', b')
    {
      assert Mirrored(a', all) && Mirrored(b', all);
      var a :| a in all && SameScalars(a', a);
      var b :| b in all && SameScalars(b', b);
      assert Agree(a, b);
    }
  }

  lemma FoldCarries(all: seq<Layer>, all': seq<Layer>, k: Key)
    requires Covered(all, all') && AllAgree(all) && AllAgree(all') && Scalar(k) && k in Fold(all)
    ensures k in Fold(all') && Fold(all')[k] == Fold(all)[k]
  {
    KeysOfFold(all, k);
    var l :| l in all && k in l;
    assert Mirrored(l, all');
    var l' :| l' in all' && SameScalars(l, l');
    ScalarOfAgreeing(all, l, k);
    ScalarOfAgreeing(all', l', k);
  }

  lemma FoldsAlike(all: seq<Layer>, all': seq<Layer>)
    requires Covered(all, all') && Covered(all', all) && AllAgree(all) && AllAgree(all')
    ensures SameScalars(Fold(all), Fold(all'))
  {
    forall k | Scalar(k)
      ensures (k in Fold(all) <==> k in Fold(all')) && (k in Fold(all) ==> Fold(all)[k] == Fold(all')[k])
    {
      if k in Fold(all) {
        FoldCarries(all, all', k);
      } else if k in Fold(all') {
        FoldCarries(all', all, k);
      }
    }
  }

  // ---- Importing -----------------------------------------------------------

  /** Importing outcomes that are alike one by one comes to alike outcomes, strict or not. */
  lemma {:induction false} PointwiseImports(
    names: seq<string>, subs: seq<Outcome>, subs': seq<Outcome>, strict: bool, base: Layer, base': Layer)
    requires |subs| == |subs'| == |names| && SameScalars(base, base')
    requires forall i | 0 <= i < |names| :: Alike(subs[i], subs'[i])
    ensures Alike(MergeImports(names, subs, strict, base), MergeImports(names, subs', strict, base'))
  {
    if names != [] {
      var n := |names| - 1;
      PointwiseImports(names[..n], subs[..n], subs'[..n], strict, base, base');
      assert Alike(subs[n], subs'[n]);
    }
  }

  /** Every outcome of the one list has an alike one in the other. */
  ghost predicate Matched(subs: seq<Outcome>, subs': seq<Outcome>) {
    forall i {:trigger Met(subs[i], subs')} | 0 <= i < |subs| :: Met(subs[i], subs')
  }

  ghost predicate Met(r: Outcome, subs: seq<Outcome>) {
    exists j :: 0 <= j < |subs| && Alike(r, subs[j])
  }

  lemma MatchedValues(subs: seq<Outcome>, subs': seq<Outcome>, base: Layer, base': Layer)
    requires Matched(subs, subs') && AllOk(subs) && AllOk(subs') && SameScalars(base, base')
    ensures Covered([base] + Values(subs), [base'] + Values(subs'))
  {
    var all, all' := [base] + Values(subs), [base'] + Values(subs');
    forall l | l in all
      ensures Mirrored(l, all')
    {
      if l in Values(subs) {
        var i :| 0 <= i < |subs| && Values(subs)[i] == l;
        assert Met(subs[i], subs');
        var j :| 0 <= j < |subs'| && Alike(subs[i], subs'[j]);
        assert Values(subs')[j] in all';
      } else {
        assert base' in all';
      }
    }
  }

  lemma MatchedOk(subs: seq<Outcome>, subs': seq<Outcome>)
    requires Matched(subs', subs) && AllOk(subs)
    ensures AllOk(subs')
  {
    forall s | s in subs'
      ensures s.Ok?
    {
      var i :| 0 <= i < |subs'| && subs'[i] == s;
      assert Met(subs'[i], subs);
      var j :| 0 <= j < |subs| && Alike(subs'[i], subs[j]);
      assert subs[j] in subs;
    }
  }

  /** Strict importing does not depend on order at all. */
  lemma StrictImports(
    names: seq<string>, subs: seq<Outcome>, names': seq<string>, subs': seq<Outcome>, base: Layer, base': Layer)
    requires |subs| == |names| && |subs'| == |names'| && SameScalars(base, base')
    requires Matched(subs, subs') && Matched(subs', subs)
    ensures Alike(MergeImports(names, subs, true, base), MergeImports(names', subs', true, base'))
  {
    ImportsSucceedIff(names, subs, true, base);
    ImportsSucceedIff(names', subs', true, base');
    if AllOk(subs) {
      MatchedOk(subs, subs');
    } else if AllOk(subs') {
      MatchedOk(subs', subs);
    }
    if AllOk(subs) && AllOk(subs') {
      MatchedValues(subs, subs', base, base');
      MatchedValues(subs', subs, base', base);
      AgreeAlike([base] + Values(subs), [base'] + Values(subs'));
    }
  }

  lemma AgreeAlike(all: seq<Layer>, all': seq<Layer>)
    requires Covered(all, all') && Covered(all', all)
    ensures AllAgree(all) <==> AllAgree(all')
    ensures AllAgree(all) ==> SameScalars(Fold(all), Fold(all'))
  {
    if AllAgree(all) {
      AgreementCarries(all, all');
      FoldsAlike(all, all');
    } else if AllAgree(all') {
      AgreementCarries(all', all);
    }
  }

  // ---- Two disks -----------------------------------------------------------

  /** The same disk, but that one strict file lists the same imports in another order. */
  ghost predicate Reordered(d: Disk, d': Disk, file: string) {
    && file in d.files && d.files[file].Document? && d.files[file].raw.imports.Items? && Strict(d.files[file].raw)
    && d'.locate == d.locate && d'.builtin == d.builtin
    && file in d'.files && d'.files[file].Document? && d'.files[file].raw.imports.Items?
    && d'.files == d.files[file := d'.files[file]]
    && d'.files[file].raw == d.files[file].raw.(imports := d'.files[file].raw.imports)
    && forall n :: n in ImportNames(d.files[file].raw) <==> n in ImportNames(d'.files[file].raw)
  }

  lemma SubsMatched(
    d: Disk, d': Disk, names: seq<string>, names': seq<string>, depth: nat, visiting: set<string>)
    requires forall n | n in names :: n in names' && Alike(Merge(d, n, depth, visiting), Merge(d', n, depth, visiting))
    ensures Matched(Subs(d, names, depth, visiting), Subs(d', names', depth, visiting))
  {
    var subs, subs' := Subs(d, names, depth, visiting), Subs(d', names', depth, visiting);
    forall i | 0 <= i < |subs|
      ensures Met(subs[i], subs')
    {
      assert names[i] in names;
      var j :| 0 <= j < |names'| && names'[j] == names[i];
      assert Alike(subs[i], subs'[j]);
    }
  }

  lemma AlikeIsSymmetric(r: Outcome, r': Outcome)
    requires Alike(r, r')
    ensures Alike(r', r)
  {
  }

  /** One file's imports come to alike outcomes on both disks when each of its imports does. */
  lemma ImportsAlike(
    d: Disk, d': Disk, file: string, name: string, depth: nat, visiting: set<string>, base: Layer, base': Layer)
    requires Reordered(d, d', file) && Readable(d, name) && SameScalars(base, base')
    requires forall n | n in ImportNames(RawOf(d, name)) ::
               Alike(Merge(d, n, depth, visiting), Merge(d', n, depth, visiting))
    ensures var (raw, raw') := (RawOf(d, name), RawOf(d', name));
            Alike(MergeImports(ImportNames(raw), Subs(d, ImportNames(raw), depth, visiting), Strict(raw), base),
                  MergeImports(ImportNames(raw'), Subs(d', ImportNames(raw'), depth, visiting), Strict(raw'), base'))
  {
    var (names, names') := (ImportNames(RawOf(d, name)), ImportNames(RawOf(d', name)));
    var subs, subs' := Subs(d, names, depth, visiting), Subs(d', names', depth, visiting);
    if Resolve(d, name) == file {
      SubsMatched(d, d', names, names', depth, visiting);
      forall n | n in names'
        ensures Alike(Merge(d', n, depth, visiting), Merge(d, n, depth, visiting))
      {
        AlikeIsSymmetric(Merge(d, n, depth, visiting), Merge(d', n, depth, visiting));
      }
      SubsMatched(d', d, names', names, depth, visiting);
      StrictImports(names, subs, names', subs', base, base');
    } else {
      assert names' == names && forall i | 0 <= i < |names| :: names[i] in names;
      PointwiseImports(names, subs, subs', Strict(RawOf(d, name)), base, base');
    }
  }

  /** A file reads the same on both disks, but for the order of its imports. */
  lemma ReadsAlike(d: Disk, d': Disk, file: string, name: string)
    requires Reordered(d, d', file)
    ensures Resolve(d', name) == Resolve(d, name)
    ensures Resolve(d, name) in d.files <==> Resolve(d, name) in d'.files
    ensures Readable(d, name) <==> Readable(d', name)
    ensures Readable(d, name) ==>
              RawOf(d', name).base == RawOf(d, name).base && RawOf(d', name).body == RawOf(d, name).body
  {
  }

  /** Past the guards, a merge is what its base and its imports come to, and the file's own body. */
  function Rest(d: Disk, raw: Raw, depth: nat, visiting: set<string>): Outcome {
    var base := BaseOf(d, raw, depth, visiting);
    if base.Err? then base
    else
      var names := ImportNames(raw);
      var merged := MergeImports(names, Subs(d, names, depth, visiting), Strict(raw), base.value);
      if merged.Err? then merged else Ok(merged.value + raw.body)
  }

  predicate Guarded(d: Disk, name: string, depth: nat, visiting: set<string>) {
    depth <= MAX_DEPTH && Resolve(d, name) !in visiting && Readable(d, name) && !RawOf(d, name).base.NotAString?
  }

  lemma MergeIsRest(d: Disk, name: string, depth: nat, visiting: set<string>)
    ensures if Guarded(d, name, depth, visiting)
            then Merge(d, name, depth, visiting) == Rest(d, RawOf(d, name), depth + 1, visiting + {Resolve(d, name)})
            else Merge(d, name, depth, visiting).Err?
  {
  }

  lemma RestAlike(d: Disk, d': Disk, file: string, name: string, depth: nat, visiting: set<string>)
    requires Reordered(d, d', file) && Readable(d, name)
    requires forall c | c in Refs(RawOf(d, name)) :: Alike(Merge(d, c, depth, visiting), Merge(d', c, depth, visiting))
    ensures Readable(d', name)
    ensures Alike(Rest(d, RawOf(d, name), depth, visiting), Rest(d', RawOf(d', name), depth, visiting))
  {
    ReadsAlike(d, d', file, name);
    var (raw, raw') := (RawOf(d, name), RawOf(d', name));
    var (base, base') := (BaseOf(d, raw, depth, visiting), BaseOf(d', raw', depth, visiting));
    if raw.base.Base? {
      assert raw.base.pack in Refs(raw);
    }
    assert Alike(base, base');
    if base.Ok? {
      assert forall n | n in ImportNames(raw) :: n in Refs(raw);
      ImportsAlike(d, d', file, name, depth, visiting, base.value, base'.value);
    }
  }

  /** Reordering a strict file's imports changes neither whether any entry composes nor any scalar it composes to. */
  lemma {:induction false} OrderNeverMatters(
    d: Disk, d': Disk, file: string, name: string, depth: nat, visiting: set<string>)
    requires Reordered(d, d', file)
    ensures Alike(Merge(d, name, depth, visiting), Merge(d', name, depth, visiting))
    decreases Left(depth)
  {
    ReadsAlike(d, d', file, name);
    MergeIsRest(d, name, depth, visiting);
    MergeIsRest(d', name, depth, visiting);
    if Guarded(d, name, depth, visiting) {
      var inner := visiting + {Resolve(d, name)};
      forall c | c in Refs(RawOf(d, name))
        ensures Alike(Merge(d, c, depth + 1, inner), Merge(d', c, depth + 1, inner))
      {
        OrderNeverMatters(d, d', file, c, depth + 1, inner);
      }
      RestAlike(d, d', file, name, depth + 1, inner);
    }
  }
}
