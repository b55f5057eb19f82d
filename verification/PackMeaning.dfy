/**
 * One level of a merge spelled out on a file's own `extends`, import list and body: which value each key gets, and
 * which fault comes first.
 */
module PackMeaning {
  import opened Wrappers
  import opened PackLoader
  import opened PackComposition

  /** What each pack composes to. */
  type Composed = string -> Outcome

  // ---- The import list, given what each pack composes to -------------------

  /** An item of an import list that names a pack which composes to a layer with this key. */
  ghost predicate Defines(sub: Composed, item: Item, k: Key) {
    item.Name? && sub(item.pack).Ok? && k in sub(item.pack).value
  }

  /** Of the first `n` items, `j` is the last that defines the key. */
  ghost predicate LastDefiner(sub: Composed, items: seq<Item>, n: int, k: Key, j: int) {
    0 <= j < n <= |items| && Defines(sub, items[j], k) && forall m | j < m < n :: !Defines(sub, items[m], k)
  }

  ghost predicate NoDefiner(sub: Composed, items: seq<Item>, n: int, k: Key) {
    0 <= n <= |items| && forall m | 0 <= m < n :: !Defines(sub, items[m], k)
  }

  /** What a key is worth after `n` items: what the last of them to define it says, or else what the base says. */
  ghost predicate Worth(sub: Composed, items: seq<Item>, n: nat, base: Layer, k: Key, v: Value) {
    || Said(sub, items, n, k, v)
    || (NoDefiner(sub, items, n, k) && k in base && base[k] == v)
  }

  ghost predicate Said(sub: Composed, items: seq<Item>, n: nat, k: Key, v: Value) {
    exists j :: LastDefiner(sub, items, n, k, j) && sub(items[j].pack).value[k] == v
  }

  /** Item `i` disagrees with what some scalar is worth before it. */
  ghost predicate Clashes(sub: Composed, items: seq<Item>, i: nat, base: Layer)
    requires i < |items|
  {
    exists k, v ::
      && Scalar(k) && Defines(sub, items[i], k) && Worth(sub, items, i, base, k, v)
      && sub(items[i].pack).value[k] != v
  }

  /** Importing stops at item `i`. */
  ghost predicate Stops(sub: Composed, items: seq<Item>, i: nat, strict: bool, base: Layer)
    requires i < |items|
  {
    items[i].Name? && (sub(items[i].pack).Err? || (strict && Clashes(sub, items, i, base)))
  }

  ghost predicate NeverStops(sub: Composed, items: seq<Item>, n: nat, strict: bool, base: Layer)
    requires n <= |items|
  {
    forall i | 0 <= i < n :: !Stops(sub, items, i, strict, base)
  }

  /** The first item at which importing stops. */
  ghost predicate FirstStop(sub: Composed, items: seq<Item>, i: int, strict: bool, base: Layer) {
    0 <= i < |items| && Stops(sub, items, i, strict, base) && NeverStops(sub, items, i, strict, base)
  }

  /** The fault an item stops with: its own, or else the conflict. */
  function FaultOf(sub: Composed, pack: string): Outcome {
    if sub(pack).Err? then sub(pack) else Err(Conflict(pack))
  }

  /** The layer holds exactly what each key is worth after all items. */
  ghost predicate Holds(sub: Composed, items: seq<Item>, base: Layer, merged: Layer) {
    forall k, v :: k in merged && merged[k] == v <==> Worth(sub, items, |items|, base, k, v)
  }

  /** The first item at which importing stops decides the fault; without one, each key is worth what was said last. */
  ghost predicate Decided(sub: Composed, items: seq<Item>, strict: bool, base: Layer, r: Outcome) {
    if r.Ok? then NeverStops(sub, items, |items|, strict, base) && Holds(sub, items, base, r.value)
    else exists i :: FirstStop(sub, items, i, strict, base) && r == FaultOf(sub, items[i].pack)
  }

  function Outcomes(sub: Composed, names: seq<string>): seq<Outcome> {
    seq(|names|, i requires 0 <= i < |names| => sub(names[i]))
  }

  function Imported(sub: Composed, items: seq<Item>, strict: bool, base: Layer): Outcome {
    MergeImports(Names(items), Outcomes(sub, Names(items)), strict, base)
  }

  lemma ImportedStep(sub: Composed, items: seq<Item>, last: Item, strict: bool, base: Layer)
    ensures var before := Imported(sub, items, strict, base);
            Imported(sub, items + [last], strict, base)
            == if before.Err? || last.NotAName? then before
               else if sub(last.pack).Err? then sub(last.pack)
               else if strict && Conflicts(before.value, sub(last.pack).value) then Err(Conflict(last.pack))
               else Ok(before.value + sub(last.pack).value)
  {
    assert (items + [last])[..|items + [last]| - 1] == items;
    var names, n := Names(items), |Names(items)|;
    if last.NotAName? {
      assert Names(items + [last]) == names;
    } else {
      assert Names(items + [last]) == names + [last.pack];
      assert (names + [last.pack])[..n] == names;
      assert Outcomes(sub, names + [last.pack])[..n] == Outcomes(sub, names);
    }
  }

  /** An item's standing depends only on the items up to it. */
  lemma LastDefinerPrefix(sub: Composed, items: seq<Item>, last: Item, n: nat, k: Key)
    requires n <= |items|
    ensures forall j :: LastDefiner(sub, items + [last], n, k, j) <==> LastDefiner(sub, items, n, k, j)
    ensures NoDefiner(sub, items + [last], n, k) <==> NoDefiner(sub, items, n, k)
  {
    assert forall j | 0 <= j < |items| :: (items + [last])[j] == items[j];
  }

  lemma WorthPrefix(sub: Composed, items: seq<Item>, last: Item, n: nat, base: Layer, k: Key, v: Value)
    requires n <= |items|
    ensures Worth(sub, items + [last], n, base, k, v) <==> Worth(sub, items, n, base, k, v)
  {
    LastDefinerPrefix(sub, items, last, n, k);
    SaidPrefix(sub, items, last, n, k, v);
  }

  lemma SaidPrefix(sub: Composed, items: seq<Item>, last: Item, n: nat, k: Key, v: Value)
    requires n <= |items|
    ensures Said(sub, items + [last], n, k, v) <==> Said(sub, items, n, k, v)
  {
    LastDefinerPrefix(sub, items, last, n, k);
    assert forall j | 0 <= j < |items| :: (items + [last])[j] == items[j];
  }

  lemma StopsPrefix(sub: Composed, items: seq<Item>, last: Item, i: nat, strict: bool, base: Layer)
    requires i < |items|
    ensures Stops(sub, items + [last], i, strict, base) <==> Stops(sub, items, i, strict, base)
  {
    forall k, v {
      WorthPrefix(sub, items, last, i, base, k, v);
    }
    assert (items + [last])[i] == items[i];
  }

  lemma DefinersOfMore(sub: Composed, items: seq<Item>, last: Item, k: Key)
    ensures forall m | 0 <= m < |items| :: Defines(sub, (items + [last])[m], k) <==> Defines(sub, items[m], k)
    ensures Defines(sub, (items + [last])[|items|], k) <==> Defines(sub, last, k)
  {
  }

  /** One more item is the last definer of what it defines. */
  lemma LastDefinerNow(sub: Composed, items: seq<Item>, last: Item, k: Key)
    requires Defines(sub, last, k)
    ensures var all := items + [last];
            && LastDefiner(sub, all, |all|, k, |items|) && !NoDefiner(sub, all, |all|, k)
            && forall j | LastDefiner(sub, all, |all|, k, j) :: j == |items|
  {
    DefinersOfMore(sub, items, last, k);
  }

  /** For the rest it changes nothing. */
  lemma LastDefinerBefore(sub: Composed, items: seq<Item>, last: Item, k: Key)
    requires !Defines(sub, last, k)
    ensures var all := items + [last];
            && (NoDefiner(sub, all, |all|, k) <==> NoDefiner(sub, items, |items|, k))
            && forall j :: LastDefiner(sub, all, |all|, k, j) <==> LastDefiner(sub, items, |items|, k, j)
  {
    var all := items + [last];
    DefinersOfMore(sub, items, last, k);
    LastDefinerPrefix(sub, items, last, |items|, k);
    forall j
      ensures LastDefiner(sub, all, |all|, k, j) <==> LastDefiner(sub, all, |items|, k, j)
    {
    }
  }

  /** What one more item makes of a key. */
  lemma WorthStep(sub: Composed, items: seq<Item>, last: Item, base: Layer, k: Key, v: Value)
    ensures Worth(sub, items + [last], |items + [last]|, base, k, v) <==>
            if Defines(sub, last, k) then sub(last.pack).value[k] == v else Worth(sub, items, |items|, base, k, v)
  {
    if Defines(sub, last, k) {
      LastDefinerNow(sub, items, last, k);
      SaidNow(sub, items, last, k, v);
    } else {
      LastDefinerBefore(sub, items, last, k);
      SaidBefore(sub, items, last, k, v);
    }
  }

  lemma SaidNow(sub: Composed, items: seq<Item>, last: Item, k: Key, v: Value)
    requires Defines(sub, last, k)
    ensures Said(sub, items + [last], |items + [last]|, k, v) <==> sub(last.pack).value[k] == v
  {
    var all, n := items + [last], |items|;
    LastDefinerNow(sub, items, last, k);
    assert all[n] == last;
  }

  lemma SaidBefore(sub: Composed, items: seq<Item>, last: Item, k: Key, v: Value)
    requires !Defines(sub, last, k)
    ensures Said(sub, items + [last], |items + [last]|, k, v) <==> Said(sub, items, |items|, k, v)
  {
    LastDefinerBefore(sub, items, last, k);
    assert forall j | 0 <= j < |items| :: (items + [last])[j] == items[j];
  }

  lemma HoldsStep(sub: Composed, items: seq<Item>, last: Item, base: Layer, merged: Layer)
    requires Holds(sub, items, base, merged) && (last.Name? ==> sub(last.pack).Ok?)
    ensures Holds(sub, items + [last], base, if last.Name? then merged + sub(last.pack).value else merged)
  {
    var now := if last.Name? then merged + sub(last.pack).value else merged;
    forall k, v
      ensures k in now && now[k] == v <==> Worth(sub, items + [last], |items + [last]|, base, k, v)
    {
      WorthStep(sub, items, last, base, k, v);
      assert k in merged && merged[k] == v <==> Worth(sub, items, |items|, base, k, v);
    }
  }

  lemma ClashMeansConflict(sub: Composed, items: seq<Item>, last: Item, base: Layer, merged: Layer)
    requires Holds(sub, items, base, merged) && last.Name? && sub(last.pack).Ok?
    ensures Clashes(sub, items + [last], |items|, base) <==> Conflicts(merged, sub(last.pack).value)
  {
    var all, n, incoming := items + [last], |items|, sub(last.pack).value;
    forall k, v {
      WorthPrefix(sub, items, last, n, base, k, v);
    }
    if k :| k in merged && k in incoming && Scalar(k) && merged[k] != incoming[k] {
      assert Worth(sub, all, n, base, k, merged[k]);
      assert Defines(sub, all[n], k);
    }
  }

  lemma {:induction false} ImportsDecided(sub: Composed, items: seq<Item>, strict: bool, base: Layer)
    ensures Decided(sub, items, strict, base, Imported(sub, items, strict, base))
  {
    if items != [] {
      var rest, last := items[..|items| - 1], items[|items| - 1];
      assert items == rest + [last];
      ImportsDecided(sub, rest, strict, base);
      ImportedStep(sub, rest, last, strict, base);
      OneItemMore(sub, rest, last, strict, base, Imported(sub, rest, strict, base));
    }
  }

  lemma OneItemMore(sub: Composed, items: seq<Item>, last: Item, strict: bool, base: Layer, before: Outcome)
    requires Decided(sub, items, strict, base, before)
    ensures Decided(sub, items + [last], strict, base,
                    if before.Err? || last.NotAName? then before
                    else if sub(last.pack).Err? then sub(last.pack)
                    else if strict && Conflicts(before.value, sub(last.pack).value) then Err(Conflict(last.pack))
                    else Ok(before.value + sub(last.pack).value))
  {
    var all, n := items + [last], |items|;
    forall i | 0 <= i < n
      ensures Stops(sub, all, i, strict, base) <==> Stops(sub, items, i, strict, base)
    {
      StopsPrefix(sub, items, last, i, strict, base);
    }
    assert all[n] == last && forall i | 0 <= i < n :: all[i] == items[i];
    if before.Ok? {
      if last.Name? && sub(last.pack).Ok? {
        ClashMeansConflict(sub, items, last, base, before.value);
      }
      if Stops(sub, all, n, strict, base) {
        assert FirstStop(sub, all, n, strict, base);
      } else {
        HoldsStep(sub, items, last, base, before.value);
      }
    } else {
      var i :| FirstStop(sub, items, i, strict, base) && before == FaultOf(sub, items[i].pack);
      assert FirstStop(sub, all, i, strict, base);
    }
  }

  // ---- One file ------------------------------------------------------------

  /** The flags that strict imports may not disagree on. */
  lemma ScalarKeys(k: Key)
    ensures Scalar(k) <==> k in {
              AllowTrustCompiler, BlockSorryAx, BlockUnexpectedCustomAxioms, RequireHumanIfImportsChange,
              RequireHumanOnTrustDelta, AllowInteractiveWarnings, SingleOwnerHandoff, ReviewerGatedExecution,
              LockOwnershipInvariant, EvidenceCompleteExecutionToken, DelegationAdmissibility,
              StateTransitionPreservation, ArtifactAdmissibility, SideEffectAuthorization}
  {
  }

  /** A pack refers to what it extends and to each name on its import list. */
  lemma RefersTo(raw: Raw, c: string)
    ensures c in Refs(raw) <==> raw.base == Base(c) || (raw.imports.Items? && Name(c) in raw.imports.items)
  {
    if raw.imports.Items? {
      NamesMeaning(raw.imports.items, c);
    }
  }

  lemma {:induction false} NamesMeaning(items: seq<Item>, c: string)
    ensures c in Names(items) <==> Name(c) in items
  {
    if items != [] {
      var n := |items| - 1;
      NamesMeaning(items[..n], c);
      assert items == items[..n] + [items[n]];
    }
  }

  /** What a merge refuses without looking at imports, in this order. */
  lemma RefusedEarly(d: Disk, name: string, depth: nat, visiting: set<string>)
    ensures var r, file := Merge(d, name, depth, visiting), if '/' in name then d.locate(name) else d.builtin(name);
            && (depth > 12 ==> r == Err(DepthExceeded))
            && (depth <= 12 && file in visiting ==> r == Err(Circular(file)))
            && (depth <= 12 && file !in visiting && file !in d.files ==> r == Err(NotFound(name)))
            && (depth <= 12 && file !in visiting && file in d.files ==>
                  && (d.files[file] == Unreadable ==> r == Err(ReadError))
                  && (d.files[file] == NotAMapping ==> r == Err(NotMapping))
                  && (d.files[file].Document? && d.files[file].raw.base == NotAString ==> r == Err(ExtendsType))
                  && (d.files[file].Document? && d.files[file].raw.base.Base? ==>
                        var base := Merge(d, d.files[file].raw.base.pack, depth + 1, visiting + {file});
                        base.Err? ==> r == base))
  {
  }

  /** A document that is merged into its base, which composes to the given layer. */
  ghost predicate Opened(
    d: Disk, name: string, depth: nat, visiting: set<string>, file: string, raw: Raw, base: Layer)
  {
    && depth <= 12 && file == (if '/' in name then d.locate(name) else d.builtin(name))
    && file !in visiting && file in d.files && d.files[file] == Document(raw) && !raw.base.NotAString?
    && Ok(base) == if raw.base.Base? then Merge(d, raw.base.pack, depth + 1, visiting + {file}) else Ok(map[])
  }

  ghost predicate ErrorOnOverride(raw: Raw) {
    ConflictPolicy in raw.body && raw.body[ConflictPolicy] == Text("error_on_import_scalar_override")
  }

  /** What packs compose to inside a file at this depth. */
  function Inner(d: Disk, depth: nat, visiting: set<string>, file: string): Composed {
    name => Merge(d, name, depth + 1, visiting + {file})
  }

  lemma OpenedMerge(d: Disk, name: string, depth: nat, visiting: set<string>, file: string, raw: Raw, base: Layer)
    requires Opened(d, name, depth, visiting, file, raw, base)
    ensures Merge(d, name, depth, visiting) ==
            if raw.imports.Items? then
              var all := Imported(Inner(d, depth, visiting, file), raw.imports.items, ErrorOnOverride(raw), base);
              if all.Err? then all else Ok(all.value + raw.body)
            else Ok(base + raw.body)
  {
    var names := ImportNames(raw);
    assert Outcomes(Inner(d, depth, visiting, file), names) == Subs(d, names, depth + 1, visiting + {file});
  }

  /** Importing decides whether a file composes, and with which fault it does not. */
  lemma ImportFault(d: Disk, name: string, depth: nat, visiting: set<string>, file: string, raw: Raw, base: Layer)
    requires Opened(d, name, depth, visiting, file, raw, base)
    ensures var r, sub := Merge(d, name, depth, visiting), Inner(d, depth, visiting, file);
            if !raw.imports.Items? then r.Ok?
            else
              && (r.Ok? <==> NeverStops(sub, raw.imports.items, |raw.imports.items|, ErrorOnOverride(raw), base))
              && (r.Err? ==> exists i :: FirstStop(sub, raw.imports.items, i, ErrorOnOverride(raw), base)
                                         && r == FaultOf(sub, raw.imports.items[i].pack))
  {
    OpenedMerge(d, name, depth, visiting, file, raw, base);
    if raw.imports.Items? {
      ImportsDecided(Inner(d, depth, visiting, file), raw.imports.items, ErrorOnOverride(raw), base);
    }
  }

  /** The last named item that defines the key gives its value; without one, the base does. */
  ghost predicate GivenByItems(sub: Composed, items: seq<Item>, base: Layer, merged: Layer, k: Key) {
    && (forall i | LastDefiner(sub, items, |items|, k, i) :: k in merged && merged[k] == sub(items[i].pack).value[k])
    && (NoDefiner(sub, items, |items|, k) ==> GivenByBase(base, merged, k))
  }

  predicate GivenByBase(base: Layer, merged: Layer, k: Key) {
    (k in merged <==> k in base) && (k in base ==> merged[k] == base[k])
  }

  /**
   * A file that composes gives a key its body's value; failing that, the value of the last named item whose pack
   * composes to a layer with that key; failing that, the base's. All its named items compose.
   */
  lemma ComposedKey(
    d: Disk, name: string, depth: nat, visiting: set<string>, file: string, raw: Raw, base: Layer, k: Key)
    requires Opened(d, name, depth, visiting, file, raw, base) && Merge(d, name, depth, visiting).Ok?
    ensures raw.imports.Items? ==>
              forall i | 0 <= i < |raw.imports.items| && raw.imports.items[i].Name? ::
                Merge(d, raw.imports.items[i].pack, depth + 1, visiting + {file}).Ok?
    ensures var merged := Merge(d, name, depth, visiting).value;
            if k in raw.body then k in merged && merged[k] == raw.body[k]
            else if raw.imports.Items? then
              GivenByItems(Inner(d, depth, visiting, file), raw.imports.items, base, merged, k)
            else GivenByBase(base, merged, k)
  {
    OpenedMerge(d, name, depth, visiting, file, raw, base);
    if raw.imports.Items? {
      var sub, items := Inner(d, depth, visiting, file), raw.imports.items;
      ImportsDecided(sub, items, ErrorOnOverride(raw), base);
      AllNamedCompose(sub, items, ErrorOnOverride(raw), base);
      KeyHeld(sub, items, base, Imported(sub, items, ErrorOnOverride(raw), base).value, k);
    }
  }

  lemma AllNamedCompose(sub: Composed, items: seq<Item>, strict: bool, base: Layer)
    requires NeverStops(sub, items, |items|, strict, base)
    ensures forall i | 0 <= i < |items| && items[i].Name? :: sub(items[i].pack).Ok?
  {
    forall i | 0 <= i < |items| && items[i].Name?
      ensures sub(items[i].pack).Ok?
    {
      assert !Stops(sub, items, i, strict, base);
    }
  }

  lemma KeyHeld(sub: Composed, items: seq<Item>, base: Layer, merged: Layer, k: Key)
    requires Holds(sub, items, base, merged)
    ensures GivenByItems(sub, items, base, merged, k)
  {
    forall i | LastDefiner(sub, items, |items|, k, i)
      ensures k in merged && merged[k] == sub(items[i].pack).value[k]
    {
      assert Worth(sub, items, |items|, base, k, sub(items[i].pack).value[k]);
    }
    if NoDefiner(sub, items, |items|, k) {
      if k in base {
        assert Worth(sub, items, |items|, base, k, base[k]);
      }
      if k in merged {
        assert Worth(sub, items, |items|, base, k, merged[k]);
      }
    }
  }
}
