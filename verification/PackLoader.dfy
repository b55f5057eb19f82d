/** Policy-pack composition: recursive `extends`/`import` merging, strict imports, and the cache of merged packs. */
module PackLoader {
  import opened Wrappers

  /** A YAML value; lists and mappings are told apart only by equality. */
  datatype Value = Null | Flag(flag: bool) | Text(text: string) | Structure(id: nat)

  /** The keys of a pack: the flags that strict imports may not disagree on, and the rest. */
  datatype Key =
    | AllowTrustCompiler | BlockSorryAx | BlockUnexpectedCustomAxioms | RequireHumanIfImportsChange
    | RequireHumanOnTrustDelta | AllowInteractiveWarnings | SingleOwnerHandoff | ReviewerGatedExecution
    | LockOwnershipInvariant | EvidenceCompleteExecutionToken | DelegationAdmissibility
    | StateTransitionPreservation | ArtifactAdmissibility | SideEffectAuthorization
    | ConflictPolicy | ExtendsKey | ImportKey | Other(name: string)

  predicate Scalar(k: Key) {
    !k.ConflictPolicy? && !k.ExtendsKey? && !k.ImportKey? && !k.Other?
  }

  type Layer = map<Key, Value>

  datatype Extends = NoExtends | NullExtends | FalsyExtends | Base(pack: string) | NotAString

  datatype Item = Name(pack: string) | NotAName

  datatype Import = NoImport | FalsyImport(value: Value) | Items(items: seq<Item>) | NotAList

  /** A pack file: its two reference keys, and all other keys. */
  datatype Raw = Raw(base: Extends, imports: Import, body: Layer)

  /** What reading a file gives: an error, something that is no mapping, or a mapping. */
  datatype Content = Unreadable | NotAMapping | Document(raw: Raw)

  /** The files, and where a path-like or a bare pack name resolves to. */
  datatype Disk = Disk(files: map<string, Content>, locate: string -> string, builtin: string -> string)

  datatype Fault =
    | DepthExceeded | Circular(file: string) | NotFound(name: string) | ReadError | NotMapping | ExtendsType
    | Conflict(importName: string)

  type Outcome = Result<Layer, Fault>

  const MAX_DEPTH := 12

  function Resolve(d: Disk, name: string): string {
    if '/' in name then d.locate(name) else d.builtin(name)
  }

  predicate Strict(raw: Raw) {
    ConflictPolicy in raw.body && raw.body[ConflictPolicy] == Text("error_on_import_scalar_override")
  }

  function Names(items: seq<Item>): seq<string> {
    if items == [] then []
    else
      var n := |items| - 1;
      Names(items[..n]) + if items[n].Name? then [items[n].pack] else []
  }

  function ImportNames(raw: Raw): seq<string> {
    if raw.imports.Items? then Names(raw.imports.items) else []
  }

  predicate Conflicts(merged: Layer, incoming: Layer) {
    exists k | k in merged && k in incoming :: Scalar(k) && merged[k] != incoming[k]
  }

  // ---- The merge -----------------------------------------------------------

  function Left(depth: nat): nat {
    if depth <= MAX_DEPTH then MAX_DEPTH + 1 - depth else 0
  }

  function Merge(d: Disk, name: string, depth: nat, visiting: set<string>): Outcome
    decreases Left(depth), 0
  {
    var file := Resolve(d, name);
    if depth > MAX_DEPTH then Err(DepthExceeded)
    else if file in visiting then Err(Circular(file))
    else if file !in d.files then Err(NotFound(name))
    else if d.files[file].Unreadable? then Err(ReadError)
    else if d.files[file].NotAMapping? then Err(NotMapping)
    else
      var raw := d.files[file].raw;
      if raw.base.NotAString? then Err(ExtendsType)
      else
        var base := if raw.base.Base? then Merge(d, raw.base.pack, depth + 1, visiting + {file}) else Ok(map[]);
        if base.Err? then base
        else
          var names := ImportNames(raw);
          var merged := MergeImports(names, Subs(d, names, depth + 1, visiting + {file}), Strict(raw), base.value);
          if merged.Err? then merged else Ok(merged.value + raw.body)
  }

  /** What each of a list of packs composes to. */
  function Subs(d: Disk, names: seq<string>, depth: nat, visiting: set<string>): seq<Outcome>
    decreases Left(depth), 1
  {
    seq(|names|, i requires 0 <= i < |names| => Merge(d, names[i], depth, visiting))
  }

  /** Importing packs one after the other over a base, stopping at the first fault. */
  function MergeImports(names: seq<string>, subs: seq<Outcome>, strict: bool, base: Layer): Outcome
    requires |subs| == |names|
  {
    if names == [] then Ok(base)
    else
      var n := |names| - 1;
      var merged := MergeImports(names[..n], subs[..n], strict, base);
      if merged.Err? then merged
      else if subs[n].Err? then subs[n]
      else if strict && Conflicts(merged.value, subs[n].value) then Err(Conflict(names[n]))
      else Ok(merged.value + subs[n].value)
  }

  /** The set of files being merged, shared by all levels of the recursion. */
  class Visiting {
    var files: set<string>

    constructor ()
      ensures files == {}
    {
      files := {};
    }
  }

  method MergePackLayers(d: Disk, name: string, depth: nat, visiting: Visiting) returns (r: Outcome)
    modifies visiting
    ensures r == Merge(d, name, depth, old(visiting.files))
    ensures visiting.files == old(visiting.files)
    decreases Left(depth), 1
  {
    if depth > MAX_DEPTH {
      return Err(DepthExceeded);
    }
    var file := Resolve(d, name);
    if file in visiting.files {
      return Err(Circular(file));
    }
    visiting.files := visiting.files + {file};
    r := MergeVisited(d, name, file, depth, visiting);
    visiting.files := visiting.files - {file};
  }

  /** The protected part of the merge; whatever it answers, the caller then drops `file` again. */
  method MergeVisited(d: Disk, name: string, file: string, depth: nat, visiting: Visiting) returns (r: Outcome)
    requires depth <= MAX_DEPTH && file == Resolve(d, name) && file in visiting.files
    modifies visiting
    ensures r == Merge(d, name, depth, old(visiting.files) - {file})
    ensures visiting.files == old(visiting.files)
    decreases Left(depth), 0
  {
    ghost var entered := visiting.files;
    assert entered - {file} + {file} == entered;
    if file !in d.files {
      return Err(NotFound(name));
    }
    if d.files[file].Unreadable? {
      return Err(ReadError);
    }
    if d.files[file].NotAMapping? {
      return Err(NotMapping);
    }
    var raw := d.files[file].raw;
    var merged: Layer := map[];
    if raw.base.NotAString? {
      return Err(ExtendsType);
    }
    if raw.base.Base? {
      var sub := MergePackLayers(d, raw.base.pack, depth + 1, visiting);
      if sub.Err? {
        return sub;
      }
      merged := merged + sub.value;
      assert merged == sub.value;
    }
    if raw.imports.Items? {
      var all := MergeItems(d, raw.imports.items, depth + 1, visiting, Strict(raw), merged);
      if all.Err? {
        return all;
      }
      merged := all.value;
    }
    return Ok(merged + raw.body);
  }

  /** The loop over a file's import list; entries that are not names are skipped. */
  method MergeItems(d: Disk, items: seq<Item>, depth: nat, visiting: Visiting, strict: bool, base: Layer)
    returns (r: Outcome)
    modifies visiting
    ensures r == MergeImports(Names(items), Subs(d, Names(items), depth, old(visiting.files)), strict, base)
    ensures visiting.files == old(visiting.files)
    decreases Left(depth), 2
  {
    ghost var entered := visiting.files;
    ghost var subs := Subs(d, Names(items), depth, entered);
    var merged := base;
    for i := 0 to |items|
      invariant visiting.files == entered
      invariant MergedUpTo(items, i, subs, strict, base, merged)
    {
      if items[i].NotAName? {
        SkipStep(items, i, subs, strict, base, merged);
        continue;
      }
      ItemStep(items, i, subs, strict, base, merged);
      var sub := MergePackLayers(d, items[i].pack, depth, visiting);
      assert sub == subs[|Names(items[..i])|];
      if sub.Err? {
        return sub;
      }
      if strict && Conflicts(merged, sub.value) {
        return Err(Conflict(items[i].pack));
      }
      merged := merged + sub.value;
    }
    assert items[..|items|] == items && subs[..|subs|] == subs;
    return Ok(merged);
  }

  /** The imports named by the first `i` items have been merged, without a fault. */
  ghost predicate MergedUpTo(items: seq<Item>, i: nat, subs: seq<Outcome>, strict: bool, base: Layer, merged: Layer)
    requires i <= |items| && |subs| == |Names(items)|
  {
    var names := Names(items[..i]);
    |names| <= |subs| && MergeImports(names, subs[..|names|], strict, base) == Ok(merged)
  }

  /** The names before item `i`, and how many there are up to it. */
  lemma NamesAt(items: seq<Item>, i: nat)
    requires i < |items|
    ensures items[i].NotAName? ==> Names(items[..i + 1]) == Names(items[..i])
    ensures items[i].Name? ==>
              var n := |Names(items[..i])|;
              && Names(items[..i + 1]) == Names(items[..i]) + [items[i].pack]
              && n < |Names(items)| && Names(items)[n] == items[i].pack
              && Names(items)[..n] == Names(items[..i]) && Names(items)[..n + 1] == Names(items[..i + 1])
  {
    assert items[..i + 1][..i] == items[..i];
    NamesPrefix(items, i);
    NamesPrefix(items, i + 1);
    if items[i].Name? {
      var n := |Names(items[..i])|;
      assert Names(items)[n] == Names(items)[..n + 1][n];
    }
  }

  /** An item that is no name changes nothing. */
  lemma SkipStep(items: seq<Item>, i: nat, subs: seq<Outcome>, strict: bool, base: Layer, merged: Layer)
    requires i < |items| && |subs| == |Names(items)| && MergedUpTo(items, i, subs, strict, base, merged)
    requires items[i].NotAName?
    ensures MergedUpTo(items, i + 1, subs, strict, base, merged)
  {
    NamesAt(items, i);
  }

  /** Importing one more name, on top of what was merged so far. */
  lemma ImportStep(names: seq<string>, subs: seq<Outcome>, n: nat, strict: bool, base: Layer, merged: Layer)
    requires n < |names| == |subs| && MergeImports(names[..n], subs[..n], strict, base) == Ok(merged)
    ensures var now := MergeImports(names[..n + 1], subs[..n + 1], strict, base);
            && now == (if subs[n].Err? then subs[n]
                       else if strict && Conflicts(merged, subs[n].value) then Err(Conflict(names[n]))
                       else Ok(merged + subs[n].value))
            && (now.Err? ==> MergeImports(names, subs, strict, base) == now)
  {
    assert names[..n + 1][..n] == names[..n] && subs[..n + 1][..n] == subs[..n];
    if MergeImports(names[..n + 1], subs[..n + 1], strict, base).Err? {
      ImportsStopAtError(names, subs, n + 1, strict, base);
    }
  }

  /** So it is for an item that is a name. */
  lemma ItemStep(items: seq<Item>, i: nat, subs: seq<Outcome>, strict: bool, base: Layer, merged: Layer)
    requires i < |items| && |subs| == |Names(items)| && MergedUpTo(items, i, subs, strict, base, merged)
    requires items[i].Name?
    ensures var n := |Names(items[..i])|;
            && n < |subs| && Names(items)[n] == items[i].pack
            && (subs[n].Err? ==> MergeImports(Names(items), subs, strict, base) == subs[n])
            && (subs[n].Ok? ==>
                  if strict && Conflicts(merged, subs[n].value)
                  then MergeImports(Names(items), subs, strict, base) == Err(Conflict(items[i].pack))
                  else MergedUpTo(items, i + 1, subs, strict, base, merged + subs[n].value))
  {
    NamesAt(items, i);
    var names, n := Names(items), |Names(items[..i])|;
    assert |Names(items[..i + 1])| == n + 1;
    ImportStep(names, subs, n, strict, base, merged);
  }

  lemma {:induction false} NamesPrefix(items: seq<Item>, n: nat)
    requires n <= |items|
    ensures |Names(items[..n])| <= |Names(items)| && Names(items)[..|Names(items[..n])|] == Names(items[..n])
  {
    if n == |items| {
      assert items[..n] == items;
    } else {
      assert items[..|items| - 1][..n] == items[..n];
      NamesPrefix(items[..|items| - 1], n);
    }
  }

  lemma {:induction false} ImportsStopAtError(names: seq<string>, subs: seq<Outcome>, n: nat, strict: bool, base: Layer)
    requires n <= |names| == |subs| && MergeImports(names[..n], subs[..n], strict, base).Err?
    ensures MergeImports(names, subs, strict, base) == MergeImports(names[..n], subs[..n], strict, base)
    decreases |names|
  {
    if n == |names| {
      assert names[..n] == names && subs[..n] == subs;
    } else {
      var m := |names| - 1;
      assert names[..m][..n] == names[..n] && subs[..m][..n] == subs[..n];
      ImportsStopAtError(names[..m], subs[..m], n, strict, base);
    }
  }
}
