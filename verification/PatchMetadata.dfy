/** Summarising a patch: which files it changes, whether it touches imports or protected paths. */
module PatchMetadata {
  import opened Sorting

  type Files = map<string, string>

  /** The files of a patch, one by one in the order they are sent. */
  ghost predicate Lists(files: seq<(string, string)>, patch: Files) {
    && (forall i | 0 <= i < |files| :: files[i].0 in patch && files[i].1 == patch[files[i].0])
    && (forall key | key in patch :: exists i :: 0 <= i < |files| && files[i].0 == key)
  }

  datatype Summary = Summary(changedFiles: seq<string>, importsChanged: bool, protectedTouched: seq<string>)

  /** Python's `needle in text` on strings. */
  predicate Contains(text: string, needle: string) {
    needle <= text || (text != "" && Contains(text[1..], needle))
  }

  lemma {:induction false} ContainsMeaning(text: string, needle: string)
    ensures Contains(text, needle) <==> exists i :: 0 <= i <= |text| && needle <= text[i..]
  {
    assert text[0..] == text;
    if text != "" {
      ContainsMeaning(text[1..], needle);
      assert forall i | 0 <= i <= |text| - 1 :: text[1..][i..] == text[i + 1..];
      if i :| 0 < i <= |text| && needle <= text[i..] {
        assert needle <= text[1..][i - 1..];
      }
    }
  }

  function TextOf(files: Files, path: string): string {
    if path in files then files[path] else ""
  }

  predicate TouchesImports(before: Files, after: Files, path: string) {
    var (b, a) := (TextOf(before, path), TextOf(after, path));
    b != a && (Contains(b, "import ") || Contains(a, "import "))
  }

  function Protected(paths: seq<string>, protectedPaths: seq<string>): seq<string> {
    if paths == [] then []
    else
      var n := |paths| - 1;
      Protected(paths[..n], protectedPaths) + if paths[n] in protectedPaths then [paths[n]] else []
  }

  predicate AnyImport(before: Files, after: Files, paths: seq<string>) {
    exists k | 0 <= k < |paths| :: TouchesImports(before, after, paths[k])
  }

  lemma AnyImportPrefix(before: Files, after: Files, paths: seq<string>, i: nat)
    requires i < |paths|
    ensures AnyImport(before, after, paths[..i + 1]) <==>
            AnyImport(before, after, paths[..i]) || TouchesImports(before, after, paths[i])
    ensures TouchesImports(before, after, paths[i]) ==> AnyImport(before, after, paths)
  {
    var more, less := paths[..i + 1], paths[..i];
    assert more[i] == paths[i] && forall k | 0 <= k < i :: more[k] == less[k];
  }

  ghost function Summarize(before: Files, after: Files, protectedPaths: seq<string>): Summary {
    var changed := Sorted(before.Keys + after.Keys);
    Summary(changed, AnyImport(before, after, changed), Protected(changed, protectedPaths))
  }

  method SummarizePatch(before: Files, after: Files, protectedPaths: seq<string>) returns (s: Summary)
    ensures s == Summarize(before, after, protectedPaths)
  {
    var changedFiles := SortedKeys(before.Keys + after.Keys);
    var importsChanged := false;
    for i := 0 to |changedFiles|
      invariant !importsChanged && !AnyImport(before, after, changedFiles[..i])
    {
      AnyImportPrefix(before, after, changedFiles, i);
      if TouchesImports(before, after, changedFiles[i]) {
        importsChanged := true;
        break;
      }
    }
    assert changedFiles[..|changedFiles|] == changedFiles;
    s := Summary(changedFiles, importsChanged, Protected(changedFiles, protectedPaths));
  }

  lemma {:induction false} ProtectedExactly(paths: seq<string>, protectedPaths: seq<string>, p: string)
    ensures p in Protected(paths, protectedPaths) <==> p in paths && p in protectedPaths
  {
    if paths != [] {
      ProtectedExactly(paths[..|paths| - 1], protectedPaths, p);
      assert paths == paths[..|paths| - 1] + [paths[|paths| - 1]];
    }
  }

  /** What the summary says, key by key of the two file maps. */
  lemma SummaryMeaning(before: Files, after: Files, protectedPaths: seq<string>)
    ensures var s := Summarize(before, after, protectedPaths);
            && (forall p :: p in s.changedFiles <==> p in before || p in after)
            && (forall p :: p in s.protectedTouched <==> (p in before || p in after) && p in protectedPaths)
            && (s.importsChanged <==> exists p :: (p in before || p in after) && TouchesImports(before, after, p))
  {
    var s := Summarize(before, after, protectedPaths);
    forall p
      ensures p in s.protectedTouched <==> p in s.changedFiles && p in protectedPaths
    {
      ProtectedExactly(s.changedFiles, protectedPaths, p);
    }
  }

  lemma {:induction false} ProtectedInOrder(paths: seq<string>, protectedPaths: seq<string>)
    requires Ascending(paths)
    ensures Ascending(Protected(paths, protectedPaths))
  {
    if paths != [] {
      var n := |paths| - 1;
      ProtectedInOrder(paths[..n], protectedPaths);
      forall i | 0 <= i < |Protected(paths[..n], protectedPaths)|
        ensures Before(Protected(paths[..n], protectedPaths)[i], paths[n])
      {
        ProtectedExactly(paths[..n], protectedPaths, Protected(paths[..n], protectedPaths)[i]);
      }
    }
  }

  /** What a file holds; one that is not there holds nothing. */
  predicate HasText(files: Files, path: string, text: string) {
    if path in files then text == files[path] else text == ""
  }

  ghost predicate Imports(text: string) {
    exists i :: 0 <= i <= |text| && "import " <= text[i..]
  }

  /** The text of a file differs, and it imports before or after. */
  ghost predicate EditsImport(before: Files, after: Files, path: string) {
    exists b, a :: HasText(before, path, b) && HasText(after, path, a) && b != a && (Imports(b) || Imports(a))
  }

  lemma TouchesMeaning(before: Files, after: Files, path: string)
    ensures TouchesImports(before, after, path) <==> EditsImport(before, after, path)
  {
    var b, a := TextOf(before, path), TextOf(after, path);
    ContainsMeaning(b, "import ");
    ContainsMeaning(a, "import ");
    assert HasText(before, path, b) && HasText(after, path, a);
  }

  /** Both lists of a summary are sorted, and imports changed exactly when the import of some file did. */
  lemma SummaryOrder(before: Files, after: Files, protectedPaths: seq<string>)
    ensures var s := Summarize(before, after, protectedPaths);
            && Ascending(s.changedFiles) && Ascending(s.protectedTouched)
            && (s.importsChanged <==> exists p :: (p in before || p in after) && EditsImport(before, after, p))
  {
    SummaryMeaning(before, after, protectedPaths);
    ProtectedInOrder(Summarize(before, after, protectedPaths).changedFiles, protectedPaths);
    forall p {
      TouchesMeaning(before, after, p);
    }
  }
}
