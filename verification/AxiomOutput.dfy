/** Parsing the axiom audit's output, and the round trip with the format it documents. */
module AxiomOutput {
  import opened Strings

  datatype Dependency = Dependency(declaration: string, axioms: seq<string>)

  // ---- Python's string operations ------------------------------------------

  /** The characters `splitlines` breaks at; all of them are whitespace. */
  predicate IsBreak(c: char) {
    var n := c as int;
    10 <= n <= 13 || 28 <= n <= 30 || n == 0x85 || n == 0x2028 || n == 0x2029
  }

  predicate IsSpace(c: char) {
    var n := c as int;
    || IsBreak(c) || n == 9 || n == 31 || n == 32 || n == 0xA0 || n == 0x1680
    || 0x2000 <= n <= 0x200A || n == 0x202F || n == 0x205F || n == 0x3000
  }

  function Strip(s: string): string {
    if s == "" then ""
    else if IsSpace(s[0]) then Strip(s[1..])
    else if IsSpace(s[|s| - 1]) then Strip(s[..|s| - 1])
    else s
  }

  function FirstBreak(s: string): (i: nat)
    ensures i <= |s| && (i < |s| ==> IsBreak(s[i])) && forall j | 0 <= j < i :: !IsBreak(s[j])
  {
    if s == "" || IsBreak(s[0]) then 0 else 1 + FirstBreak(s[1..])
  }

  /** Where the next line starts after the break at `i`; a carriage return takes a following newline with it. */
  function NextLine(s: string, i: nat): (k: nat)
    requires i < |s|
    ensures i < k <= |s|
  {
    if s[i] == '\r' && i + 1 < |s| && s[i + 1] == '\n' then i + 2 else i + 1
  }

  function SplitLines(s: string): seq<string> {
    if s == "" then []
    else
      var i := FirstBreak(s);
      if i == |s| then [s] else [s[..i]] + SplitLines(s[NextLine(s, i)..])
  }

  // ---- The parser ----------------------------------------------------------

  function Trimmed(parts: seq<string>): seq<string> {
    if parts == [] then []
    else (if Strip(parts[0]) == "" then [] else [Strip(parts[0])]) + Trimmed(parts[1..])
  }

  function Axioms(rest: string): seq<string> {
    Trimmed(Split(rest, ','))
  }

  /** The dependency a line states, if it has a colon. */
  function ParseRaw(line: string): seq<Dependency> {
    var i := Index(line, ':');
    if i == |line| then [] else [Dependency(Strip(line[..i]), Axioms(line[i + 1..]))]
  }

  function ParseLines(lines: seq<string>): seq<Dependency> {
    if lines == [] then [] else ParseLines(lines[..|lines| - 1]) + ParseRaw(Strip(lines[|lines| - 1]))
  }

  lemma ParseStep(lines: seq<string>, n: nat)
    requires n < |lines|
    ensures ParseLines(lines[..n + 1]) == ParseLines(lines[..n]) + ParseRaw(Strip(lines[n]))
  {
    assert lines[..n + 1][..n] == lines[..n];
  }

  lemma HasColon(line: string)
    ensures ':' in line <==> Index(line, ':') < |line|
  {
    assert line[..|line|] == line;
  }

  method ParseAxiomStdout(stdout: string) returns (deps: seq<Dependency>)
    ensures deps == ParseLines(SplitLines(Strip(stdout)))
  {
    deps := [];
    var lines := SplitLines(Strip(stdout));
    for n := 0 to |lines|
      invariant deps == ParseLines(lines[..n])
    {
      ParseStep(lines, n);
      var line := Strip(lines[n]);
      HasColon(line);
      if ':' in line {
        var i := Index(line, ':');
        deps := deps + [Dependency(Strip(line[..i]), Axioms(line[i + 1..]))];
      }
    }
    assert lines[..|lines|] == lines;
  }

  /** Stripping takes off all whitespace at both ends and nothing else. */
  lemma {:induction false} StripMeaning(s: string) returns (i: nat, j: nat)
    ensures i <= j <= |s| && Strip(s) == s[i..j]
    ensures (forall k | 0 <= k < i || j <= k < |s| :: IsSpace(s[k]))
    ensures i < j ==> !IsSpace(s[i]) && !IsSpace(s[j - 1])
  {
    if s == "" {
      i, j := 0, 0;
    } else if IsSpace(s[0]) {
      i, j := StripMeaning(s[1..]);
      assert s[1..][i..j] == s[i + 1..j + 1];
      assert forall k | 0 < k < |s| :: s[k] == s[1..][k - 1];
      i, j := i + 1, j + 1;
    } else if IsSpace(s[|s| - 1]) {
      i, j := StripMeaning(s[..|s| - 1]);
      assert s[..|s| - 1][i..j] == s[i..j];
    } else {
      i, j := 0, |s|;
      assert s[..|s|] == s;
    }
  }

  // ---- Surrounding whitespace does not matter ------------------------------

  lemma {:induction false} StripRight(s: string, c: char)
    requires IsSpace(c)
    ensures Strip(s + [c]) == Strip(s)
  {
    var t := s + [c];
    if s == "" {
      assert t[1..] == "";
    } else if IsSpace(s[0]) {
      assert t[1..] == s[1..] + [c];
      StripRight(s[1..], c);
    } else {
      assert t[..|t| - 1] == s;
    }
  }

  lemma StripLeft(c: char, s: string)
    requires IsSpace(c)
    ensures Strip([c] + s) == Strip(s)
  {
    assert ([c] + s)[1..] == s;
  }

  lemma {:induction false} AxiomsRight(s: string, c: char)
    requires IsSpace(c)
    ensures Axioms(s + [c]) == Axioms(s)
  {
    var i, t := Index(s, ','), s + [c];
    assert t[..i] == s[..i];
    if i == |s| {
      assert t[..|t|] == s + [c];
      IndexOf(t, ',', |t|);
      StripRight(s, c);
      TrimmedOne(s);
      TrimmedOne(t);
    } else {
      IndexOf(t, ',', i);
      assert t[i + 1..] == s[i + 1..] + [c];
      AxiomsRight(s[i + 1..], c);
      TrimmedCons(s[..i], Split(s[i + 1..], ','));
      TrimmedCons(s[..i], Split(t[i + 1..], ','));
    }
  }

  lemma TrimmedOne(part: string)
    ensures Trimmed([part]) == if Strip(part) == "" then [] else [Strip(part)]
  {
    assert [part][1..] == [];
  }

  lemma TrimmedCons(part: string, parts: seq<string>)
    ensures Trimmed([part] + parts) == (if Strip(part) == "" then [] else [Strip(part)]) + Trimmed(parts)
  {
    assert ([part] + parts)[1..] == parts;
  }

  lemma ParseRawRight(s: string, c: char)
    requires IsSpace(c)
    ensures ParseRaw(s + [c]) == ParseRaw(s)
  {
    var i, t := Index(s, ':'), s + [c];
    assert t[..i] == s[..i];
    if i == |s| {
      assert t[..|t|] == s + [c];
      IndexOf(t, ':', |t|);
    } else {
      IndexOf(t, ':', i);
      assert t[i + 1..] == s[i + 1..] + [c];
      AxiomsRight(s[i + 1..], c);
    }
  }

  lemma ParseRawLeft(c: char, s: string)
    requires IsSpace(c)
    ensures ParseRaw([c] + s) == ParseRaw(s)
  {
    var i, t := Index(s, ':'), [c] + s;
    assert t[..i + 1] == [c] + s[..i];
    IndexOf(t, ':', i + 1);
    if i < |s| {
      assert t[i + 2..] == s[i + 1..];
      StripLeft(c, s[..i]);
    }
  }

  lemma {:induction false} ParseRawStrip(s: string)
    ensures ParseRaw(Strip(s)) == ParseRaw(s)
  {
    if s != "" && IsSpace(s[0]) {
      assert s == [s[0]] + s[1..];
      ParseRawLeft(s[0], s[1..]);
      ParseRawStrip(s[1..]);
    } else if s != "" && IsSpace(s[|s| - 1]) {
      assert s == s[..|s| - 1] + [s[|s| - 1]];
      ParseRawRight(s[..|s| - 1], s[|s| - 1]);
      ParseRawStrip(s[..|s| - 1]);
    }
  }

  lemma {:induction false} ParseCons(line: string, lines: seq<string>)
    ensures ParseLines([line] + lines) == ParseRaw(line) + ParseLines(lines)
  {
    var all := [line] + lines;
    assert all[..|all|] == all;
    ParseStep(all, |lines|);
    if lines == [] {
      ParseRawStrip(line);
    } else {
      var n := |lines| - 1;
      assert all[..|lines|] == [line] + lines[..n];
      ParseCons(line, lines[..n]);
    }
  }

  /** What a text parses to, line by line, without stripping the lines. */
  function ParseText(s: string): seq<Dependency> {
    if s == "" then []
    else
      var i := FirstBreak(s);
      ParseRaw(s[..i]) + if i == |s| then [] else ParseText(s[NextLine(s, i)..])
  }

  lemma {:induction false} ParseTextLines(s: string)
    ensures ParseLines(SplitLines(s)) == ParseText(s)
  {
    if s != "" {
      var i := FirstBreak(s);
      if i == |s| {
        assert s[..i] == s && SplitLines(s) == [s] + [];
        ParseCons(s, []);
      } else {
        ParseCons(s[..i], SplitLines(s[NextLine(s, i)..]));
        ParseTextLines(s[NextLine(s, i)..]);
      }
    }
  }

  lemma FirstBreakAt(s: string, i: nat)
    requires i <= |s| && (i < |s| ==> IsBreak(s[i])) && forall j | 0 <= j < i :: !IsBreak(s[j])
    ensures FirstBreak(s) == i
  {
  }

  lemma ParseTextAt(s: string, i: nat)
    requires i <= |s| && (i < |s| ==> IsBreak(s[i])) && forall j | 0 <= j < i :: !IsBreak(s[j])
    ensures ParseText(s) == ParseRaw(s[..i]) + if i == |s| then [] else ParseText(s[NextLine(s, i)..])
  {
    FirstBreakAt(s, i);
    if s == "" {
      assert ParseRaw("") == [];
    }
  }

  lemma ParseTextLeftBreak(c: char, s: string)
    requires IsBreak(c)
    ensures ParseText([c] + s) == ParseText(s)
  {
    var t := [c] + s;
    FirstBreakAt(t, 0);
    assert t[1..] == s;
    if NextLine(t, 0) == 2 {
      FirstBreakAt(s, 0);
      assert t[2..] == s[1..];
    }
  }

  lemma NextLineShift(c: char, s: string, i: nat)
    requires i < |s|
    ensures var t := [c] + s;
            NextLine(t, i + 1) == NextLine(s, i) + 1 && t[NextLine(t, i + 1)..] == s[NextLine(s, i)..]
  {
  }

  lemma ParseTextLeft(c: char, s: string)
    requires IsSpace(c) && !IsBreak(c)
    ensures ParseText([c] + s) == ParseText(s)
  {
    var i, t := FirstBreak(s), [c] + s;
    ParseTextAt(s, i);
    ParseTextAt(t, i + 1);
    assert t[..i + 1] == [c] + s[..i];
    ParseRawLeft(c, s[..i]);
    if i < |s| {
      NextLineShift(c, s, i);
    }
  }

  lemma ParseOneLine(s: string)
    requires FirstBreak(s) == |s|
    ensures ParseText(s) == ParseRaw(s)
  {
    assert s[..|s|] == s;
  }

  /** Trailing whitespace on a text of one line. */
  lemma ParseTextRightOneLine(s: string, c: char)
    requires IsSpace(c) && FirstBreak(s) == |s|
    ensures ParseText(s + [c]) == ParseText(s)
  {
    var t := s + [c];
    ParseOneLine(s);
    if IsBreak(c) {
      ParseTextAt(t, |s|);
      assert t[..|s|] == s && t[NextLine(t, |s|)..] == "";
    } else {
      FirstBreakAt(t, |t|);
      ParseOneLine(t);
      ParseRawRight(s, c);
    }
  }

  lemma {:induction false} ParseTextRight(s: string, c: char)
    requires IsSpace(c)
    ensures ParseText(s + [c]) == ParseText(s)
    decreases |s|
  {
    var t, i := s + [c], FirstBreak(s);
    if i == |s| {
      ParseTextRightOneLine(s, c);
    } else {
      FirstBreakAt(t, i);
      assert t[..i] == s[..i];
      var k := NextLine(s, i);
      if NextLine(t, i) == k {
        assert t[k..] == s[k..] + [c];
        ParseTextRight(s[k..], c);
      } else {
        assert t[NextLine(t, i)..] == "" && s[k..] == "";
      }
    }
  }

  lemma {:induction false} ParseTextStrip(s: string)
    ensures ParseText(Strip(s)) == ParseText(s)
  {
    if s != "" && IsSpace(s[0]) {
      assert s == [s[0]] + s[1..];
      if IsBreak(s[0]) {
        ParseTextLeftBreak(s[0], s[1..]);
      } else {
        ParseTextLeft(s[0], s[1..]);
      }
      ParseTextStrip(s[1..]);
    } else if s != "" && IsSpace(s[|s| - 1]) {
      assert s == s[..|s| - 1] + [s[|s| - 1]];
      ParseTextRight(s[..|s| - 1], s[|s| - 1]);
      ParseTextStrip(s[..|s| - 1]);
    }
  }

  // ---- The documented format -----------------------------------------------

  /** A line of audit output: a declaration with its axioms, or anything else. */
  datatype Line = Record(dep: Dependency) | Noise(text: string)

  predicate OneLine(s: string) {
    forall c | c in s :: !IsBreak(c)
  }

  predicate GoodAxiom(a: string) {
    a != "" && Strip(a) == a && OneLine(a) && ',' !in a
  }

  predicate GoodLine(l: Line) {
    match l
    case Noise(text) => OneLine(text) && ':' !in text
    case Record(dep) =>
      && Strip(dep.declaration) == dep.declaration && OneLine(dep.declaration) && ':' !in dep.declaration
      && forall a | a in dep.axioms :: GoodAxiom(a)
  }

  function JoinAxioms(axioms: seq<string>): string {
    if axioms == [] then "" else if |axioms| == 1 then axioms[0] else axioms[0] + ", " + JoinAxioms(axioms[1..])
  }

  function Show(l: Line): string {
    if l.Noise? then l.text else l.dep.declaration + ": " + JoinAxioms(l.dep.axioms)
  }

  function Print(lines: seq<Line>): string {
    if lines == [] then "" else Show(lines[0]) + "\n" + Print(lines[1..])
  }

  function Records(lines: seq<Line>): seq<Dependency> {
    if lines == [] then [] else (if lines[0].Record? then [lines[0].dep] else []) + Records(lines[1..])
  }

  lemma {:induction false} AxiomsOfJoin(axioms: seq<string>)
    requires forall a | a in axioms :: GoodAxiom(a)
    ensures Axioms([' '] + JoinAxioms(axioms)) == axioms
  {
    if axioms == [] {
      IndexOf(" ", ',', 1);
      assert [' '] + JoinAxioms(axioms) == " ";
      StripLeft(' ', "");
      TrimmedOne(" ");
    } else {
      var a := axioms[0];
      var s := [' '] + JoinAxioms(axioms);
      assert a in axioms && s[..1 + |a|] == [' '] + a;
      StripLeft(' ', a);
      IndexOf(s, ',', 1 + |a|);
      if |axioms| == 1 {
        assert s == [' '] + a;
        TrimmedOne(s);
        assert axioms == [a];
      } else {
        assert s[1 + |a| + 1..] == [' '] + JoinAxioms(axioms[1..]);
        AxiomsOfJoin(axioms[1..]);
        TrimmedCons([' '] + a, Split(s[1 + |a| + 1..], ','));
        assert axioms == [a] + axioms[1..];
      }
    }
  }

  lemma ParseShown(l: Line)
    requires GoodLine(l)
    ensures ParseRaw(Show(l)) == if l.Record? then [l.dep] else []
  {
    if l.Noise? {
      assert l.text[..|l.text|] == l.text;
      IndexOf(l.text, ':', |l.text|);
    } else {
      var d, s := l.dep.declaration, Show(l);
      assert s[..|d|] == d;
      IndexOf(s, ':', |d|);
      assert s[|d| + 1..] == [' '] + JoinAxioms(l.dep.axioms);
      AxiomsOfJoin(l.dep.axioms);
    }
  }

  lemma {:induction false} JoinIsOneLine(axioms: seq<string>)
    requires forall a | a in axioms :: GoodAxiom(a)
    ensures OneLine(JoinAxioms(axioms))
  {
    if |axioms| > 0 {
      assert axioms[0] in axioms;
      JoinIsOneLine(axioms[1..]);
    }
  }

  lemma {:induction false} ParsePrinted(lines: seq<Line>)
    requires forall l | l in lines :: GoodLine(l)
    ensures ParseText(Print(lines)) == Records(lines)
  {
    if lines != [] {
      var l := lines[0];
      var shown, s := Show(l), Print(lines);
      assert l in lines;
      if l.Record? {
        JoinIsOneLine(l.dep.axioms);
      }
      assert forall j | 0 <= j < |shown| :: s[j] == shown[j] && shown[j] in shown;
      assert s[..|shown|] == shown && s[|shown|] == '\n';
      ParseTextAt(s, |shown|);
      assert NextLine(s, |shown|) == |shown| + 1 && s[|shown| + 1..] == Print(lines[1..]);
      ParseShown(l);
      ParsePrinted(lines[1..]);
    }
  }

  /** Parsing printed audit output gives back exactly its records, in order, whatever colon-free lines surround them. */
  lemma RoundTrip(lines: seq<Line>)
    requires forall l | l in lines :: GoodLine(l)
    ensures ParseLines(SplitLines(Strip(Print(lines)))) == Records(lines)
  {
    ParsePrinted(lines);
    ParseTextStrip(Print(lines));
    ParseTextLines(Strip(Print(lines)));
  }
}
