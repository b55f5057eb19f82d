/** What the axiom audit's parser answers, built up from its shortest inputs: parts, lines, and whole outputs. */
module AxiomMeaning {
  import opened Strings
  import opened AxiomOutput

  /** The characters that count as whitespace, and those of them that end a line. */
  lemma WhitespaceTable(c: char)
    ensures IsBreak(c) <==> c as int in {10, 11, 12, 13, 28, 29, 30, 0x85, 0x2028, 0x2029}
    ensures IsSpace(c) <==>
            || c as int in {9, 10, 11, 12, 13, 28, 29, 30, 31, 32, 0x85, 0xA0, 0x1680}
            || c as int in {0x2000, 0x2001, 0x2002, 0x2003, 0x2004, 0x2005, 0x2006, 0x2007, 0x2008, 0x2009, 0x200A}
            || c as int in {0x2028, 0x2029, 0x202F, 0x205F, 0x3000}
  {
  }

  /** What the parser answers for an output. */
  function Parsed(stdout: string): seq<Dependency> {
    ParseLines(SplitLines(Strip(stdout)))
  }

  lemma ParsedIsText(s: string)
    ensures Parsed(s) == ParseText(s)
  {
    ParseTextStrip(s);
    ParseTextLines(Strip(s));
  }

  // ---- Axiom lists ---------------------------------------------------------

  /** Without a comma, there is one axiom, or none when all is whitespace. */
  lemma LastAxiom(a: string)
    requires ',' !in a
    ensures Axioms(a) == if Strip(a) == "" then [] else [Strip(a)]
  {
    assert a[..|a|] == a;
    IndexOf(a, ',', |a|);
    TrimmedOne(a);
  }

  /** Up to the first comma it is the same; what follows is a list of its own. */
  lemma FirstAxiom(a: string, rest: string)
    requires ',' !in a
    ensures Axioms(a + "," + rest) == Axioms(a) + Axioms(rest)
  {
    var s := a + "," + rest;
    assert s[..|a|] == a && s[|a| + 1..] == rest;
    IndexOf(s, ',', |a|);
    TrimmedCons(a, Split(rest, ','));
    LastAxiom(a);
  }

  lemma StripShortens(a: string)
    ensures forall c | c in Strip(a) :: c in a
    ensures Strip(Strip(a)) == Strip(a)
  {
    var i, j := StripMeaning(a);
    if i < j {
      assert Strip(a)[0] == a[i] && Strip(a)[|Strip(a)| - 1] == a[j - 1];
    }
  }

  /** Whatever is parsed, an axiom is never empty, has no whitespace at its ends and no comma in it. */
  lemma {:induction false} AxiomsAreClean(rest: string, a: string)
    requires a in Axioms(rest)
    ensures a != "" && Strip(a) == a && ',' !in a
    decreases |rest|
  {
    var i := Index(rest, ',');
    if i == |rest| {
      assert rest[..i] == rest;
      LastAxiom(rest);
      StripShortens(rest);
    } else {
      var first, more := rest[..i], rest[i + 1..];
      assert rest == first + "," + more;
      FirstAxiom(first, more);
      if a in Axioms(more) {
        AxiomsAreClean(more, a);
      } else {
        LastAxiom(first);
        StripShortens(first);
      }
    }
  }

  // ---- Lines ---------------------------------------------------------------

  lemma OneLineText(line: string)
    requires OneLine(line)
    ensures ParseText(line) == ParseRaw(line)
  {
    FirstBreakAt(line, |line|);
    ParseOneLine(line);
  }

  /** A line without a colon says nothing. */
  lemma ParsedNoise(line: string)
    requires OneLine(line) && ':' !in line
    ensures Parsed(line) == []
  {
    ParsedIsText(line);
    OneLineText(line);
    assert line[..|line|] == line;
    IndexOf(line, ':', |line|);
  }

  /** One with a colon says what precedes the first one depends on what follows it, further colons included. */
  lemma ParsedRecord(declaration: string, rest: string)
    requires OneLine(declaration + ":" + rest) && ':' !in declaration
    ensures Parsed(declaration + ":" + rest) == [Dependency(Strip(declaration), Axioms(rest))]
  {
    var line := declaration + ":" + rest;
    ParsedIsText(line);
    OneLineText(line);
    assert line[..|declaration|] == declaration && line[|declaration| + 1..] == rest;
    IndexOf(line, ':', |declaration|);
  }

  /** How a line can end before what follows it; a carriage return takes a following newline with it. */
  predicate Ends(end: string, rest: string) {
    end == "\r\n" || (|end| == 1 && IsBreak(end[0]) && !(end[0] == '\r' && rest != "" && rest[0] == '\n'))
  }

  lemma CutAt(s: string, line: string, end: string, rest: string)
    requires s == line + end + rest && Ends(end, rest)
    ensures |line| < |s| && s[..|line|] == line && s[|line|] == end[0] && IsBreak(s[|line|])
    ensures NextLine(s, |line|) == |line| + |end| && s[|line| + |end|..] == rest
  {
    if |end| == 2 {
      assert s[|line| + 1] == end[1];
    } else if rest != "" {
      assert s[|line| + 1] == rest[0];
    }
  }

  lemma TextAt(s: string, line: string, k: nat)
    requires OneLine(line) && |line| < |s| && s[..|line|] == line && IsBreak(s[|line|])
    requires k == NextLine(s, |line|)
    ensures ParseText(s) == ParseRaw(line) + ParseText(s[k..])
  {
    assert forall j | 0 <= j < |line| :: s[..|line|][j] == s[j] && line[j] in line;
    ParseTextAt(s, |line|);
  }

  /** An output is parsed line by line. */
  lemma ParsedLineByLine(line: string, end: string, rest: string)
    requires OneLine(line) && Ends(end, rest)
    ensures Parsed(line + end + rest) == Parsed(line) + Parsed(rest)
  {
    var s := line + end + rest;
    ParsedIsText(s);
    ParsedIsText(line);
    ParsedIsText(rest);
    OneLineText(line);
    CutAt(s, line, end, rest);
    TextAt(s, line, |line| + |end|);
  }
}
