/** The policy engine: nested loops over gates and rules, proved to pick the first rule of one ordered table. */
module PolicyEngine {
  import opened Wrappers
  import opened PolicyModels
  import opened Batch

  datatype Severity = Error | Warn | Information | Hint

  /** An interactive answer: diagnostics by severity, goals by text. */
  datatype Interactive = Interactive(ok: bool, diagnostics: seq<Severity>, goals: seq<string>)

  datatype Evidence = Evidence(
    interactive: Option<Interactive>,
    batch: Option<BatchResult>,
    changedFiles: seq<string>,
    trustDelta: bool,
    protectedTouched: seq<string>,
    importsChanged: bool)

  /** `fnmatch` on a name and a pattern, left abstract. */
  type Matcher = (string, string) -> bool

  // ---- Paths and globs -----------------------------------------------------

  function Slashes(s: string): string {
    if s == "" then "" else [if s[0] == '\\' then '/' else s[0]] + Slashes(s[1..])
  }

  function Basename(s: string): string {
    if '/' in s then Basename(s[1..]) else s
  }

  /** `t` is `s` with every backslash turned into a slash. */
  predicate Slashed(s: string, t: string) {
    |t| == |s| && forall i | 0 <= i < |s| :: t[i] == if s[i] == '\\' then '/' else s[i]
  }

  /** `b` is what follows the last slash of `s`. */
  predicate BaseOf(s: string, b: string) {
    '/' !in b && |b| <= |s| && s[|s| - |b|..] == b && (|b| < |s| ==> s[|s| - |b| - 1] == '/')
  }

  lemma {:induction false} SlashesMeaning(s: string)
    ensures Slashed(s, Slashes(s))
  {
    if s != "" {
      SlashesMeaning(s[1..]);
    }
  }

  lemma {:induction false} BasenameMeaning(s: string)
    ensures BaseOf(s, Basename(s))
  {
    if '/' in s {
      BasenameMeaning(s[1..]);
      BaseOfLonger(s, Basename(s[1..]));
    }
  }

  lemma BaseOfLonger(s: string, b: string)
    requires '/' in s && BaseOf(s[1..], b)
    ensures BaseOf(s, b)
  {
    assert s[1..][|s| - 1 - |b|..] == s[|s| - |b|..];
    if |b| == |s| - 1 {
      assert s[1..] == b;
    }
  }

  predicate Hits(fn: Matcher, file: string, glob: string) {
    fn(Slashes(file), Slashes(glob)) || fn(Basename(Slashes(file)), Slashes(glob))
  }

  // ---- The ordered table of rules ------------------------------------------

  /** A rule of the engine: whether it fires, and the decision it makes when it is the first to fire. */
  datatype Row = Row(fires: bool, verdict: Verdict, trust: Trust, ruleId: string, reasons: seq<string>, code: string)

  function ReviewRow(fires: bool, ruleId: string, code: string): Row {
    Row(fires, NeedsReview, Clean, ruleId, [code], code)
  }

  predicate GateFires(fn: Matcher, gate: TrustGate, trust: Trust, files: seq<string>) {
    && trust in gate.whenTrust
    && gate.requireHuman
    && if gate.globs == [] then files != []
       else exists f, g | f in files && g in gate.globs :: Hits(fn, f, g)
  }

  predicate RuleFires(fn: Matcher, rule: PathRule, files: seq<string>) {
    rule.requireHuman && exists f | f in files :: Hits(fn, f, rule.glob)
  }

  function GateRow(fn: Matcher, gate: TrustGate, trust: Trust, files: seq<string>): Row {
    ReviewRow(GateFires(fn, gate, trust, files), gate.ruleId, gate.reasonCode)
  }

  function PathRow(fn: Matcher, rule: PathRule, files: seq<string>): Row {
    ReviewRow(RuleFires(fn, rule, files), "path_rule:" + rule.glob, rule.reasonCode)
  }

  predicate HasError(ev: Evidence) {
    ev.interactive.Some? && Error in ev.interactive.value.diagnostics
  }

  function FailureReasons(b: BatchResult): seq<string> {
    ["batch_verify_failed"] + When(!b.build.ok, "lake_build_failed") + When(!b.checker.ok, "fresh_checker_failed")
  }

  function ErrorRow(ev: Evidence): Row {
    Row(HasError(ev), Rejected, TrustBlocked,
        "interactive_errors", ["interactive_errors_present"], "interactive_errors_present")
  }

  function FailureRow(b: BatchResult): Row {
    Row(!b.ok, Rejected, TrustBlocked, "batch_verify", FailureReasons(b), "batch_verify_failed")
  }

  function AxiomRow(b: BatchResult): Row {
    Row(b.audit.blockedReasons != [], Blocked, TrustBlocked, "axiom_audit", b.audit.blockedReasons, "axiom_blocked")
  }

  function CompilerRow(pack: Pack, b: BatchResult): Row {
    Row(b.trust == Warning && !pack.allowTrustCompiler, NeedsReview, Warning,
        "trust_compiler", ["trust_compiler_detected"], "trust_compiler_detected")
  }

  function DeltaRow(pack: Pack, ev: Evidence): Row {
    ReviewRow(ev.trustDelta && pack.requireHumanOnTrustDelta, "trust_delta", "trust_delta_requires_review")
  }

  function ProtectedRow(ev: Evidence): Row {
    ReviewRow(ev.protectedTouched != [], "protected_paths", "protected_path_touched")
  }

  function ImportsRow(pack: Pack, ev: Evidence): Row {
    ReviewRow(ev.importsChanged && pack.requireHumanIfImportsChange,
              "imports_changed", "imports_changed_requires_review")
  }

  const ACCEPT_ROW := Row(true, Accepted, Clean, "accept", [], "accepted")

  /** Where the rows after those about the batch result start. */
  function DeltaIndex(pack: Pack, ev: Evidence): nat {
    if ev.batch.Some? then 4 + |pack.trustGates| else 1
  }

  function RowAt(fn: Matcher, pack: Pack, ev: Evidence, k: nat): Row
    requires k < DeltaIndex(pack, ev) + |pack.pathRules| + 4
  {
    var d, p := DeltaIndex(pack, ev), |pack.pathRules|;
    if k == 0 then ErrorRow(ev)
    else if k == d then DeltaRow(pack, ev)
    else if k < d && k == 1 then FailureRow(ev.batch.value)
    else if k < d && k == 2 then AxiomRow(ev.batch.value)
    else if k < d && k == 3 then CompilerRow(pack, ev.batch.value)
    else if k < d then GateRow(fn, pack.trustGates[k - 4], ev.batch.value.trust, ev.changedFiles)
    else if k <= d + p then PathRow(fn, pack.pathRules[k - d - 1], ev.changedFiles)
    else if k == d + p + 1 then ProtectedRow(ev)
    else if k == d + p + 2 then ImportsRow(pack, ev)
    else ACCEPT_ROW
  }

  function Table(fn: Matcher, pack: Pack, ev: Evidence): (rows: seq<Row>)
    ensures rows != [] && rows[|rows| - 1] == ACCEPT_ROW
  {
    var n := DeltaIndex(pack, ev) + |pack.pathRules| + 4;
    seq(n, k requires 0 <= k < n => RowAt(fn, pack, ev, k))
  }

  /** None of the first `n` rows fires. */
  predicate Quiet(rows: seq<Row>, n: nat)
    requires n <= |rows|
  {
    forall i | 0 <= i < n :: !rows[i].fires
  }

  /** The first row that fires; every table ends in a row that does. */
  function FirstFiring(rows: seq<Row>): (r: Row)
    requires rows != [] && rows[|rows| - 1].fires
  {
    if rows[0].fires then rows[0] else FirstFiring(rows[1..])
  }

  function ToDecision(pack: Pack, row: Row): Decision {
    Decision(row.verdict, row.trust, row.reasons, pack.name, pack.version,
             [ResolvedRule(row.ruleId, pack.name, true, row.verdict, row.code)])
  }

  function Judge(fn: Matcher, pack: Pack, ev: Evidence): Decision {
    ToDecision(pack, FirstFiring(Table(fn, pack, ev)))
  }

  lemma {:induction false} FirstAt(rows: seq<Row>, k: nat)
    requires k < |rows| && rows[|rows| - 1].fires
    requires rows[k].fires && Quiet(rows, k)
    ensures FirstFiring(rows) == rows[k]
  {
    if k > 0 {
      FirstAt(rows[1..], k - 1);
    }
  }

  /** The index of the row that decides. */
  lemma {:induction false} FiringIndex(rows: seq<Row>) returns (k: nat)
    requires rows != [] && rows[|rows| - 1].fires
    ensures k < |rows| && rows[k].fires && Quiet(rows, k) && FirstFiring(rows) == rows[k]
  {
    if rows[0].fires {
      k := 0;
    } else {
      var n := FiringIndex(rows[1..]);
      k := n + 1;
      assert forall i | 0 < i < k :: rows[i] == rows[1..][i - 1];
    }
  }

  // ---- The engine ----------------------------------------------------------

  /** The part of the engine that looks at the batch result; `None` when it leaves the decision to the patch. */
  method ReviewBatch(fn: Matcher, pack: Pack, ev: Evidence, b: BatchResult) returns (d: Option<Decision>)
    requires ev.batch == Some(b) && !HasError(ev)
    ensures d.Some? ==> d.value == Judge(fn, pack, ev)
    ensures d.None? ==> Quiet(Table(fn, pack, ev), DeltaIndex(pack, ev))
  {
    ghost var table := Table(fn, pack, ev);
    if !b.ok {
      var reasons := ["batch_verify_failed"];
      if !b.build.ok {
        reasons := reasons + ["lake_build_failed"];
      }
      if !b.checker.ok {
        reasons := reasons + ["fresh_checker_failed"];
      }
      FirstAt(table, 1);
      return Some(Make(pack, "batch_verify", Rejected, TrustBlocked, reasons, "batch_verify_failed"));
    }
    if b.audit.blockedReasons != [] {
      FirstAt(table, 2);
      return Some(Make(pack, "axiom_audit", Blocked, TrustBlocked, b.audit.blockedReasons, "axiom_blocked"));
    }
    if b.trust == Warning && !pack.allowTrustCompiler {
      FirstAt(table, 3);
      return Some(Make(pack, "trust_compiler", NeedsReview, Warning,
                       ["trust_compiler_detected"], "trust_compiler_detected"));
    }
    for i := 0 to |pack.trustGates|
      invariant Quiet(table, 4 + i)
    {
      var gate := pack.trustGates[i];
      if b.trust !in gate.whenTrust {
        continue;
      }
      var pathMatch := AnyHit(fn, ev.changedFiles, gate.globs);
      if pathMatch && gate.requireHuman {
        FirstAt(table, 4 + i);
        return Some(Make(pack, gate.ruleId, NeedsReview, Clean, [gate.reasonCode], gate.reasonCode));
      }
    }
    d := None;
  }

  /** The part of the engine that looks at what the patch changes. */
  method ReviewPatch(fn: Matcher, pack: Pack, ev: Evidence) returns (d: Decision)
    requires Quiet(Table(fn, pack, ev), DeltaIndex(pack, ev))
    ensures d == Judge(fn, pack, ev)
  {
    ghost var table, k := Table(fn, pack, ev), DeltaIndex(pack, ev);
    if ev.trustDelta && pack.requireHumanOnTrustDelta {
      FirstAt(table, k);
      return Make(pack, "trust_delta", NeedsReview, Clean,
                  ["trust_delta_requires_review"], "trust_delta_requires_review");
    }
    for i := 0 to |pack.pathRules|
      invariant Quiet(table, k + 1 + i)
    {
      var rule := pack.pathRules[i];
      for n := 0 to |ev.changedFiles|
        invariant forall m | 0 <= m < n :: !Hits(fn, ev.changedFiles[m], rule.glob)
      {
        if Hits(fn, ev.changedFiles[n], rule.glob) {
          if rule.requireHuman {
            FirstAt(table, k + 1 + i);
            return Make(pack, "path_rule:" + rule.glob, NeedsReview, Clean, [rule.reasonCode], rule.reasonCode);
          }
          break;
        }
      }
    }
    k := k + 1 + |pack.pathRules|;
    if ev.protectedTouched != [] {
      FirstAt(table, k);
      return Make(pack, "protected_paths", NeedsReview, Clean, ["protected_path_touched"], "protected_path_touched");
    }
    if ev.importsChanged && pack.requireHumanIfImportsChange {
      FirstAt(table, k + 1);
      return Make(pack, "imports_changed", NeedsReview, Clean,
                  ["imports_changed_requires_review"], "imports_changed_requires_review");
    }
    FirstAt(table, k + 2);
    return Make(pack, "accept", Accepted, Clean, [], "accepted");
  }

  method Evaluate(fn: Matcher, pack: Pack, ev: Evidence) returns (d: Decision)
    ensures d == Judge(fn, pack, ev)
  {
    if ev.interactive.Some? && ev.interactive.value.diagnostics != [] {
      var errors := CountErrors(ev.interactive.value.diagnostics);
      if errors > 0 {
        FirstAt(Table(fn, pack, ev), 0);
        return Make(pack, "interactive_errors", Rejected, TrustBlocked,
                    ["interactive_errors_present"], "interactive_errors_present");
      }
    }
    if ev.batch.Some? {
      var answer := ReviewBatch(fn, pack, ev, ev.batch.value);
      if answer.Some? {
        return answer.value;
      }
    }
    d := ReviewPatch(fn, pack, ev);
  }

  function Make(pack: Pack, ruleId: string, verdict: Verdict, trust: Trust, reasons: seq<string>, code: string)
    : Decision
  {
    ToDecision(pack, Row(true, verdict, trust, ruleId, reasons, code))
  }

  method CountErrors(diagnostics: seq<Severity>) returns (n: nat)
    ensures n > 0 <==> Error in diagnostics
  {
    n := 0;
    for i := 0 to |diagnostics|
      invariant n > 0 <==> Error in diagnostics[..i]
    {
      if diagnostics[i] == Error {
        n := n + 1;
      }
    }
    assert diagnostics[..|diagnostics|] == diagnostics;
  }

  /** Whether a gate's globs match a changed file; a gate without globs matches any change. */
  method AnyHit(fn: Matcher, files: seq<string>, globs: seq<string>) returns (hit: bool)
    ensures hit <==> if globs == [] then files != [] else exists f, g | f in files && g in globs :: Hits(fn, f, g)
  {
    if globs == [] {
      return files != [];
    }
    hit := false;
    for i := 0 to |files|
      invariant !hit
      invariant forall f, g | f in files[..i] && g in globs :: !Hits(fn, f, g)
    {
      for k := 0 to |globs|
        invariant !hit
        invariant forall g | g in globs[..k] :: !Hits(fn, files[i], g)
      {
        if Hits(fn, files[i], globs[k]) {
          hit := true;
          break;
        }
      }
      if hit {
        break;
      }
      assert globs[..|globs|] == globs;
    }
    assert files[..|files|] == files;
  }

  // ---- What a decision means -----------------------------------------------

  /** The conditions under which nothing asks for a human or refuses. */
  predicate Clear(fn: Matcher, pack: Pack, ev: Evidence) {
    && !HasError(ev)
    && (ev.batch.Some? ==>
          var b := ev.batch.value;
          && b.ok && b.audit.blockedReasons == [] && (b.trust == Warning ==> pack.allowTrustCompiler)
          && forall gate | gate in pack.trustGates :: !GateFires(fn, gate, b.trust, ev.changedFiles))
    && !(ev.trustDelta && pack.requireHumanOnTrustDelta)
    && (forall rule | rule in pack.pathRules :: !RuleFires(fn, rule, ev.changedFiles))
    && ev.protectedTouched == []
    && !(ev.importsChanged && pack.requireHumanIfImportsChange)
  }

  /** No row but the last fires exactly when the conditions are clear. */
  lemma ClearIsQuiet(fn: Matcher, pack: Pack, ev: Evidence)
    requires Clear(fn, pack, ev)
    ensures var rows := Table(fn, pack, ev); Quiet(rows, |rows| - 1)
  {
  }

  lemma QuietIsClear(fn: Matcher, pack: Pack, ev: Evidence)
    requires var rows := Table(fn, pack, ev); Quiet(rows, |rows| - 1)
    ensures Clear(fn, pack, ev)
  {
    var table, files, d := Table(fn, pack, ev), ev.changedFiles, DeltaIndex(pack, ev);
    var n := |table| - 1;
    assert !table[0].fires && !table[d].fires && !table[n - 1].fires && !table[n - 2].fires;
    if ev.batch.Some? {
      assert !table[1].fires && !table[2].fires && !table[3].fires;
      forall i | 0 <= i < |pack.trustGates|
        ensures !GateFires(fn, pack.trustGates[i], ev.batch.value.trust, files)
      {
        assert !table[4 + i].fires;
      }
    }
    forall i | 0 <= i < |pack.pathRules|
      ensures !RuleFires(fn, pack.pathRules[i], files)
    {
      assert !table[d + 1 + i].fires;
    }
  }

  /** The engine accepts exactly when nothing fires. */
  lemma AcceptedIffClear(fn: Matcher, pack: Pack, ev: Evidence)
    ensures Judge(fn, pack, ev).verdict == Accepted <==> Clear(fn, pack, ev)
  {
    var table := Table(fn, pack, ev);
    var k := FiringIndex(table);
    if Clear(fn, pack, ev) {
      ClearIsQuiet(fn, pack, ev);
    } else if k == |table| - 1 {
      QuietIsClear(fn, pack, ev);
    } else {
      assert RowAt(fn, pack, ev, k).verdict != Accepted;
    }
  }

  lemma RowSound(fn: Matcher, pack: Pack, ev: Evidence, k: nat)
    requires k < |Table(fn, pack, ev)| && Table(fn, pack, ev)[k].fires
    ensures var row := Table(fn, pack, ev)[k];
            && (|row.reasons| == 0 <==> row.verdict == Accepted)
            && (row.trust == TrustBlocked <==> row.verdict in {Rejected, Blocked})
  {
  }

  /** Exactly one resolved rule, whose effect is the verdict; reasons are empty exactly on acceptance. */
  lemma OneResolvedRule(fn: Matcher, pack: Pack, ev: Evidence)
    ensures var d := Judge(fn, pack, ev);
            && |d.rules| == 1 && d.rules[0].matched && d.rules[0].effect == d.verdict
            && d.rules[0].sourcePack == d.packName == pack.name
            && (|d.reasons| == 0 <==> d.verdict == Accepted)
            && (d.trust == TrustBlocked <==> d.verdict in {Rejected, Blocked})
  {
    var k := FiringIndex(Table(fn, pack, ev));
    RowSound(fn, pack, ev, k);
  }

  /** More changed files, path rules or trust gates, in any order, never turn a refusal or a review into acceptance. */
  lemma MoreNeverAccepts(fn: Matcher, pack: Pack, ev: Evidence, pack': Pack, ev': Evidence)
    requires pack' == pack.(pathRules := pack'.pathRules, trustGates := pack'.trustGates)
    requires ev' == ev.(changedFiles := ev'.changedFiles)
    requires forall r | r in pack.pathRules :: r in pack'.pathRules
    requires forall g | g in pack.trustGates :: g in pack'.trustGates
    requires forall f | f in ev.changedFiles :: f in ev'.changedFiles
    requires Judge(fn, pack, ev).verdict != Accepted
    ensures Judge(fn, pack', ev').verdict != Accepted
  {
    AcceptedIffClear(fn, pack, ev);
    AcceptedIffClear(fn, pack', ev');
    if rule :| rule in pack.pathRules && RuleFires(fn, rule, ev.changedFiles) {
      assert RuleFires(fn, rule, ev'.changedFiles);
    } else if ev.batch.Some? {
      if gate :| gate in pack.trustGates && GateFires(fn, gate, ev.batch.value.trust, ev.changedFiles) {
        assert ev.changedFiles != [] ==> ev.changedFiles[0] in ev'.changedFiles;
        assert GateFires(fn, gate, ev.batch.value.trust, ev'.changedFiles);
      }
    }
  }

  /** A batch result audited by the test double is never accepted and never sent for review. */
  lemma StubAuditNeverAdmitted(fn: Matcher, pack: Pack, ev: Evidence, i: BatchInputs)
    requires i.audit == STUB_AUDIT && ev.batch == Some(Verify(i))
    ensures Judge(fn, pack, ev).verdict in {Rejected, Blocked}
  {
    AdmittedEvidence(fn, pack, ev);
    assert |ev.batch.value.audit.blockedReasons| == 1;
    var v := Judge(fn, pack, ev).verdict;
    assert v.Accepted? || v.NeedsReview? || v.Rejected? || v.Blocked?;
  }

  /** Exactly sound evidence can be accepted or reach a human; neither the policy pack nor the patch matters here. */
  lemma AdmittedEvidence(fn: Matcher, pack: Pack, ev: Evidence)
    ensures Judge(fn, pack, ev).verdict in {Accepted, NeedsReview} <==>
            && !HasError(ev)
            && (ev.batch.Some? ==> ev.batch.value.ok && ev.batch.value.audit.blockedReasons == [])
  {
    var table := Table(fn, pack, ev);
    var k := FiringIndex(table);
    assert k > 0 ==> !table[0].fires;
    if ev.batch.Some? {
      assert k > 1 ==> !table[1].fires;
      assert k > 2 ==> !table[2].fires;
    }
  }
}
