/**
 * What the engine decides, said of the evidence and the policy pack themselves: which paths match, what asks for a
 * human, and which of several rules speaks first.
 */
module PolicyMeaning {
  import opened Wrappers
  import opened PolicyModels
  import opened Batch
  import opened PolicyEngine

  // ---- Matching ------------------------------------------------------------

  /** The pattern matches the whole path, or what follows its last slash; slashes and backslashes are the same. */
  ghost predicate Matches(fn: Matcher, file: string, glob: string) {
    exists f, g, b :: Slashed(file, f) && Slashed(glob, g) && BaseOf(f, b) && (fn(f, g) || fn(b, g))
  }

  lemma SlashedUnique(s: string, t: string, u: string)
    requires Slashed(s, t) && Slashed(s, u)
    ensures t == u
  {
  }

  /** Anything longer than what follows the last slash has that slash in it. */
  lemma SlashInside(s: string, a: string, n: int)
    requires BaseOf(s, a) && |a| < n <= |s|
    ensures '/' in s[|s| - n..]
  {
    assert s[|s| - n..][n - |a| - 1] == s[|s| - |a| - 1];
  }

  lemma BaseUnique(s: string, a: string, b: string)
    requires BaseOf(s, a) && BaseOf(s, b)
    ensures a == b
  {
    if |a| < |b| {
      SlashInside(s, a, |b|);
    } else if |b| < |a| {
      SlashInside(s, b, |a|);
    }
  }

  lemma HitOf(fn: Matcher, file: string, glob: string, f: string, g: string, b: string)
    requires Slashed(file, f) && Slashed(glob, g) && BaseOf(f, b)
    ensures Hits(fn, file, glob) <==> fn(f, g) || fn(b, g)
  {
    SlashesMeaning(file);
    SlashesMeaning(glob);
    SlashedUnique(file, f, Slashes(file));
    SlashedUnique(glob, g, Slashes(glob));
    BasenameMeaning(f);
    BaseUnique(f, b, Basename(f));
  }

  lemma HitsIffMatches(fn: Matcher, file: string, glob: string)
    ensures Hits(fn, file, glob) <==> Matches(fn, file, glob)
  {
    SlashesMeaning(file);
    SlashesMeaning(glob);
    BasenameMeaning(Slashes(file));
    HitOf(fn, file, glob, Slashes(file), Slashes(glob), Basename(Slashes(file)));
    if Matches(fn, file, glob) {
      var f, g, b :| Slashed(file, f) && Slashed(glob, g) && BaseOf(f, b) && (fn(f, g) || fn(b, g));
      HitOf(fn, file, glob, f, g, b);
    }
  }

  // ---- What asks for a human -----------------------------------------------

  ghost predicate GateAsks(fn: Matcher, gate: TrustGate, trust: Trust, files: seq<string>) {
    && gate.requireHuman && trust in gate.whenTrust
    && exists f | f in files :: gate.globs == [] || exists g | g in gate.globs :: Matches(fn, f, g)
  }

  ghost predicate RuleAsks(fn: Matcher, rule: PathRule, files: seq<string>) {
    rule.requireHuman && exists f | f in files :: Matches(fn, f, rule.glob)
  }

  lemma GateAsksIff(fn: Matcher, gate: TrustGate, trust: Trust, files: seq<string>)
    ensures GateFires(fn, gate, trust, files) <==> GateAsks(fn, gate, trust, files)
  {
    forall f, g
      ensures Hits(fn, f, g) <==> Matches(fn, f, g)
    {
      HitsIffMatches(fn, f, g);
    }
    if gate.globs == [] && files != [] {
      assert files[0] in files;
    }
  }

  lemma RuleAsksIff(fn: Matcher, rule: PathRule, files: seq<string>)
    ensures RuleFires(fn, rule, files) <==> RuleAsks(fn, rule, files)
  {
    forall f
      ensures Hits(fn, f, rule.glob) <==> Matches(fn, f, rule.glob)
    {
      HitsIffMatches(fn, f, rule.glob);
    }
  }

  /** The interactive answer reports no error, and a batch result is ok without axiom block reasons. */
  predicate Sound(ev: Evidence) {
    && !(ev.interactive.Some? && Error in ev.interactive.value.diagnostics)
    && (ev.batch.Some? ==> ev.batch.value.ok && ev.batch.value.audit.blockedReasons == [])
  }

  /** Something about sound evidence asks for a human. */
  ghost predicate Asks(fn: Matcher, pack: Pack, ev: Evidence) {
    || (ev.batch.Some? && ev.batch.value.trust == Warning && !pack.allowTrustCompiler)
    || (ev.batch.Some?
        && exists gate | gate in pack.trustGates :: GateAsks(fn, gate, ev.batch.value.trust, ev.changedFiles))
    || (ev.trustDelta && pack.requireHumanOnTrustDelta)
    || (exists rule | rule in pack.pathRules :: RuleAsks(fn, rule, ev.changedFiles))
    || ev.protectedTouched != []
    || (ev.importsChanged && pack.requireHumanIfImportsChange)
  }

  lemma ClearIff(fn: Matcher, pack: Pack, ev: Evidence)
    ensures Clear(fn, pack, ev) <==> Sound(ev) && !Asks(fn, pack, ev)
  {
    forall gate, trust
      ensures GateFires(fn, gate, trust, ev.changedFiles) <==> GateAsks(fn, gate, trust, ev.changedFiles)
    {
      GateAsksIff(fn, gate, trust, ev.changedFiles);
    }
    forall rule
      ensures RuleFires(fn, rule, ev.changedFiles) <==> RuleAsks(fn, rule, ev.changedFiles)
    {
      RuleAsksIff(fn, rule, ev.changedFiles);
    }
  }

  /** Unsound evidence is refused, sound evidence goes to a human exactly when something asks for one. */
  lemma VerdictMeaning(fn: Matcher, pack: Pack, ev: Evidence)
    ensures var v := Judge(fn, pack, ev).verdict;
            && (v in {Rejected, Blocked} <==> !Sound(ev))
            && (v == NeedsReview <==> Sound(ev) && Asks(fn, pack, ev))
            && (v == Accepted <==> Sound(ev) && !Asks(fn, pack, ev))
  {
    ClearIff(fn, pack, ev);
    AcceptedIffClear(fn, pack, ev);
    AdmittedEvidence(fn, pack, ev);
  }

  // ---- Which rule speaks ---------------------------------------------------

  /** A decision with one resolved rule, which carries the verdict. */
  predicate Says(
    d: Decision, pack: Pack, verdict: Verdict, trust: Trust, ruleId: string, reasons: seq<string>, code: string)
  {
    && d.verdict == verdict && d.trust == trust && d.reasons == reasons
    && d.packName == pack.name && d.packVersion == pack.version
    && d.rules == [ResolvedRule(ruleId, pack.name, true, verdict, code)]
  }

  /** A call for review under one rule, for one reason. */
  predicate Calls(d: Decision, pack: Pack, trust: Trust, ruleId: string, reason: string) {
    Says(d, pack, NeedsReview, trust, ruleId, [reason], reason)
  }

  lemma RowSays(fn: Matcher, pack: Pack, ev: Evidence, k: nat)
    requires var rows := Table(fn, pack, ev); k < |rows| && rows[k].fires && Quiet(rows, k)
    ensures var row := RowAt(fn, pack, ev, k);
            Says(Judge(fn, pack, ev), pack, row.verdict, row.trust, row.ruleId, row.reasons, row.code)
  {
    FirstAt(Table(fn, pack, ev), k);
  }

  /** Refusals, in order: an error, a failed batch, an axiom block. Only the last of them blocks, the others reject. */
  lemma RefusalSays(fn: Matcher, pack: Pack, ev: Evidence)
    requires !Sound(ev)
    ensures var d := Judge(fn, pack, ev);
            if ev.interactive.Some? && Error in ev.interactive.value.diagnostics then
              Says(d, pack, Rejected, TrustBlocked,
                   "interactive_errors", ["interactive_errors_present"], "interactive_errors_present")
            else
              var b := ev.batch.value;
              if !b.ok then
                Says(d, pack, Rejected, TrustBlocked, "batch_verify",
                     ["batch_verify_failed"] + (if b.build.ok then [] else ["lake_build_failed"])
                     + (if b.checker.ok then [] else ["fresh_checker_failed"]),
                     "batch_verify_failed")
              else Says(d, pack, Blocked, TrustBlocked, "axiom_audit", b.audit.blockedReasons, "axiom_blocked")
  {
    RowSays(fn, pack, ev, if HasError(ev) then 0 else if !ev.batch.value.ok then 1 else 2);
  }

  lemma AcceptSays(fn: Matcher, pack: Pack, ev: Evidence)
    requires Sound(ev) && !Asks(fn, pack, ev)
    ensures Says(Judge(fn, pack, ev), pack, Accepted, Clean, "accept", [], "accepted")
  {
    ClearIff(fn, pack, ev);
    ClearIsQuiet(fn, pack, ev);
    RowSays(fn, pack, ev, |Table(fn, pack, ev)| - 1);
  }

  /** The first gate to ask, if any does. */
  ghost predicate FirstGate(fn: Matcher, pack: Pack, ev: Evidence, k: int) {
    && ev.batch.Some? && 0 <= k < |pack.trustGates|
    && GateAsks(fn, pack.trustGates[k], ev.batch.value.trust, ev.changedFiles)
    && forall j | 0 <= j < k :: !GateAsks(fn, pack.trustGates[j], ev.batch.value.trust, ev.changedFiles)
  }

  ghost predicate FirstRule(fn: Matcher, pack: Pack, ev: Evidence, k: int) {
    && 0 <= k < |pack.pathRules| && RuleAsks(fn, pack.pathRules[k], ev.changedFiles)
    && forall j | 0 <= j < k :: !RuleAsks(fn, pack.pathRules[j], ev.changedFiles)
  }

  ghost predicate CompilerAsks(pack: Pack, ev: Evidence) {
    ev.batch.Some? && ev.batch.value.trust == Warning && !pack.allowTrustCompiler
  }

  ghost predicate NoGate(fn: Matcher, pack: Pack, ev: Evidence) {
    ev.batch.Some? ==>
      forall gate | gate in pack.trustGates :: !GateAsks(fn, gate, ev.batch.value.trust, ev.changedFiles)
  }

  ghost predicate NoRule(fn: Matcher, pack: Pack, ev: Evidence) {
    forall rule | rule in pack.pathRules :: !RuleAsks(fn, rule, ev.changedFiles)
  }

  /** Calls for review, in order: the compiler's trust, then the first gate that asks. */
  lemma GateSays(fn: Matcher, pack: Pack, ev: Evidence)
    requires Sound(ev)
    ensures CompilerAsks(pack, ev) ==>
              Calls(Judge(fn, pack, ev), pack, Warning, "trust_compiler", "trust_compiler_detected")
    ensures !CompilerAsks(pack, ev) ==>
              forall k | FirstGate(fn, pack, ev, k) ::
                Calls(Judge(fn, pack, ev), pack, Clean, pack.trustGates[k].ruleId, pack.trustGates[k].reasonCode)
  {
    if CompilerAsks(pack, ev) {
      RowSays(fn, pack, ev, 3);
    } else {
      forall k | FirstGate(fn, pack, ev, k)
        ensures Calls(Judge(fn, pack, ev), pack, Clean, pack.trustGates[k].ruleId, pack.trustGates[k].reasonCode)
      {
        forall j | 0 <= j <= k
          ensures GateFires(fn, pack.trustGates[j], ev.batch.value.trust, ev.changedFiles) <==> j == k
        {
          GateAsksIff(fn, pack.trustGates[j], ev.batch.value.trust, ev.changedFiles);
        }
        RowSays(fn, pack, ev, 4 + k);
      }
    }
  }

  /** Up to the rows about the patch nothing fires. */
  lemma BatchQuiet(fn: Matcher, pack: Pack, ev: Evidence)
    requires Sound(ev) && !CompilerAsks(pack, ev) && NoGate(fn, pack, ev)
    ensures Quiet(Table(fn, pack, ev), DeltaIndex(pack, ev))
  {
    forall i | 0 <= i < |pack.trustGates| && ev.batch.Some?
      ensures !GateFires(fn, pack.trustGates[i], ev.batch.value.trust, ev.changedFiles)
    {
      GateAsksIff(fn, pack.trustGates[i], ev.batch.value.trust, ev.changedFiles);
    }
  }

  /** Then a trust delta, and the first path rule that asks. */
  lemma RuleSays(fn: Matcher, pack: Pack, ev: Evidence)
    requires Sound(ev) && !CompilerAsks(pack, ev) && NoGate(fn, pack, ev)
    ensures ev.trustDelta && pack.requireHumanOnTrustDelta ==>
              Calls(Judge(fn, pack, ev), pack, Clean, "trust_delta", "trust_delta_requires_review")
    ensures !(ev.trustDelta && pack.requireHumanOnTrustDelta) ==>
              forall k | FirstRule(fn, pack, ev, k) ::
                Calls(Judge(fn, pack, ev), pack, Clean,
                      "path_rule:" + pack.pathRules[k].glob, pack.pathRules[k].reasonCode)
  {
    BatchQuiet(fn, pack, ev);
    var d := DeltaIndex(pack, ev);
    if ev.trustDelta && pack.requireHumanOnTrustDelta {
      RowSays(fn, pack, ev, d);
    } else {
      forall k | FirstRule(fn, pack, ev, k)
        ensures Calls(Judge(fn, pack, ev), pack, Clean,
                      "path_rule:" + pack.pathRules[k].glob, pack.pathRules[k].reasonCode)
      {
        forall j | 0 <= j <= k
          ensures RuleFires(fn, pack.pathRules[j], ev.changedFiles) <==> j == k
        {
          RuleAsksIff(fn, pack.pathRules[j], ev.changedFiles);
        }
        RowSays(fn, pack, ev, d + 1 + k);
      }
    }
  }

  /** And last a protected path, and changed imports. */
  lemma PatchSays(fn: Matcher, pack: Pack, ev: Evidence)
    requires Sound(ev) && !CompilerAsks(pack, ev) && NoGate(fn, pack, ev)
    requires !(ev.trustDelta && pack.requireHumanOnTrustDelta) && NoRule(fn, pack, ev)
    ensures ev.protectedTouched != [] ==>
              Calls(Judge(fn, pack, ev), pack, Clean, "protected_paths", "protected_path_touched")
    ensures ev.protectedTouched == [] && ev.importsChanged && pack.requireHumanIfImportsChange ==>
              Calls(Judge(fn, pack, ev), pack, Clean, "imports_changed", "imports_changed_requires_review")
  {
    BatchQuiet(fn, pack, ev);
    forall i | 0 <= i < |pack.pathRules|
      ensures !RuleFires(fn, pack.pathRules[i], ev.changedFiles)
    {
      RuleAsksIff(fn, pack.pathRules[i], ev.changedFiles);
    }
    var n := DeltaIndex(pack, ev) + |pack.pathRules| + 1;
    if ev.protectedTouched != [] {
      RowSays(fn, pack, ev, n);
    } else if ev.importsChanged && pack.requireHumanIfImportsChange {
      RowSays(fn, pack, ev, n + 1);
    }
  }
}
