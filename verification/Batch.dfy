/** Combining build, axiom audit and fresh check into one batch result, and the strict acceptance gate. */
module Batch {
  import opened PolicyModels

  datatype Build = Build(ok: bool)

  datatype Audit = Audit(ok: bool, trust: Trust, blockedReasons: seq<string>)

  datatype Checker = Checker(ok: bool)

  datatype BatchResult = BatchResult(
    ok: bool,
    build: Build,
    audit: Audit,
    checker: Checker,
    trust: Trust,
    reasons: seq<string>,
    axiomReal: bool,
    freshReal: bool)

  /** What one batch run is made of; the gate is strict when asked to be, and always in production. */
  datatype BatchInputs = BatchInputs(
    build: Build,
    audit: Audit,
    checker: Checker,
    axiomReal: bool,
    freshReal: bool,
    strictRequested: bool,
    production: bool)

  const NON_REAL_AXIOM_AUDIT := "axiom_audit_stub_unconfigured"
  const STRICT_NEEDS_REAL_AXIOM := "acceptance_strict_requires_real_axiom_audit"
  const STRICT_NEEDS_REAL_FRESH := "acceptance_strict_requires_real_fresh_checker"

  /** What the test-double auditor answers, whatever it is asked. */
  const STUB_AUDIT := Audit(true, Clean, [NON_REAL_AXIOM_AUDIT])

  function When(condition: bool, reason: string): seq<string> {
    if condition then [reason] else []
  }

  predicate Strict(i: BatchInputs) {
    i.strictRequested || i.production
  }

  function StrictReasons(i: BatchInputs): seq<string> {
    if Strict(i) then When(!i.axiomReal, STRICT_NEEDS_REAL_AXIOM) + When(!i.freshReal, STRICT_NEEDS_REAL_FRESH) else []
  }

  /** The batch result the gateway answers with: ok only when nothing failed and no required evidence is a stub. */
  function Verify(i: BatchInputs): BatchResult {
    var gate := StrictReasons(i);
    BatchResult(
      i.build.ok && i.audit.ok && i.checker.ok && !i.audit.trust.TrustBlocked? && gate == [],
      i.build, i.audit, i.checker,
      if gate == [] then i.audit.trust else TrustBlocked,
      When(!i.build.ok, "lake_build_failed") + i.audit.blockedReasons
      + When(!i.checker.ok, "fresh_checker_failed") + gate,
      i.axiomReal, i.freshReal)
  }

  method CombineBatchResults(build: Build, audit: Audit, checker: Checker, axiomReal: bool, freshReal: bool)
    returns (r: BatchResult)
    ensures r == Verify(BatchInputs(build, audit, checker, axiomReal, freshReal, false, false))
  {
    var ok := build.ok && audit.ok && checker.ok && audit.trust != TrustBlocked;
    var reasons: seq<string> := [];
    if !build.ok {
      reasons := reasons + ["lake_build_failed"];
    }
    reasons := reasons + audit.blockedReasons;
    if !checker.ok {
      reasons := reasons + ["fresh_checker_failed"];
    }
    r := BatchResult(ok, build, audit, checker, audit.trust, reasons, axiomReal, freshReal);
  }

  method ApplyAcceptanceStrict(combined: BatchResult, axiomReal: bool, freshReal: bool) returns (r: BatchResult)
    ensures axiomReal && freshReal ==> r == combined
    ensures !(axiomReal && freshReal) ==>
              r == combined.(
                ok := false,
                trust := TrustBlocked,
                reasons := combined.reasons
                           + When(!axiomReal, STRICT_NEEDS_REAL_AXIOM) + When(!freshReal, STRICT_NEEDS_REAL_FRESH))
  {
    var reasons: seq<string> := [];
    if !axiomReal {
      reasons := reasons + [STRICT_NEEDS_REAL_AXIOM];
    }
    if !freshReal {
      reasons := reasons + [STRICT_NEEDS_REAL_FRESH];
    }
    if reasons == [] {
      return combined;
    }
    assert reasons == When(!axiomReal, STRICT_NEEDS_REAL_AXIOM) + When(!freshReal, STRICT_NEEDS_REAL_FRESH);
    assert combined.reasons + reasons
        == combined.reasons + When(!axiomReal, STRICT_NEEDS_REAL_AXIOM) + When(!freshReal, STRICT_NEEDS_REAL_FRESH);
    r := combined.(ok := false, trust := TrustBlocked, reasons := combined.reasons + reasons);
  }

  /** The batch route: combine, then gate when strict. */
  method BatchVerify(i: BatchInputs) returns (r: BatchResult)
    ensures r == Verify(i)
    ensures r.ok <==>
            && i.build.ok && i.audit.ok && i.checker.ok && i.audit.trust != TrustBlocked
            && (Strict(i) ==> i.axiomReal && i.freshReal)
  {
    r := CombineBatchResults(i.build, i.audit, i.checker, i.axiomReal, i.freshReal);
    if Strict(i) {
      r := ApplyAcceptanceStrict(r, i.axiomReal, i.freshReal);
    }
    assert r.reasons == Verify(i).reasons;
  }

  /** A batch result that is not ok names a reason, except when only the audit failed and gave none itself. */
  lemma RefusalIsExplained(i: BatchInputs)
    ensures !Verify(i).ok && Verify(i).reasons == [] <==>
            && i.build.ok && i.checker.ok && StrictReasons(i) == []
            && (!i.audit.ok || i.audit.trust == TrustBlocked) && i.audit.blockedReasons == []
  {
    assert |Verify(i).reasons|
        == |When(!i.build.ok, "lake_build_failed")| + |i.audit.blockedReasons|
           + |When(!i.checker.ok, "fresh_checker_failed")| + |StrictReasons(i)|;
  }

  /**
   * A result passes on what it was made of. It carries the audit's own trust, unless acceptance is strict, by request
   * or in production, and some evidence is not real; then its trust is blocked. Its reasons are those of the parts.
   */
  lemma VerifyMeaning(i: BatchInputs)
    ensures var (r, missing) := (Verify(i), (i.strictRequested || i.production) && !(i.axiomReal && i.freshReal));
            && r.build == i.build && r.audit == i.audit && r.checker == i.checker
            && r.axiomReal == i.axiomReal && r.freshReal == i.freshReal
            && r.trust == (if missing then TrustBlocked else i.audit.trust)
            && (r.ok <==> i.build.ok && i.audit.ok && i.checker.ok && i.audit.trust != TrustBlocked && !missing)
            && (!missing ==> r.reasons == Failures(i))
            && (missing ==> Failures(i) < r.reasons && r.reasons[|Failures(i)|..] == Missing(i))
  {
    assert Verify(i).reasons == Failures(i) + StrictReasons(i);
  }

  /** Why the parts failed: the build first, then what the audit says itself, then the fresh check. */
  function Failures(i: BatchInputs): seq<string> {
    (if i.build.ok then [] else ["lake_build_failed"]) + i.audit.blockedReasons
    + (if i.checker.ok then [] else ["fresh_checker_failed"])
  }

  function Missing(i: BatchInputs): seq<string> {
    (if i.axiomReal then [] else ["acceptance_strict_requires_real_axiom_audit"])
    + (if i.freshReal then [] else ["acceptance_strict_requires_real_fresh_checker"])
  }
}
