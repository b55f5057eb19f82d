/** Decisions, policy packs and evidence shared by the evaluators, the policy engine and the runtime. */
module PolicyModels {
  datatype Verdict = Accepted | Rejected | Blocked | NeedsReview

  datatype Trust = Clean | Warning | TrustBlocked

  /** One entry of a decision's audit trail; `effect` ranges over the same values as a verdict. */
  datatype ResolvedRule = ResolvedRule(
    ruleId: string,
    sourcePack: string,
    matched: bool,
    effect: Verdict,
    reasonCode: string)

  datatype Decision = Decision(
    verdict: Verdict,
    trust: Trust,
    reasons: seq<string>,
    packName: string,
    packVersion: string,
    rules: seq<ResolvedRule>)

  datatype PathRule = PathRule(glob: string, requireHuman: bool, reasonCode: string)

  datatype TrustGate = TrustGate(
    ruleId: string,
    whenTrust: seq<Trust>,
    globs: seq<string>,
    requireHuman: bool,
    reasonCode: string)

  datatype Pack = Pack(
    name: string,
    version: string,
    allowTrustCompiler: bool,
    requireHumanIfImportsChange: bool,
    requireHumanOnTrustDelta: bool,
    pathRules: seq<PathRule>,
    trustGates: seq<TrustGate>,
    singleOwnerHandoff: bool,
    reviewerGatedExecution: bool,
    lockOwnershipInvariant: bool,
    evidenceCompleteExecutionToken: bool,
    delegationAdmissibility: bool,
    stateTransitionPreservation: bool,
    artifactAdmissibility: bool,
    sideEffectAuthorization: bool)

  // Decisions of the protocol evaluators carry no pack and no audit trail.
  const ADMIT := Decision(Accepted, Clean, [], "", "", [])

  function Refuse(verdict: Verdict, reason: string): Decision {
    Decision(verdict, TrustBlocked, [reason], "", "", [])
  }
}
