# Verification of the patch-admissibility runtime

These modules model the decision logic of the Obligation Runtime and the stateful services around it, and prove what
that logic promises. `dafny verify dfyconfig.toml` checks everything.

A patch enters a graph of thirteen nodes. The gateway opens an environment, checks the patch interactively and in
batch, protocol evaluators look at the events that led to it, and a policy pack decides: accept, refuse, or ask a
human. A human's decision is stored by the gateway and resumes the thread. The modules follow that path:

| modules | what they model |
|---|---|
| `Batch`, `PatchMetadata`, `PolicyModels`, `PolicyEngine`, `PolicyMeaning` | the batch result and its strict gate, the patch summary, the policy engine and what its rules ask of paths and evidence |
| `ProtocolEvaluator`, `TraceLaws`, `SingleOwner` | the evaluators of event traces and what they demand of a trace, the per-task owner chain |
| `PackLoader`, `PackMeaning`, `PackComposition`, `PackDiamonds`, `PackOrder`, `PackCache` | `extends`/`import` composition, one file of it key by key and fault by fault, its meaning over all files, shared packs, reordered imports, the cache and the fast path |
| `Reviews`, `ReviewHistory`, `Approvals` | the review store and routes, histories of calls, one thread's life in the abstract |
| `Runtime`, `RuntimeProperties`, `FirstRuns`, `FirstRunTraces`, `RunLaws`, `Threads` | the graph, one invocation, what a first run comes to and goes through, what a run is made from, whole lives of many threads |
| `LspCache`, `LspHistory` | the cache of language-server processes |
| `PathSafety`, `PathMeaning`, `Workspaces`, `WorkspaceHistory`, `WorkspaceLaws` | path resolution and its exact refusals, snapshots, sessions and patches on one disk, and what that disk always looks like |
| `ProtectedFiles`, `ImportEdits` | the runtime's gates on protected paths and imports against what a patch really does to the workspace |
| `PoolRunner` | the semaphore around a runner, under concurrent callers |
| `AxiomOutput`, `AxiomMeaning` | the parser of the axiom audit's output, built up from parts and lines |
| `Sorting`, `Strings`, `Wrappers` | Python's `sorted` on a set of strings, splitting at a character; `Option` and `Result` |

How to read them. Code that loops or assigns is a method (or a class with methods) proved equal to a specification
function or predicate: `Judge` is the first firing row of an ordered table, `Decide` speaks of the trace and not of a
loop's variables, `Merge` is the recursive composition, `Lru` a plain list in order of use. The lemmas are about those
specifications, over every input and every history. Answers of the gateway, what polling a process finds, the clock,
new session ids and glob matching are arbitrary inputs.

## Main results

* `Threads.AcceptedExactlyWhen` and `AcceptedOnlyWhenChecked`: over every interleaving of starts, restarts, decisions
  and resumes, a thread is accepted exactly when the latest event to settle it was an accepted start, or a resume on a
  standing human approval of the latest posted review; the start that counts had its interactive and batch checks in
  order.
* `FirstRuns.FirstRunEnds`: where every first run with a real session ends, case by case, in terms of the patch, the
  gateway's answers and the policy pack; `FirstRunTraces.FirstRunPath` and `FirstRunDecision` which nodes it went
  through and which decision it leaves, `RunLaws.StartEnds` that a start of any thread ends so on its own input.
* `RunLaws.ProtocolRefusalIff`: flag by flag, which traces of events let a run go on.
* `RuntimeProperties.GatedPatchNeverAccepted` and `Threads.ProtectedNeedsHuman`: a patch that names a protected path goes
  to a human. `ProtectedFiles.PlainProtectedWriteNeverAccepted` extends this to every patch that writes a protected
  file, if paths are spelled plainly, and `ProtectedWriteAcceptedIff` is the exact condition without that premise.
* `ImportEdits.ImportGateIff` and `MissedEditIff`: exactly which edits of imports a gating pack sends to a human.
* `PolicyEngine.Evaluate` with `AcceptedIffClear`, `OneResolvedRule` and `MoreNeverAccepts`: the nested loops pick the
  first rule that fires, accept exactly when none does, and never become more lenient as rules or files are added.
  `PolicyMeaning.VerdictMeaning` says which files a rule or gate matches, `RefusalSays` to `PatchSays` which one speaks.
* `PackComposition.ComposesIff` and `ComposedIsFold`: exactly which packs compose, and that the outcome is a last-wins
  fold of their layers; `PackMeaning.ComposedKey` and `ImportFault` say so of a single file's import list, value by value
  and fault by fault. `PackDiamonds.DiamondFolds`: of a pack reached twice only the later run counts.
  `PackOrder.OrderNeverMatters`: no entry anywhere notices the order of a strict file's imports in success or scalars.
* `ProtocolEvaluator.AcceptsIff` and `PrefixClosed`: each one-pass evaluator accepts exactly the traces with its property.
* `WorkspaceHistory.AlwaysIsolated` and `NothingElseChanges`: whatever path strings are patched, a workspace is its base
  copy under its own session's writes, and no snapshot ever changes. `PathMeaning.ResolvesIff` and
  `WorkspaceLaws.EscapeStops`: exactly which keys are refused, and that a patch never gets past one.
  `WorkspaceLaws.OpenedIsGranted`: whatever happens in between, an opened environment can be worked in.
* `LspHistory.BoundedAndAccounted`, `AccountedIffNoneRaised` and `VictimIsLeastRecentlyUsed`, `PoolRunner.PoolIsLimited`
  and `CallsEnd`, `AxiomOutput.RoundTrip`, `SingleOwner.InterleavingKeepsCount`, `PackCache.CacheIsInvisible`.

## What the proofs found

* A run whose gateway answers with an empty session id skips both checks and can still be accepted
  (`RuntimeProperties.EmptySessionSkipsChecks`); `FreshRunChecked` gives the exact condition, a non-empty id, and
  `FirstRuns.EmptySessionEnds` says what becomes of any patch without one. The
  gateway's own ids are never empty (overlay_fs.py:45), so the thread theorem takes that as its premise.
* The gate on protected paths compares text (patch_metadata.py:18), the gateway writes where a path resolves
  (path_safety.py:13-19). A patch of `./A` under the protected path `A` rewrites the protected file and is accepted
  outright (`ProtectedFiles.AliasIsAccepted`). A patch that is otherwise in order and applied whole is accepted exactly
  when none of the keys that land on a protected file is, letter by letter, a protected path (`ProtectedWriteAcceptedIff`);
  with keys and protected paths spelled plainly the gate sees every such write (`PlainWritesAreSeen`).
* The gate on imports is shown an empty text before the patch (handlers.py:148), so it sees only the new text. A patch
  that deletes a file's imports is accepted outright under a pack that gates import changes (`ImportEdits.DropIsAccepted`),
  and an `import` followed by a tab is not seen either (`TabIsUnseen`). A run that is otherwise in order is accepted
  exactly when no new text in its patch contains "import ", whatever was there before (`ImportGateIff`): the edits it
  misses are exactly those that leave the word in none of the patched files (`MissedEditIff`).
* A language server whose handshake raises is lost: it is neither cached nor told to stop (`LspHistory.FirstReplyUnreadable`).
  `_start_lsp` catches only the failure to spawn, and the reader hands `json.loads` whatever it has read
  (lsp_client.py:52), of which the blank line after the header is a part (lsp_client.py:32-44). Nothing is lost exactly
  when no start raised in its handshake (`AccountedIffNoneRaised`).
* The review record stays in the store after a resume. A thread that is started again is accepted on its next resume
  whatever its new run found, exactly when that run posts no review of its own (`Threads.RestartReusesApproval`);
  `Threads.FailedRestartIsAccepted` is such a history from the empty system, in which the restart's checks are not ok.
* A pack with `reviewer_gated_execution` blocks every first run before a review can exist, so such a thread can neither
  be accepted nor reach a human (`RuntimeProperties.ReviewerGatedNeverPasses`).
* When the chosen pack does not load, policy review falls back to the strict pack, and a patch that writes an import is
  still not accepted (`RuntimeProperties.UnloadablePackStillGates`), but the protocol checks are skipped (`UnloadablePackSkipsProtocol`).
* A batch result can be not ok without naming any reason: exactly when the audit alone failed and named none
  (`Batch.RefusalIsExplained`).
* The single-file fast path differs from the full merge exactly when the file spells out an empty `extends` or `import`
  key, which only the fast path keeps (`PackCache.FastPathKeepsEmptyReference`). As a pack may have no extra keys, such
  a file is then refused, although the full merge would have loaded it (`PackCache.EmptyReferenceIsRefused`).
* A delegation without a recipient hands its task to an agent spelled "None" (validators.py:15); the evidence evaluator
  raises on an execute event whose payload is truthy and not a mapping (protocol_evaluator.py:215), the artifact
  evaluator on artifacts under a kind that is a list or a mapping (protocol_evaluator.py:176).

Where code and text disagree, the model follows the code: routes_batch.py:49 speaks of a production default that can be
disabled, but lines 50-52 make production strict always; a pack's own `protected_paths` are never read, the obligation's
are (handlers.py:144-148); and the runtime never sets `trust_delta` (handlers.py:149-153).

## Model

| member | source | states |
|---|---|---|
| `Batch.CombineBatchResults` | apps/lean-gateway/lean_langchain_gateway/batch/combine.py:38-65 | the combined result is the specified one for a run that is not gated: verdict, trust, and reasons in order |
| `Batch.ApplyAcceptanceStrict` | apps/lean-gateway/lean_langchain_gateway/batch/combine.py:16-35 | with both evidences real the result is untouched; otherwise it is not ok, blocked, and names each missing evidence after its earlier reasons |
| `Batch.BatchVerify` | apps/lean-gateway/lean_langchain_gateway/api/routes_batch.py:37-55 | ok exactly when build, audit and fresh check are, trust is not blocked, and, if strict (always in production), both evidences are real |
| `Batch.RefusalIsExplained` | apps/lean-gateway/lean_langchain_gateway/batch/combine.py:46-52 | a refused batch names no reason exactly when the audit alone failed and named none |
| `Batch.VerifyMeaning` | apps/lean-gateway/lean_langchain_gateway/batch/combine.py:16-65 | a result passes on its parts; its trust is the audit's own unless strict acceptance, by request or in production, lacks real evidence, and then it is blocked; its reasons are those of the parts in order, then each missing evidence |
| `Sorting.SortedKeys` | packages/policy/lean_langchain_policy/patch_metadata.py:10 | sorting a set gives its one ascending list without repeats |
| `Sorting.SortedListUnique` | packages/policy/lean_langchain_policy/patch_metadata.py:10 | a set of strings has only one sorted list, whatever order its members are visited in |
| `Sorting.BeforeMeaning` | packages/policy/lean_langchain_policy/patch_metadata.py:10 | a string comes first when it is a proper prefix, or has the smaller character where the two first differ |
| `PatchMetadata.SummarizePatch` | packages/policy/lean_langchain_policy/patch_metadata.py:9-18 | the loop with its break gives the specified summary |
| `PatchMetadata.ContainsMeaning` | packages/policy/lean_langchain_policy/patch_metadata.py:15 | a text contains a word exactly when the word starts at some position of it |
| `PatchMetadata.SummaryMeaning` | packages/policy/lean_langchain_policy/patch_metadata.py:10-18 | changed files are exactly the keys of either map, touched ones exactly the protected among them, and imports changed exactly when some file's text changed and either version imports |
| `PatchMetadata.SummaryOrder` | packages/policy/lean_langchain_policy/patch_metadata.py:10-18 | both lists are ascending; imports changed exactly when, for some key of either map, the two texts differ, an absent one being empty, and "import " starts at some position of one of them |
| `PolicyEngine.Evaluate` | packages/policy/lean_langchain_policy/engine.py:33-236 | the nested loops decide as the first firing row of the ordered rule table; what each row asks of paths and evidence, and which speaks first, is in the `PolicyMeaning` rows below |
| `PolicyEngine.ReviewBatch` | packages/policy/lean_langchain_policy/engine.py:75-157 | the batch part decides as the table does, or none of its rows fires |
| `PolicyEngine.ReviewPatch` | packages/policy/lean_langchain_policy/engine.py:159-236 | when no batch row fires, the patch part decides as the table does |
| `PolicyEngine.AnyHit` | packages/policy/lean_langchain_policy/engine.py:127-138 | the nested loops with two breaks find a hit exactly when some file matches some glob; no globs match any change |
| `PolicyEngine.CountErrors` | packages/policy/lean_langchain_policy/engine.py:56-59 | errors are found exactly when some diagnostic is one |
| `PolicyEngine.SlashesMeaning` | packages/policy/lean_langchain_policy/engine.py:50 | backslashes become slashes, character by character |
| `PolicyEngine.BasenameMeaning` | packages/policy/lean_langchain_policy/engine.py:134 | a base name is what follows the last slash |
| `PolicyEngine.AcceptedIffClear` | packages/policy/lean_langchain_policy/engine.py:55-228 | accepted exactly when no error, batch failure, axiom block, gate, path rule, protected path or gated import change stands in the way |
| `PolicyEngine.OneResolvedRule` | packages/policy/lean_langchain_policy/engine.py:17-31 | one resolved rule, whose effect is the decision; reasons are empty exactly on acceptance; trust is blocked exactly on refusal |
| `PolicyEngine.MoreNeverAccepts` | packages/policy/lean_langchain_policy/engine.py:124-196 | more changed files, path rules or trust gates, in any order, never turn another decision into acceptance |
| `PolicyEngine.AdmittedEvidence` | packages/policy/lean_langchain_policy/engine.py:55-106 | accepted or sent for review exactly when there are no error diagnostics and any batch result is ok without axiom block reasons |
| `PolicyEngine.StubAuditNeverAdmitted` | apps/lean-gateway/lean_langchain_gateway/batch/axiom_audit.py:33-42 | a result audited by the test double is always refused, whatever else holds |
| `PolicyMeaning.HitsIffMatches` | packages/policy/lean_langchain_policy/engine.py:134 | a pattern hits a file exactly when it matches the whole path or what follows its last slash, both with backslashes as slashes |
| `PolicyMeaning.VerdictMeaning` | packages/policy/lean_langchain_policy/engine.py:33-236 | refused exactly when the evidence is not sound; if sound, sent to a human exactly when the compiler's trust, a gate, a trust delta, a path rule, a protected path or gated imports ask for one, where gates and rules match files as above; accepted otherwise |
| `PolicyMeaning.RefusalSays` | packages/policy/lean_langchain_policy/engine.py:55-106 | errors come before a failed batch, and that before an axiom block; the first two reject, the last blocks, each with its rule, reasons and blocked trust |
| `PolicyMeaning.AcceptSays` | packages/policy/lean_langchain_policy/engine.py:228-236 | when nothing refuses or asks, the one rule is acceptance, with clean trust and no reasons |
| `PolicyMeaning.GateSays` | packages/policy/lean_langchain_policy/engine.py:108-157 | of sound evidence, the compiler's trust speaks first, then the first gate to ask, with its own rule and reason |
| `PolicyMeaning.RuleSays` | packages/policy/lean_langchain_policy/engine.py:159-196 | after these a trust delta, then the first path rule to ask, named by its pattern |
| `PolicyMeaning.PatchSays` | packages/policy/lean_langchain_policy/engine.py:198-226 | last a protected path, and after it gated imports |
| `ProtocolEvaluator.ValidateEvents` | packages/policy/lean_langchain_policy/protocol_evaluator.py:46-60 | the loop is the event-by-event normalisation |
| `ProtocolEvaluator.NormalizeConcat` | packages/policy/lean_langchain_policy/protocol_evaluator.py:49-60 | normalising works on each part of a trace alone and keeps order |
| `ProtocolEvaluator.NormalizeClean` | packages/policy/lean_langchain_policy/protocol_evaluator.py:46-60 | events with proper actor and task come back unchanged |
| `ProtocolEvaluator.NormalizingIsInvisible` | packages/policy/lean_langchain_policy/protocol_evaluator.py:261-283 | normalising a trace beforehand changes no evaluator's decision, reason or exception |
| `ProtocolEvaluator.EvaluateHandoffLegality` | packages/policy/lean_langchain_policy/protocol_evaluator.py:63-88 | rejects at the first delegate whose agent is not the named owner of the latest earlier claim, with the right reason; admits otherwise |
| `ProtocolEvaluator.EvaluateReviewerGated` | packages/policy/lean_langchain_policy/protocol_evaluator.py:91-103 | admits exactly when some event is an approve |
| `ProtocolEvaluator.EvaluateDelegationAdmissibility` | packages/policy/lean_langchain_policy/protocol_evaluator.py:106-141 | as handoff, and the delegate's task is not another than the claim's |
| `ProtocolEvaluator.EvaluateStateTransition` | packages/policy/lean_langchain_policy/protocol_evaluator.py:144-163 | rejects exactly when an execute or recover has no earlier approve |
| `ProtocolEvaluator.EvaluateArtifactAdmissibility` | packages/policy/lean_langchain_policy/protocol_evaluator.py:166-182 | rejects exactly when the first event other than approve and execute to carry artifacts has a kind that can be looked up; raises exactly when it has not |
| `ProtocolEvaluator.EvaluateSideEffectAuthorization` | packages/policy/lean_langchain_policy/protocol_evaluator.py:185-202 | rejects exactly when an execute or recover has no earlier approve |
| `ProtocolEvaluator.EvaluateEvidenceComplete` | packages/policy/lean_langchain_policy/protocol_evaluator.py:205-223 | admits exactly when some event says the evidence is complete; raises exactly when an opaque payload on an execute comes first |
| `ProtocolEvaluator.EvaluateLockOwnership` | packages/policy/lean_langchain_policy/protocol_evaluator.py:226-258 | rejects at the first lock not preceded by releases of all other agents' locks, and the first release without an open lock by the same agent, each with its reason |
| `ProtocolEvaluator.LockAllowed` | packages/policy/lean_langchain_policy/protocol_evaluator.py:236-257 | the holder the loop carries decides each lock and release exactly as the trace property does |
| `ProtocolEvaluator.HolderStep` | packages/policy/lean_langchain_policy/protocol_evaluator.py:236-257 | each admitted event keeps what the loop knows: who holds the lock, and that everyone else let go |
| `ProtocolEvaluator.EvaluateProtocolObligation` | packages/policy/lean_langchain_policy/protocol_evaluator.py:261-283 | the dispatcher decides every class as specified, exceptions included, and admits unknown ones |
| `ProtocolEvaluator.AcceptsIff` | packages/policy/lean_langchain_policy/protocol_evaluator.py:63-258 | six evaluators accept a trace exactly when their property holds at each of its events; only the artifact evaluator can raise |
| `ProtocolEvaluator.PrefixClosed` | packages/policy/lean_langchain_policy/protocol_evaluator.py:63-258 | a prefix of an accepted trace is accepted, before normalising too |
| `ProtocolEvaluator.LockIsExclusive` | packages/policy/lean_langchain_policy/protocol_evaluator.py:226-258 | in a trace the lock evaluator accepts, two agents never hold the lock at once |
| `ProtocolEvaluator.LockPropertyForNamedAgents` | packages/policy/lean_langchain_policy/protocol_evaluator.py:226-258 | with all agents named, the property is: between locks by different agents the earlier one released, and every release has a lock by its agent since the previous release |
| `ProtocolEvaluator.DelegationImpliesHandoff` | packages/policy/lean_langchain_policy/protocol_evaluator.py:63-141 | with both flags on, whatever delegation admissibility accepts is a legal handoff |
| `ProtocolEvaluator.TransitionsAndEffectsAgree` | packages/policy/lean_langchain_policy/protocol_evaluator.py:144-202 | state-transition and side-effect decisions differ in nothing but the reason |
| `TraceLaws.NormalizeOne` | packages/policy/lean_langchain_policy/protocol_evaluator.py:46-60 | of one event: junk is dropped, an actor or task that is no mapping becomes one without an id, the rest stays |
| `TraceLaws.HandoffLaw` | packages/policy/lean_langchain_policy/protocol_evaluator.py:63-88 | flag on: accepted exactly when each delegate is by the agent that the latest claim before it names |
| `TraceLaws.DelegationLaw` | packages/policy/lean_langchain_policy/protocol_evaluator.py:106-141 | flag on: and of the claimed task, where both tasks are named |
| `TraceLaws.LockLaw` | packages/policy/lean_langchain_policy/protocol_evaluator.py:226-258 | flag on: accepted exactly when a named agent releases between its lock and any other agent's, and each release is by the agent of a lock with no release since |
| `TraceLaws.ApprovalLaw` | packages/policy/lean_langchain_policy/protocol_evaluator.py:144-202 | flag on: accepted exactly when each execute and recover has an approve before it, for transitions and effects alike |
| `TraceLaws.ArtifactLaw` | packages/policy/lean_langchain_policy/protocol_evaluator.py:166-182 | flag on: accepted exactly when only approves and executes carry artifacts |
| `TraceLaws.ReviewerLaw` | packages/policy/lean_langchain_policy/protocol_evaluator.py:91-103 | flag on: accepted exactly when some event is an approve |
| `TraceLaws.EvidenceLaw` | packages/policy/lean_langchain_policy/protocol_evaluator.py:205-223 | flag on: accepted exactly when an event says the evidence is complete and no execute before it has an opaque payload |
| `TraceLaws.Admits` | packages/policy/lean_langchain_policy/protocol_evaluator.py:63-283 | flag off, or class unknown: accepted; acceptance is always clean and gives no reason |
| `TraceLaws.WholeTraceRefusal` | packages/policy/lean_langchain_policy/protocol_evaluator.py:91-223 | a missing approval and incomplete evidence block, each for its own reason |
| `TraceLaws.FaultLaw` | packages/policy/lean_langchain_policy/protocol_evaluator.py:166-223 | the two ways an evaluator raises, each with exactly the traces on which it does |
| `TraceLaws.StepwiseRefusal` | packages/policy/lean_langchain_policy/protocol_evaluator.py:63-258 | the other classes reject, at the first event out of order, for a reason said of the claims, locks and agents before it |
| `SingleOwner.ValidateSingleOwner` | packages/protocol/lean_langchain_protocol/validators.py:6-16 | one reason per violation, ok exactly when there are none; which delegates are violations is in `ViolationsCounted` |
| `SingleOwner.ViolationsAddUp` | packages/protocol/lean_langchain_protocol/validators.py:8-15 | the reasons of a trace are those of each task's events alone, added up |
| `SingleOwner.InterleavingKeepsCount` | packages/protocol/lean_langchain_protocol/validators.py:8-15 | interleavings that keep every task's order get the same number of reasons |
| `SingleOwner.OkIffChains` | packages/protocol/lean_langchain_protocol/validators.py:13-16 | ok exactly when, task by task, each later delegate is made by the previous one's receiver |
| `SingleOwner.ViolationsCounted` | packages/protocol/lean_langchain_protocol/validators.py:6-16 | there are as many as events that delegate a task which the latest earlier delegate of it handed to someone else: to its recipient, or without one to "None" |
| `PackLoader.MergePackLayers` | packages/policy/lean_langchain_policy/pack_loader.py:88-123 | terminates on every set of files, answers the composition or fault that `PackMeaning` spells out level by level, and leaves the visiting set as it found it on every exit |
| `PackLoader.MergeVisited` | packages/policy/lean_langchain_policy/pack_loader.py:98-121 | the protected part answers the same and also restores the visiting set |
| `PackLoader.MergeItems` | packages/policy/lean_langchain_policy/pack_loader.py:110-118 | the import loop merges the named imports in order, skips others, and stops at the first fault or conflict |
| `PackLoader.ImportsStopAtError` | packages/policy/lean_langchain_policy/pack_loader.py:112-118 | once an import fails, what follows it does not matter |
| `PackMeaning.ComposedKey` | packages/policy/lean_langchain_policy/pack_loader.py:101-121 | a file that composes gives a key its body's value; failing that, the value of the last named item of its import list whose pack composes to a layer with that key; failing that, the base's; and every named item composes |
| `PackMeaning.ImportFault` | packages/policy/lean_langchain_policy/pack_loader.py:109-118 | it composes exactly when importing stops at no named item; else the first at which it does gives its own fault, or the conflict: in a strict file, a scalar other than what the items before it, or the base, made it |
| `PackMeaning.ImportsDecided` | packages/policy/lean_langchain_policy/pack_loader.py:110-118 | the same of any import list over any base, given what each pack composes to |
| `PackMeaning.RefusedEarly` | packages/policy/lean_langchain_policy/pack_loader.py:88-108 | before its imports are looked at, in this order: too deep, circular, missing, unreadable, no mapping, an extends that is no name, the base's own fault |
| `PackMeaning.RefersTo` | packages/policy/lean_langchain_policy/pack_loader.py:101-115 | a pack refers to exactly what it extends and the names on its import list |
| `PackMeaning.ScalarKeys` | packages/policy/lean_langchain_policy/pack_loader.py:22-39 | the fourteen flags strict imports may not disagree on |
| `PackComposition.ComposedIsFold` | packages/policy/lean_langchain_policy/pack_loader.py:101-121 | a composed pack is the left-to-right last-wins fold of its linearised layers: base, imports in order, own body |
| `PackComposition.LastDefinerWins` | packages/policy/lean_langchain_policy/pack_loader.py:102-121 | each key of a fold has the value of the last layer that defines it |
| `PackComposition.KeysOfFold` | packages/policy/lean_langchain_policy/pack_loader.py:102-121 | a fold has exactly the keys its layers have |
| `PackComposition.DropEarlierDuplicate` | packages/policy/lean_langchain_policy/pack_loader.py:105-120 | a run of layers that is merged again later may be dropped where it came earlier |
| `PackDiamonds.DiamondFolds` | packages/policy/lean_langchain_policy/pack_loader.py:105-120 | a pack that reaches a shared pack through two of its references has that pack's layers twice, and composes to what it would without the earlier run |
| `PackDiamonds.SameLayers` | packages/policy/lean_langchain_policy/pack_loader.py:101-121 | a pack that composes at two depths has the same layers at both |
| `PackDiamonds.LayersWithin` | packages/policy/lean_langchain_policy/pack_loader.py:101-121 | the layers of a pack lie, as one run, within those of any composing pack that reaches it |
| `PackDiamonds.LayersOfRefs` | packages/policy/lean_langchain_policy/pack_loader.py:103-120 | a pack's layers are those of all it refers to, in order, and its own body |
| `PackComposition.ImportsSucceedIff` | packages/policy/lean_langchain_policy/pack_loader.py:66-118 | imports merge exactly when each composes and, if strict, base and imports pairwise agree on shared scalars; the outcome is their fold |
| `PackComposition.AgreeWithFold` | packages/policy/lean_langchain_policy/pack_loader.py:69-76 | not conflicting with what was merged so far is agreeing with each layer merged so far |
| `PackComposition.ScalarOfAgreeing` | packages/policy/lean_langchain_policy/pack_loader.py:66-118 | on a scalar, agreeing layers merge to the value any of them gives |
| `PackComposition.StrictImportOrderIrrelevant` | packages/policy/lean_langchain_policy/pack_loader.py:110-118 | permuting or repeating strict imports changes neither success nor any scalar |
| `PackOrder.OrderNeverMatters` | packages/policy/lean_langchain_policy/pack_loader.py:88-123 | between two disks that differ only in the order of one strict file's imports, every entry has the same success and the same scalars |
| `PackOrder.StrictImports` | packages/policy/lean_langchain_policy/pack_loader.py:110-118 | strict imports that match up in success and scalars, in whatever order, merge alike |
| `PackOrder.PointwiseImports` | packages/policy/lean_langchain_policy/pack_loader.py:110-118 | imports that match up one by one merge alike, strict or not |
| `PackComposition.ComposesIff` | packages/policy/lean_langchain_policy/pack_loader.py:88-123 | a pack composes exactly when every reference path from it repeats no file, has at most twelve references and ends in a readable, well-typed file whose strict imports agree |
| `PackComposition.ComposeSound` | packages/policy/lean_langchain_policy/pack_loader.py:88-123 | one direction, for any depth and visiting set: what composes has only good paths |
| `PackComposition.ComposeComplete` | packages/policy/lean_langchain_policy/pack_loader.py:88-123 | the other: if all paths are good, it composes |
| `PackComposition.MergeStepDown` | packages/policy/lean_langchain_policy/pack_loader.py:99-121 | whatever a pack that composes refers to composes too, one level down |
| `PackComposition.MergeStepUp` | packages/policy/lean_langchain_policy/pack_loader.py:99-121 | a file in order composes when all it refers to composes |
| `PackComposition.PathStep` | packages/policy/lean_langchain_policy/pack_loader.py:89-97 | depth bound and visiting set together check exactly that a path is short and repeats no file |
| `PackCache.Loader.constructor` | packages/policy/lean_langchain_policy/pack_loader.py:42 | the cache starts empty |
| `PackCache.Loader.Clear` | packages/policy/lean_langchain_policy/pack_loader.py:45-47 | clearing empties it |
| `PackCache.Loader.MergedDictForEntry` | packages/policy/lean_langchain_policy/pack_loader.py:126-140 | answers from the cache or afresh, and stores exactly successful answers under the entry's key |
| `PackCache.SameKeySamePack` | packages/policy/lean_langchain_policy/pack_loader.py:57-63 | entries that share a cache key load the same pack |
| `PackCache.CacheIsInvisible` | packages/policy/lean_langchain_policy/pack_loader.py:126-140 | after any loads and clears, a load answers what an uncached one would |
| `PackCache.FastPathAgrees` | packages/policy/lean_langchain_policy/pack_loader.py:130-138 | fast path and full merge agree on every key but the two reference keys, and the merge cannot fail where the fast path applies |
| `PackCache.LoadIsMerge` | packages/policy/lean_langchain_policy/pack_loader.py:130-138 | an uncached load fails exactly when the full merge does, with the same fault, and otherwise has the same pack fields |
| `PackCache.LoadIsKept` | packages/policy/lean_langchain_policy/pack_loader.py:57-140 | a success is kept under the resolved path, or the bare name, and answered from there; a fault is not kept |
| `PackCache.FastPathKeepsEmptyReference` | packages/policy/lean_langchain_policy/pack_loader.py:135-138 | they are equal exactly when the file spells out no empty reference |
| `PackCache.EmptyReferenceIsRefused` | packages/policy/lean_langchain_policy/models.py:28-52 | a single-file pack whose other keys are pack fields always has only pack fields once merged, but through the fast path exactly when it mentions neither reference |
| `PackCache.PackFieldTable` | packages/policy/lean_langchain_policy/models.py:28-52 | the twenty-one keys a merged mapping may have: the fourteen flags, the conflict policy and six more; neither reference |
| `Reviews.ReviewStore.Put` | apps/lean-gateway/lean_langchain_gateway/api/review_store.py:42-43 | the thread's record is replaced by an undecided one |
| `Reviews.ReviewStore.Get` | apps/lean-gateway/lean_langchain_gateway/api/review_store.py:45-46 | the record, if there is one |
| `Reviews.ReviewStore.GetPayload` | apps/lean-gateway/lean_langchain_gateway/api/review_store.py:48-55 | the stored payload, its status replaced by a recorded decision |
| `Reviews.ReviewStore.SetDecision` | apps/lean-gateway/lean_langchain_gateway/api/review_store.py:57-65 | records the decision of a known thread and only that |
| `Reviews.ReviewStore.Delete` | apps/lean-gateway/lean_langchain_gateway/api/review_store.py:67-71 | removes the record and says whether there was one |
| `Reviews.ReviewStore.CreatePendingReview` | apps/lean-gateway/lean_langchain_gateway/api/routes_reviews.py:58-68 | creates or replaces the thread's review |
| `Reviews.ReviewStore.DecideReview` | apps/lean-gateway/lean_langchain_gateway/api/routes_reviews.py:71-98 | records an approval or rejection, refused for an unknown thread |
| `Reviews.ReviewStore.ResumeReview` | apps/lean-gateway/lean_langchain_gateway/api/routes_reviews.py:101-122 | forwards the recorded decision; refused as not found or undecided |
| `ReviewHistory.ResumeForwardsLatestDecision` | apps/lean-gateway/lean_langchain_gateway/api/routes_reviews.py:58-122 | after any calls on any threads, a resume forwards exactly the latest decision since the thread's latest review, and is refused exactly when there is no review or no decision |
| `Runtime.RunProtocolChecks` | apps/orchestrator/lean_langchain_orchestrator/runtime/nodes/handlers.py:94-126 | the loop with its early return finds the first check, in order, that refuses the events, and passes on an exception |
| `Runtime.Next` | apps/orchestrator/lean_langchain_orchestrator/runtime/graph.py:159-196 | every edge of the graph leads nearer to its end |
| `RuntimeProperties.RunIsShort` | apps/orchestrator/lean_langchain_orchestrator/runtime/graph.py:77-109 | a run has at most nine nodes; each is traced on entry and exit, and only the last can end in an error |
| `RuntimeProperties.RunEnds` | apps/orchestrator/lean_langchain_orchestrator/runtime/graph.py:159-196 | a run no call aborts ends accepted, auditing, awaiting approval, repairing or rejected |
| `RuntimeProperties.WitnessIffAccepted` | apps/orchestrator/lean_langchain_orchestrator/runtime/nodes/handlers.py:216-275 | artifacts grow by one witness bundle exactly when the run ends accepted |
| `RuntimeProperties.PolicyAlwaysDecides` | apps/orchestrator/lean_langchain_orchestrator/runtime/routes.py:20-24 | policy review always leaves a decision, so the branch without one is never taken |
| `RuntimeProperties.UpstreamStep` | apps/orchestrator/lean_langchain_orchestrator/runtime/graph.py:164-178 | a run that passes takes the next node in order until policy review, with the same request |
| `RuntimeProperties.ReviewStep` | apps/orchestrator/lean_langchain_orchestrator/runtime/nodes/handlers.py:128-164 | at policy review it passes only on the engine's own decision on the evidence gathered, kept to the end |
| `RuntimeProperties.PassedWithDecision` | apps/orchestrator/lean_langchain_orchestrator/runtime/nodes/handlers.py:128-164 | a run that passes ends with the engine's decision on the evidence it ends with, and that decision says how it passed |
| `RuntimeProperties.PassedWithSession` | apps/orchestrator/lean_langchain_orchestrator/runtime/nodes/handlers.py:60-89 | with a session, both checks ran, their answers, the batch's trust and the session are in the final state, and the interactive one was ok without open goals |
| `RuntimeProperties.PassedWithoutSession` | apps/orchestrator/lean_langchain_orchestrator/runtime/nodes/handlers.py:60-75 | without one they are skipped, and earlier evidence stays as it was |
| `RuntimeProperties.PassedByProtocol` | apps/orchestrator/lean_langchain_orchestrator/runtime/nodes/handlers.py:94-131 | a run that passes had no protocol refusal |
| `RuntimeProperties.DeployedRefuses` | apps/orchestrator/lean_langchain_orchestrator/runtime/nodes/handlers.py:109-126 | the protocol checks refuse only with a rejection or a block |
| `RuntimeProperties.FreshRunChecked` | apps/orchestrator/lean_langchain_orchestrator/runtime/nodes/handlers.py:38-164 | a first run that passes had both checks in order, real evidence if strict, exactly when its session id is not empty |
| `RuntimeProperties.FirstRunOutcome` | apps/orchestrator/lean_langchain_orchestrator/runtime/nodes/handlers.py:38-214 | when no call raises, the checks answer well and nothing refuses the events, a first run ends accepted, awaiting approval or auditing as the engine decides on what was gathered |
| `RuntimeProperties.FirstRunAcceptedIff` | apps/orchestrator/lean_langchain_orchestrator/runtime/nodes/handlers.py:38-275 | with a real session, a first run is accepted exactly when all calls answer in order, nothing refuses the events, no reviewer gate is set and the engine's rules are clear of the evidence; `FirstRuns.FirstRunEnds` says this of the patch itself, and of every other ending |
| `FirstRuns.EvidenceFiles` | apps/orchestrator/lean_langchain_orchestrator/runtime/nodes/handlers.py:147-153 | the changed files policy review sees are exactly the keys of the patch |
| `FirstRuns.GatheredMeaning` | apps/orchestrator/lean_langchain_orchestrator/runtime/nodes/handlers.py:144-160 | its evidence is sound exactly when both checks were, and asks for a human exactly when the patch, the audit's trust and the policy pack do |
| `FirstRuns.FirstRunEnds` | apps/orchestrator/lean_langchain_orchestrator/runtime/graph.py:159-196 | where every first run with a real session ends, case by case, from the request, the answers and the policy pack: cut short, repairing, auditing, awaiting approval or accepted |
| `FirstRuns.MatchedRuleNeedsHuman` | apps/orchestrator/lean_langchain_orchestrator/runtime/nodes/handlers.py:144-164 | a patch with a key that a human-requiring path rule matches never ends accepted, whatever is answered; with checks in order and nothing refusing it awaits approval |
| `FirstRuns.MatchedGateNeedsHuman` | apps/orchestrator/lean_langchain_orchestrator/runtime/nodes/handlers.py:144-164 | so with a trust gate that matches at the trust the audit found, for real sessions |
| `FirstRunTraces.FirstRunPath` | apps/orchestrator/lean_langchain_orchestrator/runtime/graph.py:147-196 | which nodes such a run enters, in order: it turns off only to repair, from diagnostics before goals, and stops only where it is decided |
| `FirstRunTraces.RunReports` | apps/orchestrator/lean_langchain_orchestrator/runtime/graph.py:77-109 | the status each node reports on leaving: the checks a failure exactly without a session, protocol evaluation one exactly when it refuses |
| `FirstRunTraces.GatheredFields` | apps/orchestrator/lean_langchain_orchestrator/runtime/nodes/handlers.py:144-160 | the evidence field by field: both answers, the keys of the patch and the protected among them in order, imports in the new texts, no trust delta |
| `FirstRunTraces.FirstRunDecision` | apps/orchestrator/lean_langchain_orchestrator/runtime/nodes/handlers.py:94-164 | the decision left at the end is the protocol's refusal, else the missing approval of a reviewer gate, else the engine's on that evidence |
| `RunLaws.ReviewPackMeaning` | apps/orchestrator/lean_langchain_orchestrator/runtime/graph.py:127-141 | the policy pack that reviews is the request's, else the environment's, else the default by name; if it does not load, a strict one without rules or flags |
| `RunLaws.ProtocolRefusalIff` | apps/orchestrator/lean_langchain_orchestrator/runtime/nodes/handlers.py:94-126 | the checks let a run go on exactly when there are no events, the policy pack that counts does not load, or the events have the property of each of its seven flags; else the first check to object decides, or raises |
| `RunLaws.PassedInLine` | apps/orchestrator/lean_langchain_orchestrator/runtime/nodes/handlers.py:94-126 | so events of a run that is accepted or sent for review have the property of every flag set |
| `RunLaws.IsChecked` | apps/orchestrator/lean_langchain_orchestrator/runtime/nodes/handlers.py:109-117 | every class but the reviewer's gate is among the seven |
| `RunLaws.RequestIsKept` | apps/orchestrator/lean_langchain_orchestrator/runtime/graph.py:147-196 | no node changes the request |
| `RunLaws.RunBegins` | apps/orchestrator/lean_langchain_orchestrator/runtime/routes.py:33-40 | a run begins with the resume exactly when an approval is asked for and there |
| `RunLaws.TraceIsLinked` | apps/orchestrator/lean_langchain_orchestrator/runtime/graph.py:77-97 | each node is entered with the status the one before it reported or, if it reported none, had |
| `RuntimeProperties.RunReachesPolicy` | apps/orchestrator/lean_langchain_orchestrator/runtime/graph.py:164-178 | such a run reaches policy review with the answers of both checks |
| `RuntimeProperties.EmptySessionSkipsChecks` | apps/orchestrator/lean_langchain_orchestrator/runtime/nodes/handlers.py:60-75 | with an empty session id a run is accepted with no evidence at all |
| `FirstRuns.EmptySessionEnds` | apps/orchestrator/lean_langchain_orchestrator/runtime/nodes/handlers.py:60-164 | with an empty session id every first run ends as its events, the reviewer's gate and its patch alone decide: neither check can refuse it |
| `RuntimeProperties.GatedPatchNeverAccepted` | packages/policy/lean_langchain_policy/engine.py:198-226 | a run from the start whose patch names a protected path, or whose new text contains "import " under a pack that gates imports, never ends accepted, whatever the gateway answers and whatever other rules there are |
| `RuntimeProperties.UnloadablePackStillGates` | apps/orchestrator/lean_langchain_orchestrator/runtime/graph.py:127-141 | the request's pack goes before the environment's and the default; when the one that counts does not load, a patch whose new text contains "import " is still not accepted |
| `RuntimeProperties.UnloadablePackSkipsProtocol` | apps/orchestrator/lean_langchain_orchestrator/runtime/nodes/handlers.py:95-119 | protocol checks refuse events only under a pack that loads and enables one of them |
| `RuntimeProperties.PassedGate` | apps/orchestrator/lean_langchain_orchestrator/runtime/nodes/handlers.py:132-143 | under a reviewer-gated pack only a run that carries a human decision passes |
| `RuntimeProperties.ReviewerGatedNeverPasses` | apps/orchestrator/lean_langchain_orchestrator/runtime/nodes/handlers.py:132-143 | so a first run under such a pack is neither accepted nor sent for review |
| `RuntimeProperties.ProtocolViolationNeverPasses` | apps/orchestrator/lean_langchain_orchestrator/runtime/nodes/handlers.py:94-131 | events an enabled check refuses, or raises on, are neither accepted nor sent for review |
| `RuntimeProperties.ResumeFollowsDecision` | apps/orchestrator/lean_langchain_orchestrator/runtime/initial_state.py:61-98 | a resumed run always finishes as the human decided, with one witness exactly on approval |
| `FirstRunTraces.ResumePath` | apps/orchestrator/lean_langchain_orchestrator/runtime/routes.py:33-47 | a resume visits its own node, and the final one exactly on approval |
| `RuntimeProperties.AcceptedPath` | apps/orchestrator/lean_langchain_orchestrator/runtime/graph.py:159-196 | an accepted run with a session visits the nine nodes in order and reports their statuses |
| `Approvals.AcceptedIff` | apps/lean-gateway/lean_langchain_gateway/api/routes_reviews.py:58-122 | a thread stands accepted exactly when the latest event to settle it was an accepted start, or a resume while the latest decision on the latest posted review was an approval |
| `Approvals.ReviewMeans` | apps/lean-gateway/lean_langchain_gateway/api/review_store.py:42-65 | what is stored about a review is that of the latest posted one and the latest decision on it |
| `Approvals.ReviewIff` | apps/lean-gateway/lean_langchain_gateway/api/review_store.py:42-65 | and the other way round: the history determines what is stored |
| `Approvals.NotByStart` | apps/lean-gateway/lean_langchain_gateway/api/routes_reviews.py:108-122 | when the latest start was not accepted, acceptance is owed to an approval and a resume after that start, of its own review if it posted one |
| `Approvals.ApprovalIsReused` | apps/lean-gateway/lean_langchain_gateway/api/routes_reviews.py:108-122 | until a new review is posted, every further resume of an approved one accepts again |
| `Threads.StepView` | apps/orchestrator/lean_langchain_orchestrator/runtime/graph.py:159-196 | every start, decision and resume of any thread moves each thread as its abstract meaning says |
| `Threads.AfterView` | apps/orchestrator/lean_langchain_orchestrator/runtime/graph.py:159-196 | so whether a thread is accepted, and what its review says, follows from what the events mean to it alone |
| `RunLaws.StartEnds` | apps/orchestrator/lean_langchain_orchestrator/runtime/initial_state.py:10-58 | however its thread was left, a start with a real session ends as the first run of its own input: its events and pack name, or the checkpoint's where it gives none; that input is what the checkpoint then holds, and no other thread's changes |
| `RunLaws.StartPosts` | apps/orchestrator/lean_langchain_orchestrator/runtime/nodes/handlers.py:166-214 | it posts an undecided review of its thread exactly when it ends awaiting approval and the post arrives |
| `RunLaws.ResumeBlanks` | apps/orchestrator/lean_langchain_orchestrator/runtime/initial_state.py:61-98 | a forwarded resume keeps the thread's events and pack name and blanks all else; its witness names no obligation |
| `Threads.AcceptedExactlyWhen` | apps/lean-gateway/lean_langchain_gateway/api/routes_reviews.py:58-122 | over every interleaving, restarts included, a thread is accepted exactly when the latest event to settle it was an accepted start of it, or a resume of it on a standing approval of the latest review any of its starts posted |
| `Threads.AcceptedOnlyWhenChecked` | apps/orchestrator/lean_langchain_orchestrator/runtime/nodes/handlers.py:60-288 | with real sessions, the start an accepted thread owes that to had ok checks, and policy accepted it, or asked for the human who approved; the thread holds one witness |
| `Threads.InvariantHolds` | apps/lean-gateway/lean_langchain_gateway/api/routes_reviews.py:58-122 | after every prefix of such a history, restarts included, stored reviews, decisions and accepted checkpoints all trace back to what earned them |
| `Threads.ProtectedNeedsHuman` | packages/policy/lean_langchain_policy/engine.py:198-210 | an accepted thread whose latest start names a protected path was resumed after that start on a human's approval, of that start's own review if it posted one |
| `Threads.RestartReusesApproval` | apps/lean-gateway/lean_langchain_gateway/api/routes_reviews.py:108-122 | a restarted thread whose earlier approval is still stored is accepted on resume exactly when its new run, merged over its checkpoint, posts no review |
| `Threads.FailedRestartIsAccepted` | apps/lean-gateway/lean_langchain_gateway/api/routes_reviews.py:108-122 | from the empty system: review, approval, resume, any restart whose checks are not ok, resume; the thread ends accepted |
| `Threads.PolicyAcceptsOnlyAccepted` | apps/orchestrator/lean_langchain_orchestrator/runtime/routes.py:20-30 | a start whose policy decision is acceptance does end accepted |
| `Threads.CutShortNotAccepted` | apps/orchestrator/lean_langchain_orchestrator/runtime/graph.py:98-107 | a run from the start that a call aborts is not left accepted |
| `ProtectedFiles.GateSeesIff` | packages/policy/lean_langchain_policy/patch_metadata.py:18 | of a patch that is applied whole, the gate sees a write to a protected file exactly when some key that lands on one is literally a protected path |
| `ProtectedFiles.ProtectedWriteAcceptedIff` | apps/orchestrator/lean_langchain_orchestrator/runtime/nodes/handlers.py:144-164 | a first run that is otherwise in order is accepted exactly when no key that lands on a protected file is literally a protected path |
| `ProtectedFiles.PlainWritesAreSeen` | packages/policy/lean_langchain_policy/patch_metadata.py:18 | with keys and protected paths in plain spelling, a patch that writes a protected file names a protected path |
| `ProtectedFiles.PlainProtectedWriteNeverAccepted` | apps/orchestrator/lean_langchain_orchestrator/runtime/nodes/handlers.py:60-164 | a run from the start whose plainly spelled patch wrote a protected file never ends accepted |
| `ProtectedFiles.PlainProtectedWriteNeedsHuman` | apps/orchestrator/lean_langchain_orchestrator/runtime/nodes/handlers.py:60-214 | and a thread whose latest start made such a patch is accepted only through a resume after it, on a human's approval |
| `ProtectedFiles.WriteHasKey` | apps/lean-gateway/lean_langchain_gateway/api/routes_sessions.py:52-62 | a patch writes a protected file only under a key that resolves onto it |
| `ProtectedFiles.KeyIsWritten` | apps/lean-gateway/lean_langchain_gateway/api/routes_sessions.py:52-62 | a patch that is applied whole writes one under every such key |
| `ProtectedFiles.AliasIsAccepted` | apps/orchestrator/lean_langchain_orchestrator/runtime/nodes/handlers.py:60-70 | a patch of `./A` under the protected path `A` rewrites the protected file and is accepted outright |
| `ImportEdits.ImportGateIff` | apps/orchestrator/lean_langchain_orchestrator/runtime/nodes/handlers.py:144-164 | under a gating pack a first run that is otherwise in order is accepted exactly when no new text in its patch contains "import ", and waits for a human exactly when some does |
| `ImportEdits.MissedEditIff` | apps/orchestrator/lean_langchain_orchestrator/runtime/nodes/handlers.py:146-153 | of the patches that edit imports of the workspace and are applied whole, exactly those that leave "import " in none of the patched files are accepted; all others wait for a human |
| `ImportEdits.TextAfter` | apps/lean-gateway/lean_langchain_gateway/api/routes_sessions.py:52-62 | a patch that is applied whole leaves in each of its files the text it sent |
| `ImportEdits.DropIsAccepted` | apps/orchestrator/lean_langchain_orchestrator/runtime/nodes/handlers.py:148 | a patch that deletes a file's only import is written and accepted outright under a pack that gates import changes |
| `ImportEdits.TabIsUnseen` | packages/policy/lean_langchain_policy/patch_metadata.py:15 | an import followed by a tab does not contain the word that is looked for |
| `LspCache.Cache.constructor` | apps/lean-gateway/lean_langchain_gateway/server/lsp_client.py:105-121 | the cache starts as the empty list |
| `LspCache.Cache.EvictOldest` | apps/lean-gateway/lean_langchain_gateway/server/lsp_client.py:89-102 | drops the least recently used slot, stopping its process if it lives; does nothing when empty |
| `LspCache.Cache.GetOrCreateLsp` | apps/lean-gateway/lean_langchain_gateway/server/lsp_client.py:105-121 | hands out a live cached process and starts nothing, else what is started: a process exactly when the cache then holds it under the key, none when nothing was spawned or a refused one was reaped, and raises otherwise; other entries stay or leave as the recency list says |
| `LspCache.Cache.Create` | apps/lean-gateway/lean_langchain_gateway/server/lsp_client.py:116-121 | makes room, then starts; caches only a ready process, stops a refused one, keeps no trace of one whose handshake raised, and passes on what was raised |
| `LspCache.Cache.EvictAll` | apps/lean-gateway/lean_langchain_gateway/server/lsp_client.py:116-117 | the loop evicts the least recently used slots until there is room |
| `LspCache.Cache.TouchLsp` | apps/lean-gateway/lean_langchain_gateway/server/lsp_client.py:124-129 | moves a cached key to the most recent end |
| `LspCache.OldestIsFirst` | apps/lean-gateway/lean_langchain_gateway/server/lsp_client.py:92 | the least timestamp is the first slot's, and no other's |
| `LspCache.UseRefines` | apps/lean-gateway/lean_langchain_gateway/server/lsp_client.py:114 | a new timestamp is a move to the end of the list |
| `LspHistory.BoundedAndAccounted` | apps/lean-gateway/lean_langchain_gateway/server/lsp_client.py:55-121 | over any history at most eight processes are cached, and every started one is cached, told to stop, seen dead, or that of a get whose handshake raised |
| `LspHistory.AccountedIff` | apps/lean-gateway/lean_langchain_gateway/server/lsp_client.py:55-121 | no process is lost exactly when every one of those last is known in another way |
| `LspHistory.AccountedIffNoneRaised` | apps/lean-gateway/lean_langchain_gateway/server/lsp_client.py:55-121 | as starts spawn new processes, no process is lost exactly when no start raised in its handshake |
| `LspHistory.LeakedStaysUnknown` | apps/lean-gateway/lean_langchain_gateway/server/lsp_client.py:105-121 | a lost process is never cached, told to stop or seen dead later on |
| `LspHistory.FirstReplyUnreadable` | apps/lean-gateway/lean_langchain_gateway/server/lsp_client.py:52 | one get whose server's first reply cannot be read raises and loses the process |
| `LspHistory.StepKnown` | apps/lean-gateway/lean_langchain_gateway/server/lsp_client.py:89-129 | an operation changes what is known by exactly the process it starts, unless that one's handshake raised |
| `LspHistory.GetClears` | apps/lean-gateway/lean_langchain_gateway/server/lsp_client.py:89-121 | of the processes that leave the cache the live are told to stop and the dead noted; only those, and a refused one, are told to stop |
| `LspHistory.SlotsInOrderOfUse` | apps/lean-gateway/lean_langchain_gateway/server/lsp_client.py:105-129 | the slots stand in the order their keys were last got or touched |
| `LspHistory.VictimIsLeastRecentlyUsed` | apps/lean-gateway/lean_langchain_gateway/server/lsp_client.py:89-121 | another key leaves the cache only when it was full, and that key was the least recently used of all |
| `PathSafety.ResolveUnderRoot` | apps/lean-gateway/lean_langchain_gateway/api/path_safety.py:8-19 | a resolved path extends the root; when a path is refused is in `PathMeaning.ResolvesIff` |
| `PathSafety.ResolvedIsInside` | apps/lean-gateway/lean_langchain_gateway/api/path_safety.py:13-19 | and has no dots or empty components left, whatever the string was |
| `PathSafety.RelativePathResolves` | apps/lean-gateway/lean_langchain_gateway/api/path_safety.py:13-19 | a relative path that never climbs above its start is admitted and names the same file under every root |
| `PathSafety.PlainPathResolves` | apps/lean-gateway/lean_langchain_gateway/api/path_safety.py:13-19 | every path under the root is reached by its plain name |
| `PathSafety.PlainSpellingsAgree` | apps/lean-gateway/lean_langchain_gateway/api/path_safety.py:13-19 | two plain spellings that resolve to one file are the same string |
| `PathMeaning.ResolvesIff` | apps/lean-gateway/lean_langchain_gateway/api/path_safety.py:8-19 | an absolute path is admitted exactly when walking it from the top ends under the root, a relative one when walking it from the root does; it is then the path it ends at, and is refused by its name otherwise |
| `PathMeaning.AbsolutePathResolves` | apps/lean-gateway/lean_langchain_gateway/api/path_safety.py:13-19 | an absolute path in plain spelling is admitted exactly when it names something under the root |
| `PathMeaning.ClimbResolves` | apps/lean-gateway/lean_langchain_gateway/api/path_safety.py:13-19 | climbing out of the root is refused, unless the path climbs back in |
| `PathMeaning.WalkOn` | apps/lean-gateway/lean_langchain_gateway/api/path_safety.py:13 | one component more: empty ones and dots stay, two dots go up and stay at the top, all else goes down |
| `PathMeaning.SplitFirst` | apps/lean-gateway/lean_langchain_gateway/api/path_safety.py:13 | a string is cut at its first separator, and so on |
| `PathMeaning.SplitWhole` | apps/lean-gateway/lean_langchain_gateway/api/path_safety.py:13 | and not at all without one |
| `Workspaces.Gateway.OpenEnvironment` | apps/lean-gateway/lean_langchain_gateway/environment/snapshot_store.py:49-64 | copies the source once; an existing snapshot is left as it is |
| `Workspaces.Gateway.CreateOverlay` | apps/lean-gateway/lean_langchain_gateway/environment/overlay_fs.py:44-68 | a workspace is a copy of the base, with its metadata beside it |
| `Workspaces.Gateway.CreateSession` | apps/lean-gateway/lean_langchain_gateway/api/routes_environment.py:46-67 | refused unless the id leads, directory by directory, to a base directory; otherwise makes the overlay and registers the lease |
| `Workspaces.FollowsIsWalk` | apps/lean-gateway/lean_langchain_gateway/api/routes_environment.py:48-50 | where an id leads on the disk is where it resolves lexically |
| `Workspaces.Gateway.ApplyPatch` | apps/lean-gateway/lean_langchain_gateway/api/routes_sessions.py:43-63 | writes the files in order up to the first fault, which keeps what was written; answers the sorted names, or the fault |
| `WorkspaceLaws.EscapeStops` | apps/lean-gateway/lean_langchain_gateway/api/routes_sessions.py:52-59 | a patch never gets past a key that walks out of the workspace; unless it stopped before, it is refused for that key with what was written until then |
| `WorkspaceLaws.AbsoluteEscapes` | apps/lean-gateway/lean_langchain_gateway/api/path_safety.py:13-19 | every absolute path to something outside is such a key |
| `WorkspaceLaws.AnswerLists` | apps/lean-gateway/lean_langchain_gateway/api/routes_sessions.py:62-63 | the answer lists each key of the patch once, in order |
| `WorkspaceLaws.WriteMeaning` | apps/lean-gateway/lean_langchain_gateway/api/routes_sessions.py:60-61 | a write puts the file, makes the missing directories above it, and changes nothing else |
| `WorkspaceLaws.CanWriteIff` | apps/lean-gateway/lean_langchain_gateway/api/routes_sessions.py:60-61 | on a tree, a file can be written exactly where that replaces no directory and leaves a tree |
| `WorkspaceHistory.PatchWritesPrefix` | apps/lean-gateway/lean_langchain_gateway/api/routes_sessions.py:52-62 | what a patch wrote is a prefix of its files, each where its path resolves; it is short exactly when the next path escapes or cannot be written |
| `WorkspaceHistory.PatchFrame` | apps/lean-gateway/lean_langchain_gateway/api/routes_sessions.py:52-62 | a patch overlays its workspace with its writes and touches nothing apart from it |
| `WorkspaceHistory.LastWriteWins` | apps/lean-gateway/lean_langchain_gateway/api/routes_sessions.py:60-61 | a file of an overlay holds what was written to it last |
| `WorkspaceHistory.PatchedText` | apps/lean-gateway/lean_langchain_gateway/api/routes_sessions.py:52-62 | after a patch that is applied whole, a file holds the text of the last key that resolves onto it |
| `WorkspaceHistory.UnwrittenIsBase` | apps/lean-gateway/lean_langchain_gateway/api/routes_sessions.py:60-61 | anything else is as in the base, but for directories made on the way to a written file |
| `WorkspaceHistory.PlacesPart` | apps/lean-gateway/lean_langchain_gateway/environment/overlay_fs.py:45-48 | no snapshot, workspace or metadata file lies inside another's place |
| `WorkspaceHistory.OpenIsolated` | apps/lean-gateway/lean_langchain_gateway/environment/snapshot_store.py:49-64 | opening an environment keeps all snapshots and workspaces |
| `WorkspaceHistory.SessionIsolated` | apps/lean-gateway/lean_langchain_gateway/api/routes_environment.py:46-67 | so does creating a session, whatever string names its base |
| `WorkspaceHistory.PatchIsolated` | apps/lean-gateway/lean_langchain_gateway/api/routes_sessions.py:43-63 | so does a patch, for all but its own workspace, which gets its writes |
| `WorkspaceHistory.SessionStartsFromSnapshot` | apps/lean-gateway/lean_langchain_gateway/environment/overlay_fs.py:50 | a session for a known snapshot starts from that snapshot's tree |
| `WorkspaceHistory.AlwaysIsolated` | apps/lean-gateway/lean_langchain_gateway/api/routes_sessions.py:42-63 | over any history each workspace is its base copy under its own session's writes in order, and every snapshot is as first found |
| `WorkspaceHistory.FreshGatewayIsolated` | apps/lean-gateway/lean_langchain_gateway/environment/snapshot_store.py:44-47 | this holds from a gateway's start on a disk with any earlier snapshots |
| `WorkspaceHistory.NothingElseChanges` | apps/lean-gateway/lean_langchain_gateway/api/routes_sessions.py:42-63 | from any moment on, a snapshot never changes, and a workspace only by its own session's patches |
| `WorkspaceLaws.AlwaysShaped` | apps/lean-gateway/lean_langchain_gateway/api/routes_sessions.py:42-63 | over any history the disk stays a tree, with no file where the gateway needs a directory |
| `WorkspaceLaws.SnapshotLaid` | apps/lean-gateway/lean_langchain_gateway/environment/snapshot_store.py:49-64 | opening an environment that is not there puts its source and its metadata file in place; one that is there is left alone |
| `WorkspaceLaws.SessionCheckIff` | apps/lean-gateway/lean_langchain_gateway/api/routes_environment.py:46-67 | whatever string names its base, a session is refused exactly when that cannot be followed, directory by directory, to something that is there, when that is a file, or when the new workspace would lie inside it |
| `WorkspaceLaws.SessionGranted` | apps/lean-gateway/lean_langchain_gateway/api/routes_environment.py:46-67 | a session for a snapshot that is there, named by its plain id, is granted |
| `WorkspaceLaws.OpenedIsGranted` | apps/lean-gateway/lean_langchain_gateway/api/routes_environment.py:24-67 | after an environment is opened, and anything else has happened, a new session for it is granted, starts from what was opened, and holds the lease of its own workspace |
| `PoolRunner.PoolIsLimited` | apps/lean-gateway/lean_langchain_gateway/server/runner.py:310-327 | in every interleaving, raising runs included, at most the limit are in flight, and all permits are back when all calls have ended |
| `PoolRunner.LimitIsGiven` | apps/lean-gateway/lean_langchain_gateway/server/runner.py:330-342 | a number of at least one is the limit: that many can be in flight, and never more; anything else leaves the runner unwrapped |
| `PoolRunner.PermitsConserved` | apps/lean-gateway/lean_langchain_gateway/server/runner.py:323-327 | free permits plus permits held stay constant |
| `PoolRunner.NeverStuck` | apps/lean-gateway/lean_langchain_gateway/server/runner.py:330-342 | a runner is wrapped only with a positive limit, so while a call is open some step is possible |
| `PoolRunner.CallsEnd` | apps/lean-gateway/lean_langchain_gateway/server/runner.py:317-327 | without new calls, all open ones have ended after exactly the steps they still had to take |
| `PoolRunner.OutcomeIsInner` | apps/lean-gateway/lean_langchain_gateway/server/runner.py:324-327 | a call returns or raises exactly what its own inner run did |
| `AxiomOutput.ParseAxiomStdout` | apps/lean-gateway/lean_langchain_gateway/batch/axiom_audit.py:120-129 | the loop gives one dependency for each stripped line with a colon, in order |
| `AxiomMeaning.ParsedLineByLine` | apps/lean-gateway/lean_langchain_gateway/batch/axiom_audit.py:123 | an output is parsed line by line, at each of the line endings `splitlines` knows; a carriage return takes a newline with it |
| `AxiomMeaning.ParsedRecord` | apps/lean-gateway/lean_langchain_gateway/batch/axiom_audit.py:124-128 | a line says what comes before its first colon depends on what comes after, further colons included |
| `AxiomMeaning.ParsedNoise` | apps/lean-gateway/lean_langchain_gateway/batch/axiom_audit.py:125 | a line without a colon says nothing |
| `AxiomMeaning.FirstAxiom` | apps/lean-gateway/lean_langchain_gateway/batch/axiom_audit.py:127 | an axiom list is cut at its first comma, and so on |
| `AxiomMeaning.LastAxiom` | apps/lean-gateway/lean_langchain_gateway/batch/axiom_audit.py:127 | without a comma it is one stripped axiom, or none if all is whitespace |
| `AxiomMeaning.AxiomsAreClean` | apps/lean-gateway/lean_langchain_gateway/batch/axiom_audit.py:127 | whatever was printed, an axiom is never empty, never has whitespace at its ends and has no comma |
| `AxiomMeaning.WhitespaceTable` | apps/lean-gateway/lean_langchain_gateway/batch/axiom_audit.py:123 | which characters are whitespace, and which of them end a line |
| `AxiomOutput.StripMeaning` | apps/lean-gateway/lean_langchain_gateway/batch/axiom_audit.py:123-128 | stripping takes off all whitespace at both ends and nothing else |
| `AxiomOutput.RoundTrip` | apps/lean-gateway/lean_langchain_gateway/batch/axiom_audit.py:120-129 | output in the documented format parses to exactly its declarations and axioms, with colon-free lines anywhere |
| `AxiomOutput.ParseTextStrip` | apps/lean-gateway/lean_langchain_gateway/batch/axiom_audit.py:123 | stripping the whole output first loses nothing |
| `AxiomOutput.ParseRawStrip` | apps/lean-gateway/lean_langchain_gateway/batch/axiom_audit.py:124-127 | stripping a line first loses nothing |
| `AxiomOutput.AxiomsOfJoin` | apps/lean-gateway/lean_langchain_gateway/batch/axiom_audit.py:127 | a printed axiom list is read back whole |

## Left out

- HTTP, the SDKs, webhooks, the command line (its resume with a decision given directly included), demos, the review interface, Postgres and Redis stores, containers, telemetry contents.
- LangGraph: a node's update is merged into the state and the edge followed; a resume's input is merged over the checkpoint.
- Extra `overrides` of initial and resume states, and a caller's own `session_id` in the initial state, which the first node replaces.
- `fnmatch` is an arbitrary predicate; JSON, YAML and pydantic validation and SHA-256 (`diff_hash`) are not modelled; YAML values are compared as given, so `True == 1` is not.
- What a witness bundle or a review payload records beside the fields used; after a resume the bundle carries defaults, so a witness is proved to exist, not to carry the first run's evidence.
- The environment fingerprint, timestamps and timings in traces.
- `PackLoader.MergePackLayers`: which key a conflict message names is not modelled; of validating the merged mapping as a pack, only the ban on extra keys is, not the types of its fields.
- `PackCache.CacheIsInvisible`: files do not change between loads, and a resolved location is absolute, so it contains a slash.
- `LspCache.Cache.GetOrCreateLsp`: which exception a start raises is not modelled; the clock is strictly increasing; with equal timestamps the code may pick another victim. Exceptions while stopping a process are taken as having told it to stop.
- Invocations and requests that overlap in time: each event of a history takes effect before the next.
- `PathSafety.ResolveUnderRoot`: resolution is lexical, so symbolic links are not followed, and NUL characters are not treated.
- `WorkspaceHistory.AlwaysIsolated`: the source of a new snapshot is a directory and a new session id names nothing yet; permission bits, copies that fail half-way, writes that fail for another reason than the tree in the way (a name too long, text that cannot be encoded, a full disk) and what metadata files say are not modelled.
- `PoolRunner.PoolIsLimited`: callers are steps of one transition system rather than threads over a semaphore object; a caller calls once, so a second call is another caller.
- Message framing of the language server and the tool server, the worker pool, the coordination queue, capability snapshots, the session store of the tool server, the operation catalog and the golden fixtures would add only easy members.
