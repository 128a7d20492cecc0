# Understudy: a verified model

Understudy answers an incident by planning remediations, trying them on twin environments, proving the winner safe and
only then touching production. This project models the pieces of it that carry real logic and proves what they promise,
each for all inputs, all runs or all interleavings. `dafny verify dfyconfig.toml` checks everything.

| file | what it models |
|---|---|
| `Kernel.dfy`, `Facts.dfy`, `Invariants.dfy` | the safety kernel: fact lookup, memoised solver constants, the refutation loop. Formulas are syntax trees with an evaluation, the solver is a stack of frames over an oracle that may answer unknown |
| `Plans.dfy`, `Inverse.dfy` | remediation plans and the synthesis of their inverses |
| `Actuator.dfy` | applying and reverting plans on Deployments and ConfigMaps, with image references |
| `Validate.dfy` | normalising candidate plans |
| `DataService.dfy` | the grouped join against the N+1 loop, as relational operators |
| `Paths.dfy`, `Graph.dfy`, `Manifest.dfy`, `Chains.dfy` | the dependency graph: closures, cycle check, call chains |
| `Mirror.dfy`, `Fidelity.dfy` | the mirror gateway's queues and workers, and the fidelity verdict |
| `Faults.dfy` | the fault manager's lock, watchers and pool connections |
| `Orchestrator.dfy`, `Reducers.dfy` | the routed control loop and the state reducers |
| `Naming.dfy`, `Fleet.dfy` | names of twins and their garbage collection |
| `FactCodec.dfy` | facts written to JSON and read back |
| `Identifiers.dfy`, `Checkpoints.dfy` | ULIDs and checkpoint versions; incremental checkpoints over a keyed store |
| `Loadgen.dfy` | percentiles and the load summary |
| `Text.dfy` | strings: code-point order, sorted lists, decimal numerals, trimming |

Concurrent code (mirror workers, fault tasks) is a state machine with one step for each stretch between awaits; the
classes beside it have the source's fields and one method for each such stretch, proved equal to the step. Clocks,
solver answers, API replies, image registries, timestamp printing and set iteration order are parameters. An exception
is a result value.

Where the code and its own words differ, the model follows the code:

- `format_chains` says no path can be a subsequence of another. Contiguously none is; otherwise one is exactly when some
  service calls another both directly and through a further callee.
- The inverse module says the inverse of an inverse is the original plan. Scale and restart plans come back; flag plans
  exactly when they re-enable or do not force "true" by their configuration value, configuration plans exactly when the
  prior value is the plan's, rollbacks exactly under a condition on the given commit or the deploy list.
- An empty current commit makes an inverse that the handler refuses.
- The orchestrator's terminal nodes are called guaranteed. Teardown is visited exactly when no node before it left an
  error, and the same holds of recording.
- `reduce_started_at` says it keeps the earliest timestamp. It keeps the first one given, which is the earliest exactly
  when no later one is earlier.
- A PASS says all invariants were verified safe. It found every one true exactly when none raised a MissingFact without a
  name, which leaves its result undecided.
- The graph, the planner and the fact extractor each compute the dependents of a service. The first two agree exactly when
  no undeclared service calls it or a dependent the graph sees, and all three exactly then.
- `init_db` inserts items with explicit ids and does not advance the sequence, so a post fails exactly when a seeded row
  has the id it draws.
- A fault whose allocation fails, whose connection count cannot be worked out, or whose pool raises anything but a
  time-out stays active without a watcher; nothing else leaves one so, short of a cancellation of the request from
  outside.
- Garbage collection recognises an active incident's database exactly when the incident's normal form has no capitals and
  56 characters at most. One it recognises is dropped exactly when a reaped incident has the same normal form or one that
  this extends after an underscore.

## Model

| member | source | states |
|---|---|---|
| SafetyKernel.Verify | src/understudy/kernel/verify.py:62-247 | For every fact list, invariant list, clock and sound solver, with formulas over constants the context handed out: PASS exactly when no time-out struck, no answer was unknown, no named fact was missing and every formula built is true under the facts; VETO exactly when some formula is false, and explained, with nothing undecided or missing before it, and then it is the last result; results are named after the invariants in turn, state the truth of their formulas and reach to where the loop stops; an exception exactly when the loop reaches in time an invariant whose build raises, or whose formula is false and cannot be explained |
| KernelInvariants.JudgePlan | src/understudy/kernel/verify.py:62-247 | With K3, K7 and K8 for invariants and a solver that decides, the verdict is PASS exactly when the facts meet all three; complete evidence that falls short is a VETO, evidence without an age is UNCERTAIN and names the age |
| KernelInvariants.WhenK3Passes | src/understudy/kernel/invariants/k03_migration_boundary.py:53-89 | K3 passes exactly when the plan is no rollback, or the facts date the target no earlier than the last migration and say it contains none |
| KernelInvariants.WhenK7Passes | src/understudy/kernel/invariants/k07_mutation_budget.py:41-63 | K7 passes exactly when the plan is NO_ACTION, or the facts give a mutation count that is below the budget they give |
| KernelInvariants.WhenK8Passes | src/understudy/kernel/invariants/k08_evidence_sufficiency.py:69-92 | K8 passes exactly when the facts give an evidence age of 300 seconds at most, 60 samples at least and a drop ratio of 0.05 at most |
| SafetyKernel.FactModelHasTheFacts | src/understudy/kernel/dsl.py:116-214 | A constant stands for what the facts say of its name: the integer, truth value, number or text itself, an integer widened to a number, a timestamp or timestamp text in seconds |
| SafetyKernel.WhatAnAccessorAnswers | src/understudy/kernel/dsl.py:118-165 | A constant is handed out exactly when the facts say a value of the accessor's type, booleans being no integers, and is lacking exactly when they say none |
| SafetyKernel.WhatOtherAccessesLack | src/understudy/kernel/dsl.py:95-114 | A raw reading lacks its name, and a demand its names, exactly where the facts say nothing of them |
| SafetyKernel.WhatAStepDoes | src/understudy/kernel/verify.py:125-142 | A step that is met or whose miss is caught goes on; any other miss ends the build naming what was missing, and any other failure raises |
| FactBase.LookupIsWhatFactsSay | src/understudy/kernel/dsl.py:95-111 | A lookup finds exactly what the facts say of a name: the fact so named, or for base[key] of word characters the entry of the base's table when there is no such fact |
| SafetyKernel.Run | src/understudy/kernel/verify.py:103-247 | The loop with its early VETO and UNCERTAIN exits meets that specification |
| SafetyKernel.Examine | src/understudy/kernel/verify.py:126-190 | Building and refuting one invariant yields the direct evaluation of its formula, undetermined on an unknown answer, undecided on a missing fact or an exception, and leaves the solver's frames as they were when the loop goes on |
| SafetyKernel.Decide | src/understudy/kernel/verify.py:144-190 | The query is about the facts asserted so far and this one negated formula, whatever earlier invariants pushed, and its answer is the truth under the facts; a false formula whose explanation raises ends in an exception |
| SafetyKernel.Solver.Ask | src/understudy/kernel/verify.py:144-149 | Pushing a frame, adding the assertions and one formula and checking asks about everything in the frames below, the assertions and that formula |
| SafetyKernel.Turn | src/understudy/kernel/verify.py:103-218 | One turn of the loop keeps results, missing names and context in step, and every early return is a correct verdict |
| SafetyKernel.QueryDecidesFormula | src/understudy/kernel/verify.py:146-154 | Negation satisfiable together with the asserted facts if and only if the formula is false under the facts |
| SafetyKernel.SomeOracleDecides | src/understudy/kernel/verify.py:146-154 | A solver that decides every query is within what is assumed |
| SafetyKernel.Coincidence | src/understudy/kernel/dsl.py:170-214 | A formula depends only on the constants it names, each at its sort |
| SafetyKernel.Session.AssertionsAreSatisfiable | src/understudy/kernel/dsl.py:170-214 | The assertions pushed before any query always have a model, so no unsat answer is vacuous |
| SafetyKernel.Session.AnswerIsEvaluation | src/understudy/kernel/verify.py:146-190 | Unsat means true under the facts and sat means false under the facts, whatever was memoised by earlier invariants and at whatever sort |
| SafetyKernel.AccessKeepsCoherence | src/understudy/kernel/dsl.py:170-214 | An access keeps every registered constant fixed to its fact's value at the sort of its first read, and the asserted facts satisfiable |
| SafetyKernel.Session.EarlierInvariantsDoNotMatter | src/understudy/kernel/dsl.py:170-214 | When each name is read at one sort, an invariant means after any others what it means on its own |
| SafetyKernel.VetoRefutesTheLast | src/understudy/kernel/verify.py:160-190 | A veto has every earlier formula true and the last one refuted |
| SafetyKernel.NamelessMissingFactPasses | src/understudy/kernel/verify.py:126-142 | A MissingFact raised with an empty name list leaves a result undecided and the verdict PASS |
| SafetyKernel.WhenAPassDecidesAll | src/understudy/kernel/verify.py:126-142 | A PASS found every invariant true exactly when none of them raised a MissingFact with an empty name list |
| SafetyKernel.KernelContext.GetFact | src/understudy/kernel/dsl.py:95-114 | Plain lookup first, then `base[key]` into a mapping; every miss is recorded before it is raised |
| SafetyKernel.KernelContext.Constant | src/understudy/kernel/dsl.py:170-214 | The fact is read at the accessor's type every time; a constant is created and asserted once per name, at the sort of the first read, and handed out again as it is |
| SafetyKernel.KernelContext.RequireFacts | src/understudy/kernel/dsl.py:240-258 | Checks the listed names, records and raises the absent ones |
| SafetyKernel.KernelContext.Build | src/understudy/kernel/verify.py:125-127 | A whole build has the effect and the outcome of its accesses in turn, whether or not it catches a missing fact |
| SafetyKernel.KernelContext.Explain | src/understudy/kernel/explain.py:630-646 | Explaining a veto raises exactly when a fact it reads is missing or it fails otherwise, and else changes nothing |
| FactBase.LastFactWins | src/understudy/kernel/dsl.py:46-51 | The context knows exactly the listed fact names, each with the value listed last |
| Inverse.InverseKeepsTargets | src/understudy/planner/inverse.py:71-105 | K9: only NO_ACTION lacks an inverse, and an inverse has the same targets, blast set, action and workload |
| Inverse.WhatAnInverseIs | src/understudy/planner/inverse.py:71-105 | There is an inverse exactly for a known workload and something that takes the plan back, and then it does: the delta that cancels, the same flag with the other rationale, the prior value given or looked up, the prior commit given, at the head or first suitable |
| Inverse.InvertingTwice | src/understudy/planner/inverse.py:202-270 | Inverting twice gives back the workload and targets, the delta of a scale plan, and the flag and the direction of a flag plan's rationale; what the plan then writes is the subject of Actuator.WhenAPlanComesBack |
| Inverse.OlderDeployIsTheFirst | src/understudy/planner/inverse.py:187-199 | Rolling forward from the head goes to the first older deploy that is neither head nor target and has an image for the workload, and to none exactly when there is no such deploy |
| Inverse.InvertingRollbackTwice | src/understudy/planner/inverse.py:161-199 | For rollback plans the second inverse gives the original target back exactly when a condition on the given commit or the deploy list holds |
| Inverse.GivenCommitComesBack | src/understudy/planner/inverse.py:161-175 | With a commit given, exactly when that commit is the target itself |
| Inverse.InvertingRollbackTwiceGoesElsewhere | src/understudy/planner/inverse.py:161-199 | With deploys h, m, t a rollback to t is undone by one to h, and that by one to m |
| Inverse.InvertingConfigTwiceForgetsTheValue | src/understudy/planner/inverse.py:273-324 | For configuration plans the second inverse gives the original value back exactly when the prior value equals it |
| Inverse.RollForwardLeavesTheTarget | src/understudy/planner/inverse.py:161-199 | Without an explicit commit a rollback is undone by going to a recorded deploy that is not the target |
| Actuator.ResolutionIsStable | src/understudy/actuator/apply.py:215-272 | Resolving a commit again from the image it resolved to gives the same image |
| Actuator.ResolutionSeesTheRepository | src/understudy/actuator/apply.py:77-86 | The running image matters to resolution only through its repository |
| Actuator.BaseOfDigest | src/understudy/actuator/apply.py:77-86 | Taking the repository off what a digest was put behind gives the repository back |
| Actuator.BaseOfTag | src/understudy/actuator/apply.py:77-86 | The same for a tag, registry ports included |
| Actuator.ApplyingTwice | src/understudy/actuator/apply.py:132-176 | For every plan and cluster a second application at any later time changes nothing, and a refused plan stays refused |
| Actuator.TouchesOnlyItsTarget | src/understudy/actuator/apply.py:274-757 | A plan patches at most one existing resource, the one its parameters name |
| Actuator.WhatAScaleWrites | src/understudy/actuator/apply.py:468-558 | A scale plan not applied before succeeds exactly for an existing workload with a delta that leaves no negative count, and then after less before is the delta, one being counted where no count is given |
| Actuator.WhatARestartWrites | src/understudy/actuator/apply.py:387-466 | A restart not applied before stamps the pods with the time and the plan, and succeeds exactly for an existing workload |
| Actuator.WhatAMarkStops | src/understudy/actuator/apply.py:387-558 | A scale or restart that finds its own mark changes nothing |
| Actuator.WhatARollbackWrites | src/understudy/actuator/apply.py:274-385 | A rollback succeeds exactly when its commit names an image for a container, and then the container named like the workload, else the first, runs that image, told its variant, and nothing else changes |
| Actuator.WhatACommitNames | src/understudy/actuator/apply.py:215-272 | A digest, a bare hash, a reference and a recorded commit each name the image the rules say, the first matching deploy and the first matching tag deciding, and nothing else names one |
| Actuator.BaseIsRepository | src/understudy/actuator/apply.py:78-88 | The repository is what stands before a digest, else before a tag without slash, else the whole |
| Actuator.WhatAFlagPlanWrites | src/understudy/actuator/apply.py:576-652 | A flag plan leaves its value at the flag in the ConfigMap named first among the targets, else called like the workload, else the default, and no other data changed; it succeeds exactly when that ConfigMap exists and a flag is named |
| Actuator.WhatAConfigPlanWrites | src/understudy/actuator/apply.py:654-729 | The same for a configuration plan, its key and its value |
| Actuator.WhatNoActionWrites | src/understudy/actuator/apply.py:731-745 | NO_ACTION succeeds and changes nothing |
| Actuator.RollbackMoves | src/understudy/actuator/apply.py:274-385 | A rollback replaces one container of the list, the one the workload names, and nothing else of the pod |
| Actuator.InverseRestores | src/understudy/actuator/apply.py:178-213 | After an applied plan its synthesised inverse can be applied and restores replicas, containers and configuration data of the whole namespace, if and only if the stated condition on the cluster before the plan holds |
| Actuator.EmptyCommitIsNeverUndone | src/understudy/planner/inverse.py:171-175 | An empty current commit is taken for a commit by the synthesis and refused by the handler, so nothing is undone |
| Actuator.RunningCommitRollsBack | src/understudy/actuator/apply.py:215-272 | When the inverse commit resolves to the running image and the data-service variant matches it, a rollback meets that condition exactly when the commit is not empty |
| Actuator.FlagInverseFlips | src/understudy/actuator/apply.py:576-652 | A flag plan and its inverse write opposite values unless the plan forces "true" |
| Actuator.WhenAFlagPlanComesBack | src/understudy/actuator/apply.py:590-597 | The inverse of a flag plan's inverse writes the plan's value exactly when the plan re-enables or does not force "true" by its configuration value |
| Actuator.WhenAPlanComesBack | src/understudy/actuator/apply.py:576-652 | The inverse of the inverse of a scale, restart or flag plan has the plan's effect on every cluster, ids apart, exactly when it is no flag plan that forces "true" without re-enabling |
| Actuator.WhenAConfigPlanComesBack | src/understudy/planner/inverse.py:273-324 | The inverse of the inverse of a configuration plan has the plan's effect on every cluster exactly when the prior value is the plan's |
| Actuator.ForcedFlagDoesNotComeBack | src/understudy/actuator/apply.py:590-597 | A flag plan that forces "true" and its inverse write "true", the inverse of that "false" |
| Actuator.UndoneKey | src/understudy/actuator/apply.py:576-729 | Writing a key and writing it again restores the map exactly when the last value is the first one |
| Actuator.K8sPlanApplier.Apply | src/understudy/actuator/apply.py:132-176 | The dispatching handler has exactly the effect of the plan, and fails exactly when there is none |
| Actuator.K8sPlanApplier.Revert | src/understudy/actuator/apply.py:178-213 | Applies the declared inverse; a plan without one, or NO_ACTION, is refused and changes nothing |
| Actuator.K8sPlanApplier.ApplyRollbackDeploy | src/understudy/actuator/apply.py:274-385 | Reads the Deployment, picks the container, resolves the image and patches both it and the variant |
| Actuator.K8sPlanApplier.ApplyRestartWorkload | src/understudy/actuator/apply.py:387-466 | Stamps the pod template once per plan |
| Actuator.K8sPlanApplier.ApplyScaleWorkload | src/understudy/actuator/apply.py:468-558 | Adds the delta once per plan within the allowed range |
| Actuator.K8sPlanApplier.ApplyDisableFlag | src/understudy/actuator/apply.py:576-652 | Writes the flag value into the resolved ConfigMap |
| Actuator.K8sPlanApplier.ApplyRevertConfig | src/understudy/actuator/apply.py:654-729 | Writes the configuration value into the resolved ConfigMap |
| DataService.VariantsAgree | services/data_service/app.py:117-168 | The LEFT JOIN / GROUP BY / json_agg query and the N+1 loop list the same items in the same order with the same multiset of details, empty lists for items without any |
| DataService.GroupedIsListing | services/data_service/app.py:146-168 | Any grouped answer to the join, in whatever order the joined rows come, is the listing of the tables |
| DataService.WhatDetailsAre | services/data_service/app.py:111-170 | An item's details are the rows that refer to it, key and value, each as often as it is listed |
| DataService.WhatIsStored | services/data_service/app.py:172-207 | Each entry of a payload is stored in its place, a missing key or value as an empty text |
| DataService.ListingsAgree | services/data_service/app.py:117-168 | A listing is determined by the tables up to the order of each item's details |
| DataService.AggregateOfJoin | services/data_service/app.py:146-168 | Joining and gathering again gives each item its own details and adds nothing to others |
| DataService.JoinKeepsItems | services/data_service/app.py:146-168 | The left join loses no item and invents none |
| DataService.GetItemsRegression | services/data_service/app.py:117-139 | One query for the items and one more for each yields the listing |
| DataService.GetItemsGood | services/data_service/app.py:146-168 | The loop over the grouped rows yields the listing |
| DataService.Catalogue.CreateItem | services/data_service/app.py:171-207 | Succeeds exactly when the id drawn from the sequence is free; then the item has exactly the payload's details and no other item's change, otherwise both tables stay |
| DataService.WhenPostsSucceed | services/data_service/app.py:171-207 | In a run of posts each succeeds exactly when no row seeded before the run has the id it draws |
| DataService.SeededCatalogueRefusesItsFirstPosts | services/data_service/app.py:71-85 | Seeded with ids 1 to k and the sequence at 1, exactly the first k posts fail |
| DataService.FirstPostOnTheSeedFails | services/data_service/app.py:26-41 | With the two seeded items the first two posts fail and the third succeeds |
| ServiceGraph.CallerClosure | src/understudy/graph/service_graph.py:152-164 | On any graph, cycles included, the worklist loop ends and returns exactly the transitive callers |
| ServiceGraph.ServiceDependencyGraph.ReachableSet | src/understudy/graph/service_graph.py:152-164 | The same for the graph object, with the error on an undeclared service |
| ServiceGraph.ServiceDependencyGraph.constructor | src/understudy/graph/service_graph.py:36-60 | Nodes are sorted and both adjacency tables hold exactly the edges between declared services |
| ServiceGraph.ServiceDependencyGraph.BlastSetValidity | src/understudy/planner/validate.py:277-291 | A blast set is accepted exactly when it holds declared services that are the target or depend on it |
| ServiceGraph.SnapshotClosure | src/understudy/planner/validate.py:256-275 | The planner's copy of the loop returns the callers over edges with a declared target |
| ServiceGraph.FactClosure | src/understudy/kernel/facts.py:397-411 | The fact extractor's copy returns the callers over all edges |
| ServiceGraph.SnapshotBlastSetValidity | src/understudy/planner/validate.py:250-291 | On a snapshot the answer is the same as on the graph, undeclared edge endpoints included |
| ServiceGraph.UndeclaredCallersOnlyAtTheEdge | src/understudy/planner/validate.py:256-291 | The planner's closure differs from the graph's by undeclared callers only |
| ServiceGraph.ThreeCopiesAgree | src/understudy/kernel/facts.py:397-411 | With every endpoint declared the three closures are one |
| ServiceGraph.WhenTheGraphSeesAll | src/understudy/kernel/facts.py:397-411 | For a declared service the graph's closure is the fact extractor's exactly when every upstream service is declared, and exactly when no undeclared service calls it or a dependent the graph sees |
| ServiceGraph.WhenThePlannerSeesTheGraph | src/understudy/planner/validate.py:256-291 | The planner's closure is the graph's under that same condition |
| ServiceGraph.WhenThePlannerSeesAll | src/understudy/planner/validate.py:256-291 | The planner's closure is the fact extractor's exactly when every caller of an undeclared service it sees is itself seen |
| ServiceGraph.PlannerSeesTheCallers | src/understudy/planner/validate.py:256-291 | The planner sees exactly the callers of the service and of the dependents the graph sees |
| ServiceGraph.UndeclaredServiceSplitsTheCopies | src/understudy/kernel/facts.py:397-411 | Two declared services joined only through an undeclared one: the fact extractor sees the caller and the graph does not |
| Manifest.Kahn | src/understudy/graph/service_graph.py:116-137 | The loop visits every node if and only if the names are distinct and the edges have no cycle; then the visiting order is topological, repeated edges included |
| Manifest.Drain | src/understudy/graph/service_graph.py:125-134 | The queue loop keeps degrees, order and queue consistent to the end |
| Manifest.Release | src/understudy/graph/service_graph.py:128-134 | One node's decrements, repeats counted, queue exactly the nodes that reach zero |
| Manifest.Verdict | src/understudy/graph/service_graph.py:116-137 | When the queue runs dry, the unvisited nodes call each other in a circle |
| Manifest.FromManifest | src/understudy/graph/service_graph.py:62-144 | Loading succeeds exactly for known endpoints, distinct names and no cycle; otherwise the first edge with an unknown endpoint is reported, its source first, or else the cycle |
| Paths.CycleFromCallers | src/understudy/graph/service_graph.py:116-137 | A non-empty set of nodes that all have callers in the set contains a cycle |
| Paths.TopologicalIsAcyclic | src/understudy/graph/service_graph.py:116-137 | A topological order rules out cycles |
| Chains.AllChainsCharacterised | src/understudy/graph/service_graph.py:192-216 | The chains are exactly the paths from an uncalled service to one that calls nothing, each once, in increasing order, none a contiguous part of another |
| Chains.CallChains | src/understudy/graph/service_graph.py:192-212 | The recursive search ends on every accepted graph and lists those chains |
| Chains.FormatChains | src/understudy/graph/service_graph.py:192-216 | The text joins them |
| Chains.WhatJoiningGives | src/understudy/graph/service_graph.py:216-222 | The text has the parts in order with the separator between every two |
| Chains.ChainsAreMaximalPaths | src/understudy/graph/service_graph.py:199-209 | The search from given entries finds every maximal path once and nothing else |
| Chains.ChainsAreMaximal | src/understudy/graph/service_graph.py:210-215 | No chain is a contiguous part of another |
| Chains.ShortcutIsASubsequence | src/understudy/graph/service_graph.py:210-215 | Non-contiguously it can be: a counterexample to the comment in the code |
| Chains.WhenAChainSkips | src/understudy/graph/service_graph.py:210-215 | Some chain is a subsequence of a different one exactly when some service calls another both directly and through a further callee |
| MirrorGateway.RunsKeepInv | services/mirror_gateway/core.py:107-260 | In every interleaving of registering, dispatching, delivering, failing and stopping, every registration conserves its requests, keeps its bound, counts paths and delivers in order |
| MirrorGateway.MovesKeepInv | services/mirror_gateway/core.py:107-260 | Every single move keeps that |
| MirrorGateway.EventsKeepSound | services/mirror_gateway/core.py:153-171 | Offer, take, deliver, fail and stop each keep one registration sound |
| MirrorGateway.BurstFillsThenDrops | services/mirror_gateway/core.py:153-171 | Requests offered in a row fill the queue in order up to its bound and the rest are dropped, one count each; without a bound none is |
| MirrorGateway.DrainingDelivers | services/mirror_gateway/core.py:209-260 | A worker left alone delivers the request in flight and then its queue, in order, and drops nothing |
| MirrorGateway.DrainingCounts | services/mirror_gateway/core.py:239-241 | And counts each under its path |
| MirrorGateway.WhatANewTwinIs | services/mirror_gateway/core.py:107-140 | A registration starts running, empty and with nothing counted |
| MirrorGateway.WhatFailingAndStoppingDo | services/mirror_gateway/core.py:209-260 | A failed delivery is one drop; a stopped worker delivers no more |
| MirrorGateway.PathsSumToDelivered | services/mirror_gateway/core.py:173-183 | Path counts add up to the delivered count |
| MirrorGateway.DrainedMeansAllArrived | services/mirror_gateway/core.py:209-260 | A registration that dropped and lost nothing and has drained delivered exactly what it was offered, in order |
| MirrorGateway.FaithfulTwinIsOk | src/understudy/mirror/fidelity.py:39-61 | A twin registered before the first request that dropped nothing and drained has zero delta and is reported OK at all thresholds but negative ones |
| MirrorGateway.TwinRegistration.PutOrDrop | services/mirror_gateway/core.py:153-171 | A full queue costs one drop, otherwise the request is queued |
| MirrorGateway.TwinRegistration.RecordDelivery | services/mirror_gateway/core.py:239-241 | A delivery is counted once, under its path |
| MirrorGateway.MirrorGatewayManager.RegisterTwin | services/mirror_gateway/core.py:107-140 | Refuses blank ids and addresses with nothing changed; otherwise it is the gateway's register move: an earlier registration is replaced, its worker stopped, and the new one starts empty |
| MirrorGateway.MirrorGatewayManager.UnregisterTwin | services/mirror_gateway/core.py:142-151 | It is the gateway's unregister move: exactly that registration goes and its worker is stopped |
| MirrorGateway.MirrorGatewayManager.DispatchToTwins | services/mirror_gateway/core.py:153-171 | Every registered twin is offered the request once |
| MirrorGateway.MirrorGatewayManager.ProxyRequest | services/mirror_gateway/app.py:257-269 | Dispatching and recording are one move of the gateway |
| MirrorGateway.MirrorGatewayManager.GetStats | services/mirror_gateway/core.py:173-192 | Reported statistics are those of the registration; the drop ratio is dropped over delivered plus dropped |
| Fidelity.WhatAFractionIs | services/mirror_gateway/core.py:173-183 | The drop ratio times the total is what was dropped, and 0 of nothing |
| Fidelity.EvaluateTwinFidelity | src/understudy/mirror/fidelity.py:22-73 | The two loops decide exactly: count delta, drop ratio and path shares within bounds, no unknown path |
| Fidelity.WhatTheDeltaIs | src/understudy/mirror/fidelity.py:22-61 | The delta times production's count is the difference of the counts; without production it is 0 for an idle twin and else 1 |
| Fidelity.WhenPathsMatch | src/understudy/mirror/fidelity.py:22-61 | Paths match exactly when no share differs by more than 2 points either way and the twin counts no path production lacks |
| Fidelity.SameTrafficIsOk | src/understudy/mirror/fidelity.py:39-61 | Equal counters and no drop are OK at all thresholds but negative ones |
| Fidelity.SameTrafficMatches | src/understudy/mirror/fidelity.py:39-61 | Equal counters give zero delta and matching paths |
| Fidelity.CountersAddUp | services/mirror_gateway/core.py:92-95 | Path counters of a log add up to its length |
| FaultManager.RunsKeepInv | services/_common/faults.py:102-171 | In every interleaving of apply, clear, expiry, cancellation, failed installation and pool answers the invariant holds and no connection is duplicated |
| FaultManager.StepsKeepInv | services/_common/faults.py:102-171 | Every single step keeps mutual exclusion, one live watcher and consistent fields |
| FaultManager.FreeLockIsConsistent | services/_common/faults.py:102-163 | Whenever the lock is free: a timer is recorded exactly when a fault is active and its apply was not cut short; stalled exactly for STALL; connections held only for POOL_EXHAUSTION; buffers exactly for a MEMORY_LEAK that was not cut short; pool connections conserved |
| FaultManager.WhatTheLockLeaves | services/_common/faults.py:102-171 | Whoever lets the lock go leaves its own fault active after an apply, with a fresh watcher unless cut short, and none after a clear or an expiry; a pool exhaustion without a time-out holds as many connections as its magnitude says, one at least |
| FaultManager.WhatHappensOutside | services/_common/faults.py:102-181 | Calls start by waiting for the lock, watchers wait once their time is up, and cancelled ones are done, with nothing else changed |
| FaultManager.WhatPuttingBackDoes | services/_common/faults.py:159-165 | A connection handed back is free again, and lost exactly when handing it back failed |
| FaultManager.StrandedExactlyWhenCutShort | services/_common/faults.py:107-130 | The lock is let go with a fault nobody will clear after exactly these answers: a failed allocation, a failed sizing of the pool fault, a pool error other than a time-out |
| FaultManager.AllocationFailureStrands | services/_common/faults.py:112-114 | A run in which a memory leak's allocation fails ends so |
| FaultManager.SizingFailureStrands | services/_common/faults.py:115-120 | A run in which the connection count or time-out cannot be worked out ends so |
| FaultManager.PoolErrorStrands | services/_common/faults.py:121-126 | A run in which the pool raises something else than a time-out ends so |
| FaultManager.WatcherClearsOnlyItsFault | services/_common/faults.py:165-171 | A watcher that gets the lock is the recorded timer and the active fault is the one it was started for |
| FaultManager.HolderCanStep | services/_common/faults.py:137-163 | The lock is never stuck: its holder or the watcher it awaits can always take a step |
| FaultManager.HolderFinishes | services/_common/faults.py:102-163 | Each such step lets the lock go or leaves strictly less to do; other tasks cannot lengthen the wait |
| FaultManager.Manager.EnterLock | services/_common/faults.py:102-106 | Taking the lock cancels a live timer, the caller itself included, or clears at once |
| FaultManager.Manager.ForgetFault | services/_common/faults.py:145-156 | What follows the await of the old timer |
| FaultManager.Manager.PutConnBack | services/_common/faults.py:155-160 | Connections go back one by one, a failing hand-back suppressed |
| FaultManager.Manager.RestoreBaseline | services/_common/faults.py:160-163 | The list is emptied, the stall lifted, and an apply goes on |
| FaultManager.Manager.InstallFault | services/_common/faults.py:107-130 | The kind-specific part of apply, failing allocation included |
| FaultManager.Manager.GiveUp | services/_common/faults.py:125-130 | A pool time-out installs the fault with what was taken |
| FaultManager.Manager.FailConn | services/_common/faults.py:121-126 | Any other pool error ends the apply with the fault named |
| FaultManager.Manager.TakeConn | services/_common/faults.py:117-130 | Connections are acquired up to the count, then the expiry is scheduled |
| Orchestrator.Invoke | src/understudy/orchestrator/graph.py:48-69 | For arbitrary nodes the invocation ends, and its trace is a run: reduce, route, repeat |
| Orchestrator.PreparationInOrder | src/understudy/orchestrator/graph.py:156-171 | As long as no node leaves an error a finished run takes the eight preparatory nodes in order |
| Orchestrator.WhereARunGoes | src/understudy/orchestrator/graph.py:82-119 | In a finished run a clean tournament with a winner and no escalation is followed by the kernel, a clean PASS by actuation, a clean resolved actuation by Slack, anything else there by PagerDuty, both by teardown and recording, and an error by handle_failure |
| Orchestrator.CleanRunsAreActuated | src/understudy/orchestrator/graph.py:156-228 | A finished run without errors whose tournament finds a winner and whose kernel passes is actuated, torn down and recorded |
| Orchestrator.WhatReducingDoes | src/understudy/orchestrator/state.py:25-190 | A field a node returns replaces the old, errors are appended, an escalation stays, and an update is refused exactly when it would switch incidents |
| Orchestrator.WhatIsRecorded | src/understudy/orchestrator/state.py:224-235 | The outcome on record is escalated exactly when set so, failed exactly on other errors or when set so, and executed otherwise |
| Orchestrator.EachNodeAtMostOnce | src/understudy/orchestrator/graph.py:153-225 | No run executes a node twice or more than fourteen of the fifteen |
| Orchestrator.FourteenNodesCanRun | src/understudy/orchestrator/graph.py:153-225 | Fourteen is reached |
| Orchestrator.ErrorsDivert | src/understudy/orchestrator/graph.py:71-80 | Once a node has left an error the next node is handle_failure and the last |
| Orchestrator.RaisingLeavesAnError | src/understudy/orchestrator/graph.py:48-69 | An exception in a node always leaves an error and changes nothing else |
| Orchestrator.FailureNeedsAnError | src/understudy/orchestrator/graph.py:153-225 | Handle_failure is entered for an error only, and ends the run |
| Orchestrator.ActuateIsGuarded | src/understudy/orchestrator/graph.py:82-115 | Actuate is the tenth node of its run, entered only after the tournament was left decided with a winner and the safety kernel left with PASS, neither escalated, and nothing before left an error |
| Orchestrator.SlackMeansResolved | src/understudy/orchestrator/graph.py:96-102 | Slack is notified only right after an actuation reported resolved |
| Orchestrator.HowRunsEnd | src/understudy/orchestrator/graph.py:196-225 | A finished run ends at record_run after one notification and teardown without an error, or at handle_failure with one |
| Orchestrator.WhenTeardownIsReached | src/understudy/orchestrator/graph.py:184-215 | A finished run visits teardown_fleet exactly when no node before it left an error |
| Orchestrator.WhenTheRunIsRecorded | src/understudy/orchestrator/graph.py:208-225 | A finished run visits record_run exactly when no node before it, teardown included, left an error |
| Orchestrator.FailedIngestSkipsTeardown | src/understudy/orchestrator/graph.py:1-9 | A run whose first node raises visits neither |
| Orchestrator.SomeoneIsTold | src/understudy/orchestrator/graph.py:184-225 | Every finished run notifies Slack or PagerDuty or goes to handle_failure, and never both of the first |
| Orchestrator.HistoryIsKept | src/understudy/orchestrator/state.py:25-31 | Errors only grow, the escalation flag latches, the incident id is write-once along every run |
| Orchestrator.BrokenRunsAreNotExecuted | src/understudy/orchestrator/state.py:224-235 | Where any node of a run left an error, the outcome derived from its final state is not executed |
| Naming.ParseIsTheMatch | src/understudy/fleet/teardown.py:37 | The parser finds exactly the pattern's matches, one trailing newline accepted, and a name has at most one group |
| Naming.PrinterParses | src/understudy/fleet/render.py:46-58 | Reading back what the printer wrote gives the incident it was written for |
| Naming.TwinNameInjective | src/understudy/fleet/render.py:46-58 | Different normal forms or candidates never print the same name |
| Naming.WhatADatabaseNameIs | src/understudy/fleet/render.py:46-58 | A database is named after the incident's normal form and the candidate, and refused exactly without a form or with a negative index |
| Naming.StoredTwinIsRecognised | src/understudy/fleet/teardown.py:37 | As PostgreSQL stores it, folded and cut to 63 bytes, a twin's name still reads as its incident's exactly when the normal form has no capitals and 56 characters at most |
| Naming.PrefixTakes | src/understudy/fleet/database.py:400-411 | The clean-up prefix of an incident takes in its own databases and those of incidents whose name extends it by an underscore, no others |
| Naming.SanitizeFixesTheClean | src/understudy/fleet/render.py:61-71 | Sanitising is the identity on clean labels and on nothing else |
| Naming.SanitizeIdempotent | src/understudy/fleet/render.py:61-71 | Sanitising twice is sanitising once, for every string |
| Naming.SanitizeCleans | src/understudy/fleet/render.py:61-71 | The result is empty or has alphanumeric ends and no hyphen run |
| Naming.SanitizeKeepsLettersAndDigits | src/understudy/fleet/render.py:61-71 | Only separators change: every letter and digit of the lowered text is kept in order |
| Naming.SeparatorsShareANamespace | src/understudy/fleet/render.py:74-81 | Incidents that differ only in hyphens and underscores share their namespaces and databases |
| Naming.TwinNamespaceIsLabel | src/understudy/fleet/render.py:74-105 | Every namespace name returned is a label of at most 63 characters |
| Naming.WhatATwinNamespaceIs | src/understudy/fleet/render.py:74-105 | Which requests are refused, and for what, in what order; the others are assembled from sanitised parts |
| Naming.WhatIsAssembled | src/understudy/fleet/render.py:74-105 | A name is the prefix, as much of the incident as 63 characters leave room for, less hyphens at a cut, and the index; without room for a character it is refused |
| Naming.CandidatesGetDistinctNamespaces | src/understudy/fleet/render.py:74-105 | For one incident distinct candidates have distinct namespaces, truncation included |
| Fleet.FleetTeardownManager.Gc | src/understudy/fleet/teardown.py:344-475 | A collection succeeds exactly when no delete and no drop it comes to is refused; then the cluster is the specified one and reaped incidents are unregistered, and a failed one removes nothing else |
| Fleet.WhenANamespaceGoes | src/understudy/fleet/teardown.py:361-408 | A namespace goes exactly when it is named, its incident is blank or inactive, its creation lies the threshold back or more, and its delete takes it away |
| Fleet.WhenADatabaseGoes | src/understudy/fleet/teardown.py:409-458 | A database goes exactly when it starts like the databases of a namespace due to go, or is an old twin of an incident that is not active and keeps no namespace |
| Fleet.WhatIsSafe | src/understudy/fleet/database.py:502-512 | A name is safe exactly when it has a character and only ASCII letters, digits and underscores |
| Fleet.FleetTeardownManager.ReapNamespaces | src/understudy/fleet/teardown.py:359-407 | The first phase deletes exactly the stale namespaces, or stops at a refused delete |
| Fleet.FleetTeardownManager.DropReaped | src/understudy/fleet/teardown.py:409-414 | The second phase drops exactly the databases under the prefix of a reaped incident |
| Fleet.FleetTeardownManager.ReapOrphans | src/understudy/fleet/teardown.py:416-458 | The third phase drops exactly the orphans |
| Fleet.FleetTeardownManager.DropAllIncidentDatabases | src/understudy/fleet/database.py:400-411 | Afterwards no database starts with the prefix, unless a drop was refused |
| Fleet.FleetTeardownManager.DropTwinDatabase | src/understudy/fleet/database.py:382-398 | Only safe names starting with `twin_` are dropped, under the name PostgreSQL makes of them |
| Fleet.FleetTeardownManager.CloneTwinDatabase | src/understudy/fleet/database.py:297-380 | The retry loop ends at the first answer that is not about a template in use, or at the last attempt; that answer decides whether the stored name appears, and with what stamp |
| Fleet.WhatAnAnswerLeaves | src/understudy/fleet/database.py:316-380 | A created database is stamped with the time, one whose stamp failed stays without, and any other answer changes nothing |
| Fleet.WhatAttemptsAre | src/understudy/fleet/database.py:279-295 | At least one attempt is made |
| Fleet.ActiveNamespacesStay | src/understudy/fleet/teardown.py:387-391 | Namespaces of active incidents stay, however old, in complete and in failed collections |
| Fleet.WhenTwinDatabasesStay | src/understudy/fleet/teardown.py:409-458 | A database whose name parses stays exactly when no reaped incident reaches it and it is not a provably old orphan |
| Fleet.UnparsedDatabasesAreNoOrphans | src/understudy/fleet/teardown.py:427-430 | One whose name does not parse is dropped only under a reaped incident's prefix |
| Fleet.ActiveDatabasesStay | src/understudy/fleet/teardown.py:409-450 | An active incident whose normal form has no capitals and 56 characters at most keeps its stored databases exactly when no reaped incident reaches it |
| Fleet.PrefixFreeIncidentsAreSafe | src/understudy/fleet/teardown.py:409-458 | With prefix-free incidents no database of such an active incident is lost, even by a collection that fails half-way |
| Fleet.ReapingReachesALongerIncident | src/understudy/fleet/database.py:400-411 | Without prefix-freedom one is: reaping `inc` takes the database of the active `inc-2` |
| Fleet.CapitalsHideAnActiveIncident | src/understudy/fleet/database.py:324-330 | Every incident with a capital in a normal form of at most 56 characters loses its database past the threshold while it is active and its namespace alive |
| Fleet.LengthHidesAnActiveIncident | src/understudy/fleet/database.py:324-330 | So does every incident `inc_` with 54 digits or more: the cut name reads as a database of `inc` |
| Fleet.MistakenDatabaseIsDropped | src/understudy/fleet/teardown.py:427-456 | Whatever the cause, a database whose name reads as another incident's is not protected by its own |
| Fleet.OrphansAreAbandoned | src/understudy/fleet/teardown.py:436-456 | A database dropped as an orphan has an old stamp, and the incident its name says is inactive and has no namespace left |
| Fleet.OtherDatabasesStay | src/understudy/fleet/database.py:382-389 | Databases that do not start with `twin_` are never dropped |
| Fleet.SecondCollectionDeletesNothing | src/understudy/fleet/teardown.py:342-458 | A second collection at the same time never drops a database, and changes nothing at all exactly when each reaped namespace went the first time or stays the second |
| Validate.NormalisePlan | src/understudy/planner/validate.py:294-442 | The branches of the code decide the specified normal form |
| Validate.NormalisePlans | src/understudy/planner/validate.py:508-553 | The two loops compute the specified list |
| Validate.WhenAPlanSurvives | src/understudy/planner/validate.py:294-442 | A plan survives exactly when it meets every rule, stated over call chains and recorded deploys, and then as itself with workload and commit resolved and its inverse made anew |
| Validate.WhatTheListHolds | src/understudy/planner/validate.py:508-553 | The list holds exactly the surviving plans in their order, renumbered and named by their places, inverses included, and otherwise unchanged |
| Validate.DropNeverRepair | src/understudy/planner/validate.py:294-442 | A survivor differs from its plan in resolved names and its inverse only |
| Validate.SurvivorsAreAcceptable | src/understudy/planner/validate.py:331-442 | A survivor that acts has known targets, a blast set inside its workload's closure, and an inverse with the same targets, blast set and action |
| Validate.ConfigPlansNeverSurvive | src/understudy/planner/validate.py:420-436 | REVERT_CONFIG never survives, because no prior value is passed in |
| Validate.SelectionInOrder | src/understudy/planner/validate.py:517-526 | The survivors are an order-preserving selection of exactly the plans not dropped |
| Validate.NormalisedList | src/understudy/planner/validate.py:528-548 | Consecutive indices, distinct ids, inverses named after their plans |
| Validate.WhenASurvivorIsStable | src/understudy/planner/validate.py:343-418 | A second pass leaves a survivor alone exactly when its commit and its inverse's commit resolve again |
| Validate.WhenNormalisingTwiceIsOnce | src/understudy/planner/validate.py:508-553 | Normalising a normalised list changes nothing exactly when every survivor that acts has a commit and an inverse's commit that resolve again |
| Validate.NormalisingTwice | src/understudy/planner/validate.py:508-553 | Normalising twice is normalising once when commit ids have one length and no surrounding spaces and every deploy records an image for every workload |
| Validate.SecondPassDropsAPlan | src/understudy/planner/validate.py:382-407 | Without a digest in the newest deploy a rollback survives the first pass and not the second |
| Validate.RecordedCommitsResolve | src/understudy/planner/validate.py:203-237 | A recorded commit resolves to itself |
| Validate.BallotOffersNoAction | src/understudy/planner/validate.py:481-505 | The ballot always offers NO_ACTION, appended last and once, with indices and ids in step |
| Validate.NoActionSurvives | src/understudy/planner/validate.py:445-478 | The appended plan would itself survive unless there is no workload at all |
| FactCodec.FactsRoundTrip | src/understudy/kernel/facts.py:613-680 | With timestamps of a microsecond's resolution printed without loss, a list of facts, its values nested lists, mappings, sets and timestamps, is read back as written if and only if every value has the shape its name calls for |
| FactCodec.ValueRoundTrip | src/understudy/kernel/facts.py:594-651 | The same for one value under one name |
| FactCodec.PlainComesBack | src/understudy/kernel/facts.py:594-610 | Loaded without a name's help, exactly the values without sets and timestamps come back |
| FactCodec.SerialisedIgnoresIteration | src/understudy/kernel/facts.py:600-606 | What is written does not depend on the iteration order of any set |
| FactCodec.WhatIsWritten | src/understudy/kernel/facts.py:594-610 | JSON values are written as they are, timestamps as their text, lists and mappings part by part |
| FactCodec.WhatAnEntryIs | src/understudy/kernel/facts.py:613-624 | An entry keeps the fact's name, source and time |
| FactCodec.WhatASetIsWrittenAs | src/understudy/kernel/facts.py:600-606 | A set is written as a list of as many items, one for each element, strings in strictly ascending order, resources with their three fields |
| FactCodec.SomeLibraryWorks | src/understudy/kernel/facts.py:594-651 | What is assumed of the Python library can be met |
| FactCodec.SortBySorts | src/understudy/kernel/facts.py:600-606 | The sort used orders by key and keeps every element |
| FactCodec.ReconstructRefs | src/understudy/kernel/facts.py:631-638 | The loop passes over items that are not objects and fails on an invalid resource |
| FactCodec.FactsFromDict | src/understudy/kernel/facts.py:654-680 | The loop reads every entry or fails on the first bad one |
| Reducers.Reduce | src/understudy/orchestrator/state.py:54-119 | The pop-and-extend code computes the specified upsert |
| Reducers.ReducedKeys | src/understudy/orchestrator/state.py:70-73 | Current ids keep their positions as a prefix; new ids follow in the update's order |
| Reducers.ReducedView | src/understudy/orchestrator/state.py:70-73 | The id-to-value view is the current one overridden by the update |
| Reducers.ReducedHasNoDuplicates | src/understudy/orchestrator/state.py:67-73 | The result repeats no id exactly when the current list does not and, on an empty current list, the update does not |
| Reducers.ReducingTwice | src/understudy/orchestrator/state.py:54-73 | Re-applying an update changes nothing |
| Reducers.EmptyIsIdentity | src/understudy/orchestrator/state.py:67-73 | The empty list is an identity on both sides |
| Reducers.ReducingIsAssociative | src/understudy/orchestrator/state.py:54-73 | Updates may be combined before they are applied |
| Reducers.WhenTheStartIsTheEarliest | src/understudy/orchestrator/state.py:167-171 | The start of a run is the earliest instant given exactly when the first one given is no later than any other |
| Reducers.ALaterStartCanStay | src/understudy/orchestrator/state.py:167-171 | An earlier instant that comes second is ignored |
| Reducers.RepeatsAreKeptOnlyOnEmpty | src/understudy/orchestrator/state.py:67-68 | An update that repeats an id is kept whole on an empty list and collapsed on any other |
| Loadgen.PercentileGrows | services/loadgen/runner.py:64-75 | Monotone in the percentile across segment boundaries |
| Loadgen.PercentileInRange | services/loadgen/runner.py:64-75 | Between the first and the last value |
| Loadgen.PercentileAtRank | services/loadgen/runner.py:64-75 | At an exact rank it is the element there |
| Loadgen.PercentileBetweenRanks | services/loadgen/runner.py:64-75 | Between two ranks it moves from one value to the next in proportion |
| Loadgen.PercentileEnds | services/loadgen/runner.py:64-75 | The ends at 0 and at 100 |
| Loadgen.SummaryOrdered | services/loadgen/runner.py:171-183 | min <= p50 <= p90 <= p95 <= p99 <= max |
| Loadgen.MeanInRange | services/loadgen/runner.py:174 | The mean lies between the extremes |
| Loadgen.MeanTimesCount | services/loadgen/runner.py:112-229 | The mean times the count is the sum |
| Loadgen.Aggregate | services/loadgen/runner.py:165-183 | Counts add up, the error rate is the share of failures, the mean is the average of the latencies, the extremes are latencies and enclose all others |
| Identifiers.GenerateUlid | src/understudy/common/ids.py:9-36 | The loop spells the 128-bit value of timestamp and entropy; bad arguments are refused |
| Identifiers.UlidOrder | src/understudy/common/ids.py:30-36 | String order is numeric order, and the text determines the value |
| Identifiers.LaterSortsLater | src/understudy/common/ids.py:16-36 | A later millisecond sorts later whatever the entropy; within one the entropy decides |
| Identifiers.VersionReadsBack | src/understudy/orchestrator/checkpoint.py:57-74 | A printed version reads back as its counter, for every integer and suffix |
| Identifiers.WhatAVersionIs | src/understudy/orchestrator/checkpoint.py:69-74 | Below 10^32 a version is 32 digits that read as the counter, a dot and the suffix |
| Identifiers.LaterVersionSortsLater | src/understudy/orchestrator/checkpoint.py:69-74 | A larger counter below 10^32 sorts strictly later whatever the suffixes |
| Identifiers.ChainCounts | src/understudy/orchestrator/checkpoint.py:57-74 | Along a channel the n-th version carries the counter n |
| Identifiers.ChainSortsInOrder | src/understudy/orchestrator/checkpoint.py:57-74 | Along a channel every version sorts after all before it |
| Identifiers.SuffixesTellBranchesApart | src/understudy/orchestrator/checkpoint.py:69-74 | Two versions are the same text exactly when counter and random suffix agree |
| Checkpoints.EveryCheckpointReadsBack | src/understudy/orchestrator/checkpoint.py:76-191 | Over any tree of saves in which each continues an earlier one and no new version was used before, every checkpoint, old branches included, reads back exactly the values it was saved with |
| Checkpoints.ResumingReadsTheLastSave | src/understudy/orchestrator/checkpoint.py:144-191 | Without an id a checkpoint is always found, and it is the last save, with the values saved, exactly when no save of its thread and namespace has an id that sorts later |
| Checkpoints.SavesKeepInv | src/understudy/orchestrator/checkpoint.py:76-113 | One such save keeps every earlier checkpoint readable |
| Checkpoints.WhatASaveRecords | src/understudy/orchestrator/checkpoint.py:76-119 | A save is found under its key with its versions and its parent, an empty parent counting as none, and touches no other checkpoint |
| Checkpoints.SharedVersionsCollide | src/understudy/orchestrator/checkpoint.py:69-74 | Branches that share a version share its blob: the first reads its own value exactly when the second wrote the same |
| Checkpoints.StoreCheckpointSaver.Aput | src/understudy/orchestrator/checkpoint.py:76-113 | Writes one blob for each new version, empty where the channel has no value, and the checkpoint without its values |
| Checkpoints.StoreCheckpointSaver.AgetTuple | src/understudy/orchestrator/checkpoint.py:144-191 | Finds the checkpoint of the id, or without one the checkpoint whose id sorts last, and reads the values of all its channel versions, leaving out the empty ones |
| Checkpoints.StoreCheckpointSaver.GetCheckpoint | src/understudy/store/fakes.py:319-341 | The checkpoint with the id, or with the greatest id of the thread and namespace, or none |
| Identifiers.OverflowSortsEarlier | src/understudy/orchestrator/checkpoint.py:69-74 | The bound is sharp: the version after 10^32 - 1 sorts before it |

## Left out

- K1, K2, K4 to K6, K9 and K10, the tournament scorer and arbiter, node bodies: arbitrary in the model, so the theorems hold for any.
- Kubernetes, PostgreSQL, HTTP, Slack, PagerDuty and Prometheus calls: only the state they read or write, or their answer, appears.
- Z3 itself: an oracle assumed sound when it decides; of a veto's reason only what it reads is modelled.
- Float rounding, NaN and infinities: numbers are reals.
- Unicode: `\d` and `int()` are modelled on ASCII digits, `lower()` is arbitrary outside ASCII, lone surrogates are absent.
- Await points inside the fault manager and the mirror worker: modelled as steps on values; cancellation of an admin call from outside is not.
- Inverse rationales: shortened to what `re-enable` detection and flag and configuration plans need.
- The data service's in-memory store for offline runs: it answers no query, so there is nothing to compare.
- Actuator explanations, events and service-account selection; conflicts between concurrent writers of one Deployment.
- Snapshot refresh, and databases created with quoted names: the catalogue holds names as unquoted identifiers are stored.
- Teardown by label and the exit handlers: the deleting steps of garbage collection without its conditions.
- `cross_check` and request shares: arithmetic on one branch.
- Checkpoint metadata, pending writes, listing, thread deletion and value encoding: stored and handed back unread.
- The calendar and time zones: a timestamp is a count of microseconds, printed without loss.
- Manifest rendering, URL rewriting, prompt parsing and schema validation: easy single-branch members.
- Sets of values other than resources and strings, tuples and keys that are no strings among facts: no fact holds one.
- SafetyKernel.Verify: assumes that a formula names only constants the context handed out, as every shipped invariant does.
- Naming.SanitizeIdempotent: assumes of `lower()` only its action on ASCII.
