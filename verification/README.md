# Hermes Kernel: verified models of its graph algorithms, protocols and state machines

Hermes Kernel is an in-process agent kernel. This project models the parts of `kernel/` (and the stdio
framing of `mcp/server.py`) whose behaviour is hard to see from the code, and proves what they do for
every input, every run and every interleaving. Code that updates objects step by step is modelled by
classes, loops and `modifies` clauses; each such method is tied to a specification function or states
the promised property outright, and the properties of the specification are lemmas.

| file | models |
|---|---|
| `PlanGraph.dfy`, `Planner.dfy` | the dynamic planner: topological sort, step splitting, retries, adapted plans, final status |
| `GraphPaths.dfy`, `SemanticGraph.dfy`, `GraphInference.dfy`, `KnowledgeGraph.dfy` | the knowledge graph engine: shortest paths, entity merge, rule inference |
| `Circuit.dfy`, `Gateway.dfy` | the circuit breaker as a concurrent protocol, and the tool gateway that nests it between two retry loops |
| `Workflow.dfy` | the workflow engine: retries, approval gates, compensation, drivers |
| `Swarm.dfy` | swarm membership, bully election, timeout sweep |
| `VaultSpec.dfy`, `Vault.dfy` | the configuration vault, with and without a store behind its cache |
| `SimilarityGraph.dfy`, `Framing.dfy`, `Chunker.dfy` | the incremental similarity graph, Content-Length framing, the sliding-window chunker |

## How the outside world is modelled

- An injected callable (plan executor, step handler, HTTP post, clock, unique-id source) is a function of
  the number of the call, so every behaviour it could show in a run is covered.
- A dictionary whose order matters is a sequence in insertion order with distinct ids; one whose order
  does not matter is a map, and loops over it pick elements in an arbitrary order.
- A stretch of code without a real suspension is one atomic step. The circuit breaker's steps interleave
  freely; a swarm operation runs as a whole.
- An exception is a result value. Events, metrics, logs, audit entries and timestamps of records are not
  part of the state.

## What the code decides differently from what one might expect

- The depth limit of `find_path` is never read: the shortest path is returned whatever its length.
- A split leaves dependents of the failed step with a dependency on a step that no longer exists, and the
  sort ignores it, so a dependent may run before either half (`DependentMayComeFirst`). A split can even make
  an acyclic plan cyclic. Where the halves' names are not step ids that happens exactly if the failed step
  leads, along dependencies, to a step that waits for one of the names (`SplitCyclicExactly`); `SplitCanClose`
  is an example where a name is taken. A run raises exactly at the loss of a step with a cyclic split.
- The final status of a plan is read from a journal shared by all plans and all executions. In a run that does
  not raise it tells whether every step won if each step can be trusted: it has no standing outcome yet, or one
  with retry count 0, or a success within the step's budget, or a success beyond it while the step's own split
  is cyclic. For every other journal of an acyclic plan `MisledRun` gives an executor for which `ExecutePlan`
  returns the wrong status, and `UntrustedMisleads` shows that there is no further case. Executing a plan again
  after one of its steps failed in a retry is such a case: the old failure outlives a success at the first attempt.
- A step can be left without an outcome, and the run then ends in an attribute error (`ExecutePlan`, result
  `NoOutcome`): when the executor answers for another step, or when it reuses an outcome id, because the second
  record overwrites the first. `OverwrittenRun` shows the latter for every plan with two different step ids,
  though every answer is a success for its own step.
- A half-open circuit with its trial calls used up rejects every later call for ever exactly when no call is
  in flight any more (`JammedExactly`): cancellation is neither success nor failure, and nothing times a
  trial out. Every configuration has such a run (`JamReachable`).
- A merge rule raises a missing-key error exactly when one matched pair starts at an entity an earlier
  pair merged away (`MergeRuleRaises`); two relations in a row are enough (`ChainedReachable`).
- A workflow with no steps stays running under its drivers, and with distinct step ids it is the only one that does (`Drive`).
- The approval gate looks at the attempt number, not at an approval: executing a step that needs approval runs
  its handler exactly if the step was attempted before, in whatever state the instance is (`ExecuteGated`). From
  a valid state that bypasses the gate exactly if the instance is paused at the step, or has failed without its
  approval, as after a refusal. The linear driver and `approve` stop at a pause; the driver that hands a workflow
  to the planner does not, and its retry runs the gated handler (`RetryGate`). The status alone does not decide:
  an instance left paused by such a run stops at the next gate all the same (`RetryTwoGates`).
- A workflow in which a step id occurs twice never comes to its end, however well its handlers do
  (`ExecuteMany`, `WalkStops`).
- Two scope ids share a cache key for some settings exactly when they have the same name, a missing id being
  called "global", or one name followed by a colon begins the other (`ClashExactly`), as "http://h" and
  "http://h:8080" do. A vault then shows the value set under one id to a reader of the other (`Misread`), and
  over a store the id "__global__" reads what was set without an id once the cache is lost (`StoreMisread`).
  Colons as such do no harm: the vault is correct for every set of ids that avoids these clashes. What each
  operation does to cache and store is stated for all ids.
- A swarm heartbeat elects nobody, and creating a swarm under an id in use replaces it.

## Model

| member | source | states |
|---|---|---|
| PlanGraph.Toposort | kernel/dynamic_planner.py:413-435 | raises exactly when the dependencies among existing steps contain a cycle, naming a step on one; otherwise every step comes once, after all its existing dependencies, and with distinct ids the result is a permutation of the plan |
| PlanGraph.Sorter.Visit | kernel/dynamic_planner.py:418-431 | one visit terminates because ids outside `visited` and `stack` shrink; it places the step after its dependencies or exhibits a cycle |
| PlanGraph.OrderIsAcyclic | kernel/dynamic_planner.py:413-435 | a plan that can be ordered has no dependency cycle |
| PlanGraph.OrderIsPermutation | kernel/dynamic_planner.py:413-435 | with distinct ids no step is lost or repeated by the sort |
| PlanGraph.ReplanStepFailed | kernel/dynamic_planner.py:280-308 | the replanner's loop replaces the failed step, in place, by its two halves |
| PlanGraph.SplitSingle | kernel/dynamic_planner.py:283-306 | the halves are named "-a" and "-b" after the step, keep its capability, agent, risk and budget, have half its duration rounded down but at least 1, and the second waits for the first as well |
| PlanGraph.SplitById | kernel/dynamic_planner.py:283-308 | after a split under names that are not step ids the failed id is gone, the halves are there and every other step is untouched |
| PlanGraph.SplitCyclicExactly | kernel/dynamic_planner.py:280-308 | under names that are not step ids, the split of an acyclic plan is cyclic exactly if the failed step leads to a step that waits for a half by name |
| PlanGraph.SplitAcyclic | kernel/dynamic_planner.py:280-308 | splitting a step of an acyclic plan with fresh names gives an acyclic plan, so the sort accepts it |
| PlanGraph.SplitOrder | kernel/dynamic_planner.py:280-308 | in every order of the split plan "-a" precedes "-b", both follow the original's existing dependencies, and the other steps are all there |
| PlanGraph.DependentMayComeFirst | kernel/dynamic_planner.py:283-308 | a dependent of the failed step may stand before both halves in an order of the split plan |
| PlanGraph.SplitCanClose | kernel/dynamic_planner.py:283-308 | an acyclic plan with a step already called "-a" whose split is cyclic |
| DynamicPlanner.LastOfIsLatestHighest | kernel/dynamic_planner.py:222-228 | a step's standing outcome is the latest among those with the highest retry count |
| DynamicPlanner.LastOfTurn | kernel/dynamic_planner.py:162-175 | after its own attempts a settled step, or one whose stale success is joined by a win, stands as a success exactly when it won |
| DynamicPlanner.UntrustedMisleads | kernel/dynamic_planner.py:222-228 | a journal can be trusted for a plan exactly if no step stands as a failure from a retry, or as a success beyond its budget while its split is acyclic |
| DynamicPlanner.MisledStatus | kernel/dynamic_planner.py:148-151 | after the run chosen for an untrusted journal the standing outcomes say the opposite of what happened |
| DynamicPlanner.MisledRun | kernel/dynamic_planner.py:134-154 | for every untrusted journal of an acyclic plan there is an executor for which the run returns ADAPTED though every step won, or COMPLETED though one exhausted its budget |
| DynamicPlanner.OverwrittenRun | kernel/dynamic_planner.py:148-151 | for every acyclic plan with two different step ids and an empty journal, an executor that succeeds for every step but reuses one outcome id makes the run end in an attribute error |
| DynamicPlanner.PutAllNew | kernel/dynamic_planner.py:443-444 | recording answers with new ids appends them to the journal in order |
| DynamicPlanner.Planner.LastOutcome | kernel/dynamic_planner.py:222-228 | the journal fold computes the standing outcome |
| DynamicPlanner.Planner.AlreadySucceeded | kernel/dynamic_planner.py:216-220 | true exactly when a success is recorded for the step under that plan |
| DynamicPlanner.Planner.Attempt | kernel/dynamic_planner.py:162-183 | for any executor, the retry loop ends in success or with the whole budget used, records each attempt with its number, and sleeps 2^k - 1 in all for k retries |
| DynamicPlanner.Planner.Rerun | kernel/dynamic_planner.py:202-213 | the pass over an adapted plan records one first attempt per step not yet successful in it, in order |
| DynamicPlanner.SkipsExactly | kernel/dynamic_planner.py:203-204 | the pass skips a step exactly if a success is recorded for it under the adapted plan's own id |
| DynamicPlanner.PassesAreFull | kernel/dynamic_planner.py:202-213 | if no outcome carries an adapted plan's id, every lost turn calls the executor once for each step of an order of the split plan, in that order |
| DynamicPlanner.StoredKeeps | kernel/dynamic_planner.py:231-262 | with new ids every lost turn leaves the plan with its step split stored as an adapted next version, and no other plan is lost |
| DynamicPlanner.Planner.Adapt | kernel/dynamic_planner.py:184-213 | exhaustion stores a new plan version with the step split, marks the old one adapted, never re-runs the failed step, and raises exactly when the split plan is cyclic |
| DynamicPlanner.Planner.ExecuteStepWithRetry | kernel/dynamic_planner.py:156-214 | a step's whole turn: what it appends to the journal, the calls it makes, the backoff it sleeps, the outcome it returns; a lost turn stores the split plan as the next version, marks the plan adapted and goes through an order of the split plan |
| DynamicPlanner.SplitOrderSize | kernel/dynamic_planner.py:283-308 | an adapted plan runs at most one step more than the plan, and not the failed one |
| DynamicPlanner.AddTurn | kernel/dynamic_planner.py:145-146 | the effort bound is kept turn by turn: calls stay within the budgets plus n + 1 per exhausted step |
| DynamicPlanner.EffortIsPlanned | kernel/dynamic_planner.py:134-214 | for distinct step ids the effort in that bound is the plan's own sum of (budget + 1) |
| DynamicPlanner.NoAdaptedCycle | kernel/dynamic_planner.py:202 | with fresh split names no adapted plan of an acyclic plan makes the sort raise |
| DynamicPlanner.ProgressStep | kernel/dynamic_planner.py:145-146 | from a trusted journal, while no turn raises: as long as no step has lost, all steps so far stand as successes; once one has, the latest loser stands as a failure, despite re-runs |
| DynamicPlanner.ProgressEnd | kernel/dynamic_planner.py:148-151 | at the end every step stands as a success exactly when every step won its own turn |
| DynamicPlanner.Planner.ExecutePlan | kernel/dynamic_planner.py:134-154 | for any executor the run ends COMPLETED exactly when every step stands as a success; for one that answers for its step with new ids, from a trusted journal, that is when every step won within its own budget; raises exactly on an unknown plan, a cyclic one, a step lost whose split is cyclic, and a step without an outcome; every lost turn was replanned and its pass gone through, and the stored plans are exactly those; calls are bounded by the sum of (budget + 1) plus (n + 1) per exhausted step |
| GraphPaths.BuildAdjacency | kernel/knowledge_graph.py:188-192 | lists each relation under every entity it can be walked from |
| GraphPaths.ChainMeetsQueue | kernel/knowledge_graph.py:196-205 | a chain from a reached entity ends at a reached one no further than its length, or passes a queued one that near |
| GraphPaths.Expand | kernel/knowledge_graph.py:200-205 | expanding an entity links and queues the unseen neighbours and keeps the queue ordered by distance |
| GraphPaths.Search | kernel/knowledge_graph.py:193-205 | the predecessor links reach the target exactly when a chain exists, at the least distance |
| GraphPaths.Reconstruct | kernel/knowledge_graph.py:208-216 | the path read off the links is a chain as long as the distance |
| KnowledgeGraph.Engine.FindPath | kernel/knowledge_graph.py:181-216 | a shortest chain of relations, bidirectional ones walked either way; none exactly when an endpoint is missing or no chain exists |
| KnowledgeGraph.Engine.GetNeighbors | kernel/knowledge_graph.py:164-179 | the hops the relations allow, optionally of one type, in the order of the relations and each as often as its relation, with the entity at the far end |
| KnowledgeGraph.Engine.AddEntity | kernel/knowledge_graph.py:123-142 | a name already there, in any case, refreshes the first such entity; else the entity is stored; no entity disappears and all relations stay anchored |
| KnowledgeGraph.Engine.AddRelation | kernel/knowledge_graph.py:151-161 | refused unless both ends exist; keeps the invariant |
| KnowledgeGraph.PutRelationPlace | kernel/knowledge_graph.py:155 | a relation with a new id is stored last, one with an id in use takes its place |
| KnowledgeGraph.Engine.Refreshed | kernel/knowledge_graph.py:128-130 | a refreshed entity keeps its identity, takes the new values of properties, the greater confidence and a named source |
| KnowledgeGraph.Engine.Merge | kernel/knowledge_graph.py:353-377 | error exactly when the canonical entity is missing; otherwise the specified merge, one version step if anything merged, all relations still anchored |
| SemanticGraph.MergeAllEffect | kernel/knowledge_graph.py:357-370 | the merged duplicates are gone and every relation keeps its id and place with both ends carried to their images |
| SemanticGraph.MergeAllWellFormed | kernel/knowledge_graph.py:353-377 | merging keeps ids distinct and every relation end an existing entity |
| SemanticGraph.DuplicateAbsorbed | kernel/knowledge_graph.py:360-362 | the canonical entity gains the duplicate's properties, the duplicate's values winning, and the greater confidence |
| SemanticGraph.MergeKeepsFacts | kernel/knowledge_graph.py:357-370 | after a whole merge the canonical entity has the property keys of all merged duplicates and at least their confidence; other entities are untouched |
| SemanticGraph.MergeKeepsValue | kernel/knowledge_graph.py:357-370 | each property has the value of the last merged duplicate that has it, else the canonical entity's own |
| SemanticGraph.MergeConfidence | kernel/knowledge_graph.py:357-370 | the confidence is that of the canonical entity or of a merged duplicate |
| SemanticGraph.MergeKeepsOrder | kernel/knowledge_graph.py:357-370 | the remaining entities keep their order |
| SemanticGraph.MergeKeepsChains | kernel/knowledge_graph.py:364-370 | every chain between two entities survives a merge, at the same length, between their images |
| KnowledgeGraph.PathsSurviveMerge | kernel/knowledge_graph.py:181-216 | what find_path connects before a merge it connects, by no longer a path, between the images afterwards |
| GraphInference.MatchesMembers | kernel/knowledge_graph.py:330-350 | a rule matches exactly the pairs its pattern accepts |
| GraphInference.AcceptsExactly | kernel/knowledge_graph.py:330-350 | a pattern accepts a relation exactly if it leads from the source to an entity of the graph and each type asked for agrees |
| KnowledgeGraph.Engine.MatchRule | kernel/knowledge_graph.py:330-350 | the nested loops compute those matches, in dictionary order |
| GraphInference.ActiveRulesSorted | kernel/knowledge_graph.py:289 | rules are applied by descending priority |
| GraphInference.ActiveRulesMembers | kernel/knowledge_graph.py:289 | the rules applied are the enabled ones |
| GraphInference.ActiveRulesStable | kernel/knowledge_graph.py:289 | among rules of one priority the enabled ones are applied in the given order, each as often as it is given |
| GraphInference.IterateExactly | kernel/knowledge_graph.py:290-328 | merging or not, inference makes passes until the first that fails or leaves the number of relations as it was, but no more than allowed |
| GraphInference.OnePassSuffices | kernel/knowledge_graph.py:282-328 | without merge rules one pass is a fixpoint: the result is the same for every number of iterations |
| GraphInference.PassLinksOnce | kernel/knowledge_graph.py:301-315 | without merge rules every added relation joins a pair directly related before and linked by nothing until then, so at most one per unordered pair |
| GraphInference.LinkedEitherWay | kernel/knowledge_graph.py:301-315 | a pair counts as linked by a similar_to relation in either direction |
| GraphInference.MergeRuleRaises | kernel/knowledge_graph.py:316-319 | a merge rule fails exactly when its matched pairs are chained |
| GraphInference.ChainedReachable | kernel/knowledge_graph.py:316-319 | a well-formed graph of two relations in a row on which a rule with an empty pattern has chained matches |
| GraphInference.ApplyRuleWellFormed | kernel/knowledge_graph.py:295-325 | every rule, also one that fails midway, keeps relations anchored and ids distinct |
| KnowledgeGraph.Engine.RunInference | kernel/knowledge_graph.py:282-328 | the bounded loop computes the specified iteration, keeps the invariant, and without merge rules equals a single pass |
| Circuit.CircuitRuntime.Begin | kernel/resilience.py:186-198 | recovery, admission and rejection as the protocol step says |
| Circuit.CircuitRuntime.MaybeRecover | kernel/resilience.py:129-136 | the open-to-half-open transition |
| Circuit.CircuitRuntime.OnSuccess | kernel/resilience.py:138-148 | the effect of a call that ends well |
| Circuit.CircuitRuntime.OnFailure | kernel/resilience.py:150-165 | the effect of a call that raises |
| Circuit.AdmittedExactly | kernel/resilience.py:129-136 | over any history a call is admitted exactly if the circuit is closed, or open with a full recovery period since the latest failure and trials configured, or half-open with fewer calls in the episode than trials |
| Circuit.TransitionsExactly | kernel/resilience.py:129-165 | every change of state, read off the history: streak of failures, recovery period, success or failure while half-open, and nothing else |
| Circuit.TrialsAreFirstBegins | kernel/resilience.py:194-198 | the trials of an episode are the first calls that asked |
| Circuit.LastFailureIsLatest | kernel/resilience.py:150-165 | in every interleaving the recorded failure time is that of the latest failure |
| Circuit.AdmissionWaits | kernel/resilience.py:186-198 | no call is admitted into an open circuit, and none into a half-open one before a full recovery period after the latest failure |
| Circuit.EpisodeBound | kernel/resilience.py:194-198 | a half-open episode admits at most the configured number of calls, whatever becomes of them |
| Circuit.ClosedCount | kernel/resilience.py:138-165 | while closed the count is the number of failures since the last success and stays below a threshold of at least one |
| Circuit.OpensAtThreshold | kernel/resilience.py:160-162 | a failure opens a closed circuit exactly when it completes a streak of threshold failures |
| Circuit.RejectionIsNeutral | kernel/resilience.py:190-197 | a rejected call changes neither the failure count nor the last failure |
| Circuit.JammedExactly | kernel/resilience.py:194-205 | a half-open circuit with its trials used up rejects every later call, in every real continuation, exactly when no call is in flight |
| Circuit.JamStays | kernel/resilience.py:194-205 | no real continuation changes the state of such a circuit |
| Circuit.JamReachable | kernel/resilience.py:194-205 | under every configuration a real run on a monotone clock jams the circuit: a streak of failures, the wait, and cancelled trials |
| Circuit.NoRecovery | kernel/resilience.py:129-136 | calls that all come within the recovery period of the latest failure never find the circuit recovered |
| Circuit.ShortRunNoRecovery | kernel/resilience.py:129-136 | neither do those of a run shorter than the recovery period |
| Gateway.BackoffMonotone | kernel/resilience_domain.py:73-82 | backoff never shrinks from attempt to attempt and never passes the cap |
| Gateway.BackoffDoubles | kernel/resilience_domain.py:73-82 | backoff starts at the base and doubles until the cap |
| Gateway.RetryableExactly | kernel/resilience_domain.py:84-90 | a fault is retried exactly if the allow-list is empty or names its class or a base |
| Gateway.ToolGateway.Rpc | kernel/mcp_gateway.py:87-128 | posts up to the first that is no transport error, at most max_retries + 1; a result is returned exactly when the last post answered |
| Gateway.ToolGateway.Guarded | kernel/mcp_gateway.py:230-237 | rejected exactly when the circuit says so, without posting; otherwise one request, answered exactly when its last post replied; the circuit's history grows by exactly the begin, the clock reading and the ending of this call |
| Gateway.ToolGateway.Retry | kernel/resilience.py:208-241 | a chain of guarded calls from one stage to the next that stops at the first success, at the first fault that is not retryable, or after max_attempts; returns the last result and sleeps the first k - 1 backoffs |
| Gateway.ToolGateway.FirstReply | kernel/mcp_gateway.py:225-239 | if the circuit admits and the first post replies, that reply is the result, after one post |
| Gateway.AccountedStep | kernel/mcp_gateway.py:235-239 | while every post fails, the history's admitted calls number at most the threshold plus one per recovery |
| Gateway.ToolGateway.CallTool | kernel/mcp_gateway.py:214-257 | the default policy's chain of guarded calls: the first post's reply is returned if the circuit admits; an error only after three attempts and 300 ms of backoff |
| Gateway.ToolGateway.CallMany | kernel/mcp_gateway.py:214-244 | over any number of sequential calls to a server that never answers, each making its three attempts, posts stay within (threshold + recoveries in the history) × (max_retries + 1), and within threshold × (max_retries + 1) if every call comes within the recovery period of the latest failure, in particular if any two clock readings are less than that apart |
| Workflow.Instance.constructor | kernel/workflow.py:291-302 | a started instance is running at its first step with nothing done, and valid if step ids are distinct |
| Workflow.Instance.ExecuteStep | kernel/workflow.py:363-525 | whatever the status: ends in a pause, a failure with its cause, or completion of exactly the current step; which handler calls ran, that all but the last raised, the attempts booked, and that other steps' attempts are untouched; a success is recorded once as result and event, only an exhausted step is compensated; a valid running instance stays valid, so handler runs stay within max(1, max_attempts) and gated steps run only after approval |
| Workflow.Instance.RunAttempt | kernel/workflow.py:431-525 | one attempt and the retries after it: success moves on, denial and exhaustion fail |
| Workflow.Instance.ExecuteGated | kernel/workflow.py:384-388 | in every state a gated step's handler runs exactly if the step was attempted before; from a valid state that is without its approval exactly if the instance is paused at it, or has failed without its approval |
| Workflow.Instance.RetryGate | kernel/workflow.py:152-186 | executing a gated step a second time, as the planner's retry does, runs its handler though nobody approved |
| Workflow.Instance.RetryTwoGates | kernel/workflow.py:152-186 | of two gated steps in a row, executed three times without approval, the first one's handler runs and the second gate holds though the instance was paused |
| Workflow.Instance.ExecuteUnwired | kernel/workflow.py:405-419 | a gateway step without a gateway runs no handler; it fails the instance, or waits for approval first |
| Workflow.Instance.Enter | kernel/workflow.py:381-419 | whatever the status, the first attempt of a gated step pauses, a gateway step without a gateway fails, anything else may run its handler; from a valid running instance once more within its bound |
| Workflow.Instance.Advance | kernel/workflow.py:620-628 | the id after the first step with the current id becomes current; with distinct ids completed steps stay a prefix of the step list |
| Workflow.WalkStops | kernel/workflow.py:614-628 | with handlers that succeed, a workflow has come to its end after n steps exactly if no step id occurs twice and there are at most n steps |
| Workflow.Instance.ExecuteMany | kernel/workflow.py:363-525 | n executions of a fresh instance whose handlers always produce, with no gates, follow that walk: completed exactly when all steps had their turn, and with a repeated id running for ever |
| Workflow.Instance.Drive | kernel/workflow.py:145-151 | the driver terminates; on record are its executions of the steps from the current one on, as the handlers' answers make them, up to the first that does not succeed; the artifacts are theirs, in order; the instance is left completed, paused at a gate, or failed for the recorded cause, and running exactly when the workflow is empty; if all handlers produce, nothing is gated and no gateway is missing, it is completed |
| Workflow.Instance.DriveOnce | kernel/workflow.py:149-150 | one turn of the driver extends the record |
| Workflow.Instance.Approve | kernel/workflow.py:528-544 | refused unless paused; approval opens the current gate and drives on, with the same record; rejection fails, with the step's compensation if it declares one |
| Workflow.Instance.Compensate | kernel/workflow.py:547-567 | runs the compensation order, one handler call each, records those that produce, and fails the instance |
| Workflow.BackwardsIsMirrored | kernel/workflow.py:559-562 | the order of compensation is the declared order mirrored |
| Workflow.CompensationExactly | kernel/workflow.py:557-566 | the order is the declared, existing targets of all earlier steps, mirrored, and last the failed step's own; nothing for an unknown step |
| SwarmCoordinator.Elect | kernel/swarm.py:190-193 | the winner is the healthy member with the greatest id, or none if nobody is healthy |
| SwarmCoordinator.BelowExactly | kernel/swarm.py:190-193 | ids are compared as text: a proper prefix comes first, otherwise the first difference decides |
| SwarmCoordinator.WinnerUnique | kernel/swarm.py:190-193 | an election has one possible winner |
| SwarmCoordinator.Coordinator.CreateSwarm | kernel/swarm.py:134-139 | always a new empty swarm |
| SwarmCoordinator.Coordinator.RunElection | kernel/swarm.py:185-203 | installs the winner and touches nothing else |
| SwarmCoordinator.Coordinator.Join | kernel/swarm.py:141-168 | the agent becomes a healthy member; a leaderless leader-worker swarm gets a leader; every leader stays a member that is not unhealthy |
| SwarmCoordinator.Coordinator.Leave | kernel/swarm.py:170-182 | a leaving leader is replaced by election, any other leader stays |
| SwarmCoordinator.Coordinator.Heartbeat | kernel/swarm.py:219-235 | heals the agent in every swarm where it is a member on that node, and changes no leader |
| SwarmCoordinator.Coordinator.SweepMember | kernel/swarm.py:241-258 | one member judged in mid-sweep, with a re-election if the leader timed out, keeps the sweep's invariant |
| SwarmCoordinator.Coordinator.SweepSwarm | kernel/swarm.py:241-258 | whatever the order of visits: health judged by age, a leader in time stays, a leader found afterwards beat within the failure timeout, a new one was healthy before and outranks all who are healthy afterwards, and a lost leader is unreplaced only if nobody is healthy |
| SwarmCoordinator.Coordinator.SweptHealth | kernel/swarm.py:241-258 | unhealthy afterwards are those who were so or timed out, healthy those who were so and are in time |
| SwarmCoordinator.Coordinator.CheckPartitions | kernel/swarm.py:237-259 | the same for all swarms at once, and the report names exactly the agents that timed out |
| VaultSpec.CacheKeyExact | kernel/config_vault.py:97-98 | for scope ids whose names are equal or apart two cache keys agree exactly when scope, key and name agree |
| VaultSpec.CacheKeyInjective | kernel/config_vault.py:97-98 | for ids of a separate set the cache key determines the setting |
| VaultSpec.ColonFreeSeparate | kernel/config_vault.py:97-98 | ids without colons, other than the default names, are separate |
| VaultSpec.ClashExactly | kernel/config_vault.py:97-98 | settings under two different scope ids can share a key exactly when the ids have the same name or one name followed by a colon begins the other |
| ConfigVault.Misread | kernel/config_vault.py:110-160 | where two addresses share a cache key, a value set under one is what a read of the other returns |
| ConfigVault.StoreMisread | kernel/config_store.py:110-153 | over a store, what was set without an id is read under "__global__" once the cache is lost |
| VaultSpec.ResolveGivesLast | kernel/config_vault.py:208-333 | over any run a secret resolves to the last value set or rotated, for any cipher whose decryption undoes its encryption, and is not found exactly if none was |
| VaultSpec.GetGivesLastWrite | kernel/config_vault.py:110-183 | over any run a read gives the last write unless deleted since |
| VaultSpec.ListingGivesWritten | kernel/config_vault.py:185-205 | over any run a key is listed exactly if a slot of the scope with the key was written and not deleted since or, where deleted ones are asked for, ever written |
| VaultSpec.VersionsCount | kernel/config_vault.py:110-333 | a secret's version counts its sealings, and where nothing was sealed a setting's version counts its writes and deletions |
| VaultSpec.Isolation | kernel/config_vault.py:110-333 | operations on other addresses never change what a slot holds |
| ConfigVault.Found | kernel/config_vault.py:152-157 | what cache or store has for an address is what the specification has |
| ConfigVault.Written | kernel/config_vault.py:134-136 | writing through keeps cache, store and specification in agreement |
| ConfigVault.Vault.SetValue | kernel/config_vault.py:110-138 | for all ids, the exact new cache and rows with the version after the one found; for ids in use, the specified setting |
| ConfigVault.Vault.GetValue | kernel/config_vault.py:140-160 | for all ids, what the entry found shows, caching a store hit and changing nothing else; for ids in use, the specified value |
| ConfigVault.Vault.DeleteValue | kernel/config_vault.py:162-183 | for all ids, the exact new cache and rows; for ids in use, soft deletion with one version step in cache and store alike |
| ConfigVault.Vault.ListAll | kernel/config_vault.py:185-205 | exactly the keys of the requested scope |
| ConfigVault.Vault.PutSecret | kernel/config_vault.py:208-258 | for all ids, the exact new cache and rows of secret and marker with the version after the one found, refused without a cipher; for ids in use, as specified |
| ConfigVault.Rotate | kernel/config_vault.py:287-333 | rotation seals the new value with the next version |
| ConfigVault.Vault.Resolve | kernel/config_vault.py:260-285 | for all ids, decrypts what is found, or reports a missing secret or cipher; for ids in use, the specified answer |
| ConfigVault.Vault.ReloadAll | kernel/config_vault.py:336-354 | reloading changes no answer and caches everything stored |
| ConfigVault.Vault.Lookup | kernel/config_store.py:144-153 | cache first, then a copy of the store's row; for ids in use, what the specification has |
| ConfigVault.Vault.CacheMatchesStore | kernel/config_store.py:123-201 | whatever is cached the store has with the same value, version and flags |
| ConfigVault.RowRoundTrip | kernel/config_store.py:110-120 | an address survives the trip through a row's primary key exactly if its id is neither empty nor "__global__" |
| ConfigVault.Execute | kernel/config_vault.py:110-354 | every operation has the specified effect and answer, with or without a store |
| ConfigVault.Lockstep | kernel/config_vault.py:110-354 | a store-less and a store-backed vault give the same answers and versions over any run, with reloads and losses of cache anywhere |
| SimilarityGraph.Graph.FindSimilar | kernel/graph.py:129-145 | each node of the workspace at or above the threshold once, best score first |
| SimilarityGraph.Graph.AddNode | kernel/graph.py:86-127 | after every addition the adjacency is the all-pairs one: exactly one edge to each related node, with the similarity as score |
| SimilarityGraph.EdgesSymmetric | kernel/graph.py:108-126 | edges come in pairs with equal score and never loop |
| SimilarityGraph.OrderIrrelevant | kernel/graph.py:86-127 | the same nodes in any order give the same edges |
| Framing.DecimalRoundTrip | mcp/server.py:145 | the printed length parses back |
| Framing.FrameRoundTrip | mcp/server.py:141-162 | reading a frame gives its body back, whatever it contains, and leaves what follows |
| Framing.OtherHeadersIgnored | mcp/server.py:148-162 | other header lines before or after Content-Length do not change the message |
| Framing.AnyCase | mcp/server.py:156-157 | the header's name counts in any case |
| Framing.FrameCut | mcp/server.py:160-161 | a frame that breaks off within its body is reported and nothing delivered |
| Framing.StreamRoundTrip | mcp/server.py:141-162 | reading a stream of frames gives exactly the bodies sent |
| Framing.StreamInjective | mcp/server.py:141-162 | no two lists of bodies share a stream |
| Framing.Transport.Send | mcp/server.py:141-146 | appends the frame of the body |
| Framing.Transport.Receive | mcp/server.py:148-162 | the header loop and the exact read do what the reading function says, on every input |
| Framing.Transport.ReceiveAll | mcp/server.py:176-189 | the read loop ends and passes over what is not a message |
| Framing.Exchange | mcp/server.py:141-189 | what one side sends the other receives |
| Chunker.Split | kernel/chunker.py:41-66 | windows rejoin to the content, neighbours share exactly the overlap, each adds something new, and their number is 1 + ceil((n - size) / step), or 0 for no content |
| Chunker.CeilingLeast | kernel/chunker.py:47-65 | the rounded-up quotient is the least number of steps that reaches the end |

## Left out

- Replanning through a language model and the replanning rules other than the split of a failed step, and risk assessment: easy assignments, or text from outside.
- An executor or step handler that is cancelled or raises out of the planner: the planner lets it pass through and the run has no result.
- DynamicPlanner.Planner.ExecutePlan: the link between the status and the steps' own success is stated for an executor that answers for the step it was given with outcome ids not used before; for others the exact journal and the status read from it are stated. Ids drawn for adapted plans are new.
- DynamicPlanner.Planner.Adapt: ids drawn for adapted plans differ from the running plan's.
- Workflow.Instance.Drive: stated for valid instances, hence for distinct step ids; with repeated ids the driver may run for ever.
- The driver that hands a workflow to the dynamic planner, beyond its treatment of approval gates.
- Sandboxed execution, input mapping and interpolation of step parameters, and seeding the vault from a workflow.
- ConfigVault.Lockstep: stated for scope ids of one separate set, without which it is false (`StoreMisread`), and for a store whose rows are copies; the in-memory store hands out its own entries, so a deletion there bumps the version twice. Record timestamps and the number returned by a reload are not modelled, and listings are sets.
- ConfigVault.Execute: stated for scope ids of one separate set; under a clash the single operations say what happens.
- ConfigVault.Rotate: stated for scope ids of one separate set, like `Execute`.
- ConfigVault.Vault.ListAll: the order of the returned list is not modelled; the keys form a set.
- Suspension inside a swarm operation: each operation runs as a whole, as it does when no event store is wired. Task delegation, load rebalancing and role assignment are not modelled.
- KnowledgeGraph.Engine.RunInference: the result records of fired rules are not modelled; rule actions other than the three named ones do nothing, like an alert.
- Fuzzy and vector similarity queries, and the numerics of cosine similarity: any symmetric measure is allowed. Loading and saving graphs.
- Framing.Transport.Receive: header lines are read one character per byte, so multi-byte header text and the failure on header bytes that are not UTF-8 are not modelled, nor the reader's line length limit; JSON encoding of bodies is left to the caller.
- Authentication, sessions, resource reads and dead letters of the gateway and the resilience engine: bookkeeping.
- Chunker.Split: the check of the settings when a chunker is built is its precondition.
