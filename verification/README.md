# Verified model of the component platform's core

This project models, in Dafny, the parts of the `agent_centric` package whose correctness
is argued rather than obvious, and proves what the code promises. `dafny verify
dfyconfig.toml` checks all of it.

## What is modelled

- **The closure engine** (`Rules`, `Stratification`, `Closure`, `PerfectModel`,
  `ClosureLaws`): unification, the backtracking join with negation, the bounded
  Bellman-Ford-style stratification, and the bounded fixpoint stratum by stratum. The
  reference form works on sets; the methods work on the ordered dictionaries. The closure
  is shown to be the one perfect model, returned exactly when it exists within the bound.
- **Ordering and the critical path** (`Digraph`, `Kahn`, `CriticalPath`, `CpmAnalysis`):
  three versions of Kahn's algorithm against one definition, the lexicographically least
  topological order; the two passes, slack and the critical chain against all dependency
  chains and all schedules. Durations are reals.
- **The flow engine** (`Ports`, `Flow`, `Schedule`, `FlowLaws`, `Network`): a network built
  up in place, validated, ordered, and run by moving packets through bounded FIFO
  connections, as a refinement of a recursive meaning of the graph, which is also said of
  the values alone. The driver is any function of task, arguments, verifier and child.
- **The reference resolver** (`References`): a depth-first visit with cycle detection, and
  the one order that it lists components in.
- **The agent protocol** (`AgentMachine`, `AgentTraces`, `AgentLaws`, `AgentTree`,
  `AgentRelays`, `AgentOrigins`, `AgentLinks`, `AgentAttribution`, `Agents`): one agent as a
  pure step machine, what holds of all its runs, what each directive is answered, the tree
  of agents over FIFO channels in every interleaving, where the work below the root and a
  verified answer come from, whose answer settles a delegation, and the agent and its
  envelope guard as objects proved to do exactly the machine's steps.
  Tasks and verifiers are arbitrary functions, given by a parameter; a task may raise, and
  so may a verifier, with an error that dispatch catches or with one that leaves the poll.
- **Replay** (`Driver`, `DriverLaws`, `DriverTree`, `ReplayAgreement`, `ReplayLaws`): a session as a
  numbered ledger of atomic round trips, each one a run of the agent tree; its replay on a
  fresh tree with the store paths in run arguments moved, and exactly when the replay passes
  and when it raises. Where a path moves is a parameter. Outcomes carry the terminal kind,
  the value and the reason of an error.
- **The n8n adapter** (`Projection`, `RoundTrip`, `Canonical`, `WorkflowFormat`, `Adapter`):
  export and import of designs as JSON-shaped values, with every refusal, the format key by
  key, exactly when a design comes back, and exactly when a workflow does. Python's `str()` is a parameter that is the identity on
  strings.
- **The authored-fact store** (`Store`): an append-only log, a derived index and a closure
  cache. Canonical JSON and its digests are a parameter: reading undoes writing, and
  different documents have different addresses.

`Names` holds the order of Python strings and `Wrappers` the two result types.

## Where the code falls short of what it promises

- A task that returned is not always invoked only once for its correlation id: when its
  verifier raises, the answer is not cached and a repeat of the directive invokes it again
  (`AgentTraces.RaisingVerifierRunsTwice`). A task that returned is invoked once exactly
  when its verifier gives a verdict (`AgentTraces.InvokedAgainExactly`).
- A child's answer is matched to a delegation by correlation id alone, so when an id is
  forwarded to another child while the first still owes an answer, the first answer can
  stand in the second's place and the second's is dropped
  (`AgentAttribution.AnotherChildAnswers`, and from every such tree
  `AgentAttribution.TakesAnothersPlace`). Every answer is its own child's exactly when that
  never happens (`AgentAttribution.AttributedExactly`).
- `to_n8n` accepts an initial packet for a component that does not exist, and drops it
  without an error (`RoundTrip.StrayPacketIsLost`); the adapter's documentation promises a
  lossless round trip. A design comes back exactly when `RoundTrip.RoundTripExactly` says.
- `to_n8n(from_n8n(workflow))` is promised to reproduce the workflow. It need not, for
  instance under another name (`Canonical.RenamedWorkflowIsNotReproduced`); it does exactly
  for canonical workflows (`Canonical.ReproducedExactly`).
- Registering a callable puts it in the root's own registry at once, but replay provisions
  only the catalog, so a run that relies on registration alone does not replay
  (`ReplayLaws.UngrantedRunFails`), and one that ran before its task was registered may
  (`ReplayLaws.LateRegistrationFails`).
- A string passed to a task under "state" or "trajectory" is taken for a store path and
  moved by replay, so a task that uses the string itself does not replay
  (`ReplayLaws.RemappedRunFails`); other arguments are unchanged (`ReplayLaws.ReissuedExactly`).
  Exactly which runs pass is `ReplayLaws.RunPassesExactly`, and which sessions that register
  first, `ReplayLaws.ReplayPassesExactly`.
- A `configure_child` with an envelope is recorded with a payload that replay cannot pass
  on, so the replay raises (`ReplayLaws.EnvelopedSession`, for every such session
  `ReplayLaws.EnvelopedChildConfigureRaises`); `ReplayLaws.ReplayRaisesExactly` and, by the
  recorded session alone, `ReplayLaws.ReplayRaisesOnRecord` say when a replay raises at all.
- A rule that the constructors accept can still fail while deriving
  (`Rules.ValidRuleFailsExactly`).

## Model

| member | source | states |
|---|---|---|
| Rules.UnifyIsLeast | src/agent_centric/cbp/ontology_runtime.py:373-388 | Unification succeeds exactly when some extension of the bindings makes the pattern that value, and returns the least such extension, binding the pattern's named variable and nothing else. |
| Rules.MatchAtomIsLeast | src/agent_centric/cbp/ontology_runtime.py:391-396 | The same for a whole atom against a fact: the least extension under which the atom is that fact. |
| Rules.Env.UnifyInto | src/agent_centric/cbp/ontology_runtime.py:373-388 | The in-place unifier computes exactly that extension, and leaves the dictionary untouched when it fails. |
| Rules.Env.AtomMatches | src/agent_centric/cbp/ontology_runtime.py:391-396 | The in-place atom matcher agrees with the pure one; a failure can leave only the subject's binding behind (in the copy that the join throws away). |
| Rules.NegatedHoldsIsExact | src/agent_centric/cbp/ontology_runtime.py:399-403 | A negated atom is violated exactly when some fact is an instance of it; its unbound variables are existential. |
| Rules.JoinIsExact | src/agent_centric/cbp/ontology_runtime.py:406-420 | The backtracking join returns exactly the substitutions of the positive atoms' variables under which every atom is some fact. |
| Rules.SolutionsAreExact | src/agent_centric/cbp/ontology_runtime.py:406-425 | Join plus negation filter is sound and complete against the declarative notion of a solution. |
| Rules.RuleBindings | src/agent_centric/cbp/ontology_runtime.py:406-425 | The recursive search with a mutable environment collects exactly the solutions: partial bindings of failed branches never leak. |
| Rules.DeriveFits | src/agent_centric/cbp/ontology_runtime.py:428-460 | A derived fact is the head read under the solution, and every such fact is derived unless the head holds a wildcard. |
| Rules.ValidRuleFailsExactly | src/agent_centric/cbp/ontology_runtime.py:428-460 | For a rule that the constructors accept, deriving the head fails exactly when the head holds a wildcard or its subject variable is bound to a literal. |
| Stratification.StratifiableExactly | src/agent_centric/cbp/ontology_runtime.py:463-485 | A stratification exists exactly when no dependency cycle passes through a negated atom. |
| Stratification.SomethingIsForced | src/agent_centric/cbp/ontology_runtime.py:473-485 | While a height is below its least value, some head is forced upward by a body predicate that has already settled. |
| Stratification.RoundSettlesMore | src/agent_centric/cbp/ontology_runtime.py:473-485 | Each in-place relaxation round settles at least one more predicate for good, so one round more than there are predicates is always enough. |
| Stratification.Stratify | src/agent_centric/cbp/ontology_runtime.py:463-485 | The bounded relaxation returns exactly when there is no cycle through negation, and returns the pointwise least stratification. |
| Closure.OntologyFacts | src/agent_centric/cbp/ontology_runtime.py:488-501 | Lifting fails exactly when some term names the empty name, and otherwise lists exactly what the terms say, in the published vocabulary: a class its kind and its parents, a property its kind, its domains and its ranges. |
| Closure.LiftedExactly | src/agent_centric/cbp/ontology_runtime.py:488-501 | A fact is among the lifted facts of a list of terms exactly when one of them says it: each predicate name is written out, and a domain is never a range. |
| Closure.ClosureByAnyLeastHeights | src/agent_centric/cbp/ontology_runtime.py:522-544 | The outcome depends on the least stratification only as a set of heights, not on how it is stored or where the climb stops. |
| Closure.CanonicalListingIsUnique | src/agent_centric/cbp/ontology_runtime.py:546-550 | A set of assertions has one listing by canonical key. |
| Closure.ComputeClosure | src/agent_centric/cbp/ontology_runtime.py:504-550 | The imperative closure returns the reference outcome of the sets of assertions and rules, listed canonically, or the same kind of failure. Every returned closure holds the graph and all that the terms say, in at most 100000 assertions, and an empty name is always malformed. |
| PerfectModel.NegationIsStable | src/agent_centric/cbp/ontology_runtime.py:463-485 | While a stratum's fixpoint runs, no fact appears for a predicate that the stratum negates. |
| PerfectModel.ClosureIsPerfect | src/agent_centric/cbp/ontology_runtime.py:504-550 | A returned closure contains the base, is closed under every rule with negation read in the final result, is least stratum by stratum, and is within the bound. |
| PerfectModel.PerfectModelIsUnique | src/agent_centric/cbp/ontology_runtime.py:504-550 | There is at most one perfect model. |
| PerfectModel.ClosureExactly | src/agent_centric/cbp/ontology_runtime.py:504-550 | The closure is returned if and only if the program is stratifiable, the set is its perfect model, and base and model are within the bound. |
| ClosureLaws.ClosureIsDerivable | src/agent_centric/cbp/ontology_runtime.py:522-537 | A fact is in the closure if and only if it has a finite derivation from the base by rules whose negated atoms still fail in the final closure. |
| ClosureLaws.AnyStratificationGivesTheClosure | src/agent_centric/cbp/ontology_runtime.py:463-485 | Under every stratification, not only the least, the one perfect model is the closure. |
| ClosureLaws.OrderDoesNotMatter | src/agent_centric/cbp/ontology_runtime.py:506-544 | Reordering or repeating assertions, terms or rules changes neither the closure nor the kind of failure. |
| ClosureLaws.ClosureIsIdempotent | src/agent_centric/cbp/ontology_runtime.py:504-550 | Closing a closure gives it back, for every program that closed, negation included. |
| ClosureLaws.ClosureOfBetween | src/agent_centric/cbp/ontology_runtime.py:504-550 | Any facts between the base and its closure have that same closure. |
| ClosureLaws.ClosureIsMonotone | src/agent_centric/cbp/ontology_runtime.py:504-550 | Without negation the closure is extensive and monotone. |
| ClosureLaws.PartOfModelSucceeds | src/agent_centric/cbp/ontology_runtime.py:504-550 | Without negation, closing any part of a closure succeeds and stays inside it. |
| ClosureLaws.MergeGraph | src/agent_centric/cbp/ontology_runtime.py:701-708 | The merged graph holds exactly the fragments' assertions. |
| ClosureLaws.MergeOfClosures | src/agent_centric/cbp/ontology_runtime.py:701-711 | Without negation, closing the merge of closed fragments gives a model if and only if closing the merge of the raw fragments gives it. |
| Kahn.LeastOrderExactly | src/agent_centric/cbp/critical_path.py:197-217 | The least-ready-first order covers every node exactly when the graph is acyclic, and then it is topological. |
| Kahn.LeastOrderIsLeast | src/agent_centric/cbp/critical_path.py:197-217 | It is the lexicographically least of all topological orders. |
| Kahn.HeapOrder | src/agent_centric/cbp/critical_path.py:197-217 | Kahn with a heap, counts and parallel edges computes that order, whatever the insertion order. |
| Kahn.SortedListOrder | src/agent_centric/cbp/network.py:451-473 | Kahn with a list sorted again after each push computes the same order. |
| Kahn.AcceptsAcyclic | src/agent_centric/cbp/network.py:364-382 | Kahn with an unsorted stack and a counter accepts exactly the acyclic graphs. |
| CriticalPath.EarlyFinishIsHeaviestChain | src/agent_centric/cbp/critical_path.py:131-139 | Each early finish is the maximum total duration over the dependency chains that end at the activity. |
| CriticalPath.DurationIsHeaviestChain | src/agent_centric/cbp/critical_path.py:140 | The project duration is the maximum over all chains. |
| CriticalPath.SlackIsSpareTime | src/agent_centric/cbp/critical_path.py:148-156 | Slack is the duration less the heaviest chain through the activity, hence never negative. |
| CriticalPath.StartsBoundEverySchedule | src/agent_centric/cbp/critical_path.py:131-156 | Early and late starts are schedules that meet the duration, every schedule that meets it lies between them, and no shorter deadline can be met. |
| CpmAnalysis.ForwardPass | src/agent_centric/cbp/critical_path.py:132-139 | The forward pass satisfies the earliest-time equations at every activity. |
| CpmAnalysis.BackwardPass | src/agent_centric/cbp/critical_path.py:148-153 | The backward pass satisfies the latest-time equations at every activity. |
| CpmAnalysis.TyingDependencyIsCritical | src/agent_centric/cbp/critical_path.py:220-262 | A dependency whose finish ties a zero-slack activity's start has zero slack itself. |
| CpmAnalysis.CriticalPathTotal | src/agent_centric/cbp/critical_path.py:220-262 | Durations along a back-to-back critical chain add up to the early finish of its last activity. |
| CpmAnalysis.CriticalChain | src/agent_centric/cbp/critical_path.py:220-262 | The dynamic program returns a dependency chain of zero-slack activities, from time 0, back to back, whose total is the project duration. |
| CpmAnalysis.AnalyseCpm | src/agent_centric/cbp/critical_path.py:100-169 | The analysis succeeds exactly on valid acyclic input; its times and slacks are those of the passes; its critical path runs back from the first activity, in the least order, that finishes at the end, each time by the greatest-named dependency that finishes as the activity starts. Otherwise it fails over the first repeated id or bad duration, else over the first bad dependency, else over the cycle. |
| CpmAnalysis.ChosenPathIsUnique | src/agent_centric/cbp/critical_path.py:220-262 | There is only one such path, so ties leave nothing open. |
| Ports.EffectiveTypeIsBoth | src/agent_centric/cbp/flow.py:43-57 | Between compatible ports the one type that is enforced accepts a value exactly when both declared types do. |
| FlowLaws.ValuesHaveOneType | src/agent_centric/contracts/handoff.py:23-57 | A value matches its own type and "any" and no other, and the known types are those of some value. |
| FlowLaws.CompatibleExactly | src/agent_centric/contracts/handoff.py:40-48 | Two ports are compatible exactly when some value is of both their types. |
| FlowLaws.DefectsExactly | src/agent_centric/cbp/network.py:229-382 | A network is valid exactly when no edge, initial packet, stream or cycle of it is one that validation raises on; every ground is listed from the error's side. |
| FlowLaws.FlowExactly | src/agent_centric/cbp/flow.py:127-268 | The recursive meaning, said of the values alone: there is at most one family of values such that each component replied, verified, on its template, its initial packets and, at a wired port, what crossed the last edge into it (the field the edge names when the source's value is a mapping, else the whole value of a sole out-port, of both declared types), and something crosses every edge; it exists exactly when every component has a meaning, and is the meanings. |
| Flow.BoundedConnection.Send | src/agent_centric/cbp/flow.py:106-114 | A bounded FIFO takes a packet exactly when it is not full, at the back, and counts it. |
| Flow.BoundedConnection.Receive | src/agent_centric/cbp/flow.py:116-124 | It gives up the oldest packet exactly when it is not empty. |
| Flow.SortedOverlay | src/agent_centric/cbp/flow.py:209-235 | Receiving the in-ports in sorted order rather than edge order changes no argument. |
| Flow.InputsAreOverlay | src/agent_centric/cbp/flow.py:209-235 | Overlaying the received packets on template and initial packets gives the recursive meaning of the inputs, the last edge into a port winning. |
| Schedule.RunComponent | src/agent_centric/cbp/flow.py:209-268 | One scheduled component consumes one packet per in-edge and sends one per out-edge; it never meets an empty in-port or a full buffer, and fails only because its own task raised, went unverified, or gave an output that one of its edges does not carry. |
| Schedule.RunSchedule | src/agent_centric/cbp/flow.py:200-270 | Under every topological schedule the run succeeds exactly when every component has a recursive meaning; results are the meanings, every connection carried one packet and every buffer ends empty. A run that fails stops at the first component that does, names its reason, and keeps the meanings of those before it. |
| Schedule.ScheduleDoesNotMatter | src/agent_centric/cbp/flow.py:200-270 | Two topological schedules give every component the same value. |
| Network.ComponentNetwork.AddComponent | src/agent_centric/cbp/network.py:158-202 | A component is stored exactly when nothing in its id, port names or port types is malformed; a refused one changes nothing. |
| Network.ComponentNetwork.Validate | src/agent_centric/cbp/network.py:216-382 | Validation accepts exactly the networks that meet its edge, packet, conflict, stream and acyclicity conditions, that is, exactly those without a defect. |
| Network.ComponentNetwork.TopologicalOrder | src/agent_centric/cbp/network.py:446-473 | The order is refused exactly on an invalid network and is otherwise the lexicographically least topological order. |
| Network.ComponentNetwork.RunFlow | src/agent_centric/cbp/flow.py:140-270 | A run succeeds exactly on a valid network in port mode, within the step limit (512 if none is given), in which every component has a meaning, that is, which has a flow; its results are those meanings in least topological order and the values of the only flow, and a network that ran holds only components that adding accepts. Any other run is refused for the first reason there is, or stops at the first component that fails. |
| References.ListedIsSound | src/agent_centric/cbp/component_graph.py:84-108 | A list in which every reference precedes its parent contains all that is reachable from its members, and nothing there is broken or cyclic. |
| References.FaultyExactly | src/agent_centric/cbp/component_graph.py:110-150 | A component resolves exactly when it is locked and bundled and no referenced child is missing from the lock, no embedded one from the bundle; references are the referenced children of such components and nothing else. |
| References.SiblingOrderIsUnique | src/agent_centric/cbp/component_graph.py:133 | The children have one listing with embedded before referenced ones, each kind by target. |
| References.LeafwardIsReachable | src/agent_centric/cbp/component_graph.py:96-108 | The order of a component that is not broken lists exactly what is reachable from it, each component once. |
| References.SiblingsInOrder | src/agent_centric/cbp/component_graph.py:96-108 | In it, what lies below one reference of a component comes before what lies below no reference up to that one. |
| Names.LessExactly | src/agent_centric/cbp/component_graph.py:133 | The order of names is that of strings: a proper prefix first, else the smaller character at the first difference. |
| References.ComponentGraphResolver.Visit | src/agent_centric/cbp/component_graph.py:96-108 | The depth-first visit ends (the names being visited shrink the lock), adds to the order exactly what is new of the name's own order, and fails exactly over something broken. |
| References.ComponentGraphResolver.ResolveGraph | src/agent_centric/cbp/component_graph.py:84-150 | It succeeds exactly when everything reachable resolves and is acyclic, and lists precisely the reachable components, each once, children before parents, siblings by name, root last: the one order, whatever the walk met first. Each is listed with its declared children in sibling order. |
| AgentTraces.RelaysAreOwed | src/agent_centric/cbp/agent.py:362-416 | In every run the relays for a correlation id never outnumber the delegations for it. |
| AgentTraces.RelaysAreJustified | src/agent_centric/cbp/agent.py:389-456 | In every run each relayed response answered a delegation outstanding at that moment, and a verified one was accepted by the verifier then in force. |
| AgentTraces.AnsweredOnce | src/agent_centric/cbp/agent.py:671-744 | In every run, once an invocation was answered its correlation id is never invoked again. |
| AgentTraces.CachedAnswerIsForever | src/agent_centric/cbp/agent.py:682-690 | After any further run the same run directive gets the identical response and a different payload under its id is refused. |
| AgentTraces.InvokedAgainExactly | src/agent_centric/cbp/agent.py:671-744 | After a run directive invoked its task, some further run of the agent invokes the same correlation id again if and only if the task raised, or returned a value on which the verifier in force raises. |
| AgentTraces.UnansweredIsInvokedAgain | src/agent_centric/cbp/agent.py:704-744 | Such an invocation is repeated at once for the same directive exactly when the envelope still allows a step. |
| AgentTraces.RaisingVerifierRunsTwice | src/agent_centric/cbp/agent.py:728-744 | A concrete run in which a task that returned is invoked twice for one id, because its verifier raised before the answer was cached. |
| AgentTraces.BudgetsHold | src/agent_centric/cbp/agent.py:704-717 | In every run, invocations and new children since the last grant are within the step limit, and new children within the child limit. |
| AgentLaws.NamedVerifierHasTheSay | src/agent_centric/cbp/agent.py:693-728 | A run that names a verifier is answered alike under every default verifier. |
| AgentLaws.DefaultVerifierStandsIn | src/agent_centric/cbp/agent.py:693-728 | A run that names none, or the empty name, is answered as the same run that names the agent's default. |
| AgentLaws.RunAnswersExactly | src/agent_centric/cbp/agent.py:671-744 | A run that is new to the agent is answered with a value, verified, exactly when its task returned it for the directive's arguments and the callable under the verifier's name accepts it, and with an error exactly for the reasons listed, each with its condition; it gets no other answer, and one that does not reach its task changes nothing. |
| AgentLaws.RunLeaves | src/agent_centric/cbp/agent.py:671-744 | A run that reaches its task costs one step; its answer is kept under the directive when it is a verdict, and any other answer, or none, leaves nothing behind. |
| AgentLaws.SpawnAnswersExactly | src/agent_centric/cbp/agent.py:875-976 | A spawn makes a child exactly when there is room, the name is new and nothing refuses it; a name that is there already is answered ok at no cost; a refusal after the charge keeps the charge; every error has its condition. |
| AgentLaws.ConfigureSets | src/agent_centric/cbp/agent.py:564-595 | Negative bounds change nothing; otherwise bounds are granted afresh, the verifier is cleared, set or kept, and the tasks and then the verifiers are registered up to the first name that the catalog does not have, which is the failure. |
| AgentLaws.RegisteredResolves | src/agent_centric/cbp/agent.py:624-669 | A name registered with a source resolves to it, without one to an error, and can no longer be run; every other name resolves and runs as before. |
| AgentLaws.UnknownDoesNotResolve | src/agent_centric/cbp/agent.py:624-669 | An empty name is refused for registering and resolving, an unknown one does not resolve, and neither changes anything. |
| AgentLaws.PingChangesNothing | src/agent_centric/cbp/agent.py:527-533 | A ping is answered ok and garbage with an error under a fixed id; neither changes anything. |
| AgentLaws.KilledIsSilent | src/agent_centric/cbp/agent.py:172-192 | After a kill an agent has no children and answers nothing, whatever arrives. |
| AgentLaws.NamedChildGetsTheRun | src/agent_centric/cbp/agent.py:362-387 | A run that names a child goes to it whole but for the name and is owed an answer; if there is no such child it is refused and not done here either. |
| AgentLaws.OthersAreAnsweredHere | src/agent_centric/cbp/agent.py:489-507 | A run that names no child, or the empty name, is answered by the agent itself, as it stands. |
| AgentLaws.AcksCarryNothing | src/agent_centric/cbp/agent.py:1072-1097 | Acknowledgements and garbage from a child send nothing up and change nothing, unless the empty id is owed an answer. |
| AgentLaws.ResponsesGoUp | src/agent_centric/cbp/agent.py:389-456 | A child's response goes up once for what it is owed for: unchanged unless it breaks the protocol or the default verifier rejects its value, then as an error; nothing goes up when the verifier raises. |
| AgentTree.ReachableIsOk | src/agent_centric/cbp/agent.py:362-387 | In every reachable tree, agents sit at most one level below the root and only run directives that name no child wait on their channels. |
| AgentTree.NothingIsDelegatedTwice | src/agent_centric/cbp/agent.py:1036-1052 | In every interleaving, agents below the root never forward, relay or spawn: a forwarded directive is never delegated again. |
| AgentTree.EveryAgentIsSafe | src/agent_centric/cbp/agent.py:362-507 | In every interleaving of the tree, relay justification, relay counting, single invocation and budgets hold of each agent. |
| AgentOrigins.ChildrenDoWhatWasInjected | src/agent_centric/cbp/agent.py:1036-1066 | In every interleaving, a directive that waits on a child's channel, or that a child was handed, was injected at the root under the same id, with the same task, arguments and verifier, addressed to that child; only the address is gone. |
| AgentOrigins.VerifiedRelayIsComputed | src/agent_centric/cbp/agent.py:362-456 | In every interleaving, a verified response that the root relays answers a directive that was injected under its id, addressed to the child that the response names: that child was handed it, its task returned this value for the injected arguments, and the value passed the injected verifier, or the child's own if none was named. |
| AgentAttribution.AttributedExactly | src/agent_centric/cbp/agent.py:362-420 | Over every run: an id is never forwarded to another child while an earlier one still owes an answer under it, if and only if at every point, in every continuation that does not forward the id again, every answer taken for a delegation comes from the child that the delegation names. |
| AgentAttribution.StraightExactly | src/agent_centric/cbp/agent.py:389-420 | From every reachable tree, every continuation that does not forward the id again attributes every answer rightly if and only if whoever owes an answer under the id now is whom the delegation names. |
| AgentAttribution.UncrossedRelaysAreAttributed | src/agent_centric/cbp/agent.py:404-456 | In a run that never so crosses, whatever the root relays under the id, verified, demoted or an error, was taken from the child that the outstanding delegation names. |
| AgentAttribution.TakesAnothersPlace | src/agent_centric/cbp/agent.py:404-456 | From every reachable tree with a living root in which one child owes an answer while the delegation names another, some continuation takes that answer in the other's place, relaying it unless the root's verifier raises on it, and drops what the other still owes. |
| AgentAttribution.AnotherChildAnswers | src/agent_centric/cbp/agent.py:404-420 | A run from the initial tree in which that happens: two children are spawned and one id is forwarded to both. |
| Agents.CheckIsExact | src/agent_centric/cbp/envelopes.py:121-159 | From within its bounds the guard refuses exactly the directive whose recording would leave them. |
| Agents.EnvelopeGuard.CheckDirective | src/agent_centric/cbp/envelopes.py:121-153 | The check refuses exactly when the step bound, or for a spawn the child bound, is used up, and names that bound. |
| Agents.Agent.Configure | src/agent_centric/cbp/agent.py:564-614 | The object grants, sets the verifier and registers names as the machine's configure step does, stopping where it stops. |
| Agents.Agent.RunTask | src/agent_centric/cbp/agent.py:671-744 | The object answers, charges, invokes and caches exactly as the machine's run step, of which `AgentLaws.RunAnswersExactly` says what is answered. |
| Agents.Agent.Spawn | src/agent_centric/cbp/agent.py:875-976 | The object refuses, charges or makes a child exactly as the machine's spawn step. |
| Agents.Agent.Dispatch | src/agent_centric/cbp/agent.py:362-387 | The object forwards, refuses or handles a directive exactly as the machine's dispatch step, of which `AgentLaws.NamedChildGetsTheRun` says what is forwarded. |
| Agents.Agent.DrainChild | src/agent_centric/cbp/agent.py:389-456 | The object relays exactly what the machine's drain step relays. |
| Agents.Agent.ServiceAll | src/agent_centric/cbp/agent.py:305-360 | After any sequence of events the object is in the state, and has done the effects, of the machine's run, so the run theorems hold of it. |
| Driver.SeqOfCorrelation | src/agent_centric/cbp/driver.py:271-273 | The number of a correlation id can be read off it whatever its prefix, so ids with different numbers differ. |
| Driver.CbpDriver.NextCorrelation | src/agent_centric/cbp/driver.py:271-273 | Every id is new: its number is one more than the last. |
| Driver.CbpDriver.Roundtrip | src/agent_centric/cbp/driver.py:298-382 | A round trip records the directive under a new id, lets the tree act, and completes the record with the outcome: terminal kind, value and error reason. |
| Driver.CbpDriver.Perform | src/agent_centric/cbp/driver.py:739-854 | Registering changes the tree and records nothing; a configure with invalid bounds is refused before it is recorded; anything else is one recorded round trip. |
| Driver.CbpDriver.Replayed | src/agent_centric/cbp/driver.py:633-735 | The replay loop re-issues the ledger on a fresh driver, with the store paths in run arguments moved, and returns the failures of the reference replay, or raises where it does. |
| DriverLaws.DriveRecords | src/agent_centric/cbp/driver.py:298-382 | Registering puts the callable in the catalog and the root's registry and records nothing; negative bounds record nothing; anything else takes the next number and is recorded last, with its kind in its id and its outcome. |
| DriverLaws.ReissuedMovesPaths | src/agent_centric/cbp/driver.py:1084-1106 | Replay moves exactly the strings under "state" and "trajectory" of a run's arguments; every other argument, field and operation is re-issued as it was. |
| DriverLaws.ChildConfigureRaisesExactly | src/agent_centric/cbp/driver.py:794-854 | Configuring a child raises exactly on negative bounds or a name that the catalog does not have. |
| DriverLaws.ReplayIssues | src/agent_centric/cbp/driver.py:664-725 | A replay that does not raise issues the recorded configures, spawns and runs, with their paths moved, in order, and nothing else; it fails only recorded runs. |
| DriverLaws.OneIsIssued | src/agent_centric/cbp/driver.py:676-725 | One recorded entry is issued under its replay name and the next number, or passed over; a failed run is listed last. |
| DriverTree.IssueIsTreeRun | src/agent_centric/cbp/driver.py:298-382 | Every recorded operation of the driver is a run of the agent tree (injected, handled by the root or forwarded to the child, handled there and drained): the agents end in the driver's states with nothing under way, and what the root newly said is the outcome. |
| DriverTree.SessionIsTreeRun | src/agent_centric/cbp/driver.py:298-382 | So a whole session on a fresh tree over any catalog, as every replay is, is a run of the agent tree. |
| ReplayAgreement.RunsAgree | src/agent_centric/cbp/agent.py:671-744 | On agents that agree on the names it looks up, the same run under two new ids ends the same (kind, value, error reason, verified) and leaves them alike. |
| ReplayAgreement.RunTreesMirror | src/agent_centric/cbp/agent.py:362-456 | The same through the tree, local or delegated and re-verified on the way up. |
| ReplayAgreement.CutAnswersAsExpected | src/agent_centric/cbp/agent.py:671-744 | On a tree whose root is cut down to the granted names a run answers what it answers on the full one if it rests on granted names, and otherwise that the task is unknown, that the missing verifier rejected it, or that the child's value is demoted. |
| ReplayAgreement.ExpectedSameExactly | src/agent_centric/cbp/agent.py:671-744 | An answered run answers the same there if and only if every name its answer rests on was granted. |
| ReplayAgreement.ConfiguredRegistry | src/agent_centric/cbp/agent.py:564-595 | A configure goes through exactly when its bounds are valid and all its names are in the catalog, and either way registers exactly the names before the first unknown one. |
| ReplayLaws.ReplayIsFaithful | src/agent_centric/cbp/driver.py:633-735 | Any session, registering whenever it likes, whose operations are replayable as issued (granted names mean then what they mean in the end; a run with its paths moved is expected to answer the same on granted names; a recorded child configure carries no envelope and names what will be registered as it is) replays without raising, rebuilds the recorded tree cut to what was granted, and fails exactly the runs recorded without a response. |
| ReplayLaws.RunPassesExactly | src/agent_centric/cbp/driver.py:685-725 | Once the replay has come faithfully so far, a run passes if and only if, with its paths moved, it is expected to answer on granted names what was recorded: without paths, exactly when every name its answer rests on was granted; and when the moved run rests on granted names, exactly when it would have answered the same in the session. |
| ReplayLaws.ReplayPassesExactly | src/agent_centric/cbp/driver.py:633-735 | A session that registers first replays without raising or failing if and only if every run got a response and every operation was replayable. |
| ReplayLaws.ReplayRaisesExactly | src/agent_centric/cbp/driver.py:664-685 | The replay raises if and only if it reaches a child configure that carries an envelope, or that names an unregistered callable for a child that exists. |
| ReplayLaws.ReplayRaisesOnRecord | src/agent_centric/cbp/driver.py:664-685 | For a session that registers first and whose other operations were replayable: the replay raises if and only if a recorded child configure carried an envelope or raised in the session itself. |
| ReplayLaws.EnvelopedChildConfigureRaises | src/agent_centric/cbp/driver.py:794-854 | Every session in which a child configure with an envelope was recorded makes its replay raise. |
| ReplayLaws.EnvelopedSession | src/agent_centric/cbp/driver.py:794-854 | Such a session: a spawned child is granted valid bounds, which takes effect, and the replay raises. |
| ReplayLaws.ReissuedExactly | src/agent_centric/cbp/driver.py:1084-1106 | When paths move, run arguments are re-issued unchanged if and only if there is no string under "state" or "trajectory". |
| ReplayLaws.RemappedRunFails | src/agent_centric/cbp/driver.py:685-725 | A granted task that returns the string it is passed under "state" succeeds in its session and fails in its replay. |
| ReplayLaws.LedgerIsOrdered | src/agent_centric/cbp/driver.py:664-673 | Numbers increase along the ledger, so sorting it by number changes nothing. |
| ReplayLaws.UngrantedRunFails | src/agent_centric/cbp/driver.py:419-438 | A task that was registered but never granted succeeds in its session and fails in its replay. |
| ReplayLaws.LateRegistrationFails | src/agent_centric/cbp/driver.py:655-685 | A configure that failed because its task was registered only later goes through on replay, so the run that found the task unknown fails. |
| RoundTrip.GroupsHoldAll | src/agent_centric/cbp/n8n_adapter.py:103-150 | Grouping edges or packets under distinct owners loses none and repeats none. |
| RoundTrip.RegroupingIsIdentity | src/agent_centric/cbp/n8n_adapter.py:236-243 | Sorting any arrangement of the numbered items by their order gives the original list. |
| RoundTrip.RoundTripExactly | src/agent_centric/cbp/n8n_adapter.py:83-296 | For every exportable design, importing its export gives it back if and only if component ids are distinct non-empty strings and every edge and packet endpoint is one of them. |
| RoundTrip.ImportIsStable | src/agent_centric/cbp/n8n_adapter.py:174-296 | For every workflow that imports, exporting the design and importing that gives the same design. |
| Canonical.ReproducedExactly | src/agent_centric/cbp/n8n_adapter.py:16-18 | For every workflow that imports, exporting the design gives the workflow back if and only if the workflow is canonical, a condition on the workflow alone: exact keys, computed ids and positions, entries in explicit ascending order, name from title or id. |
| Canonical.ExportIsCanonical | src/agent_centric/cbp/n8n_adapter.py:83-171 | Every exported workflow is canonical. |
| Canonical.RenamedWorkflowIsNotReproduced | src/agent_centric/cbp/n8n_adapter.py:166-200 | A concrete workflow that imports and is not reproduced: the empty design's under another name. |
| RoundTrip.StrayPacketIsLost | src/agent_centric/cbp/n8n_adapter.py:131-150 | An initial packet for no component, last in its list, vanishes: the export is the same without it and imports as a different design. |
| Adapter.ToN8n | src/agent_centric/cbp/n8n_adapter.py:83-171 | The exporting loops compute the projection, refusing exactly what it refuses: the result is the workflow that draws the design, if there is one. |
| Adapter.FromN8n | src/agent_centric/cbp/n8n_adapter.py:174-296 | The importing loops, sort and checks compute its inverse, refusing exactly what it refuses: the result is the design that the workflow is read as, if there is one. |
| WorkflowFormat.ExportedExactly | src/agent_centric/cbp/n8n_adapter.py:83-171 | A design is exported as a workflow exactly when the workflow draws it, a relation that spells out every key: nodes with their ids and positions, the entries that go to each in order and with their places, one slot for each source, and the metadata. |
| WorkflowFormat.ImportedExactly | src/agent_centric/cbp/n8n_adapter.py:174-296 | A workflow is imported as a design exactly when it is read as that design, a relation that spells out what each key may hold, which place every entry claims, what must be drawn, and every default. |
| WorkflowFormat.NodeReadsExactly | src/agent_centric/cbp/n8n_adapter.py:195-241 | Which component, edges and packets a node stands for, and exactly which nodes stand for any. |
| WorkflowFormat.ArrangedExactly | src/agent_centric/cbp/n8n_adapter.py:242-247 | The lists are put back together exactly when every entry is in the place it claims, every place is claimed and none is claimed twice. |
| WorkflowFormat.DrawsExactly | src/agent_centric/cbp/n8n_adapter.py:103-129 | The connections are exactly a slot for each source with one numbered hop for each of its edges, in order. |
| Store.GraphHashIsOfFacts | src/agent_centric/cbp/ontology_store.py:170-181 | The graph's address is a function of the set of facts and determines it. |
| Store.RowsDetermineFacts | src/agent_centric/cbp/ontology_store.py:249-279 | Two sets of facts have the same index rows exactly when they are the same. |
| Store.HonestEntryIsCurrent | src/agent_centric/cbp/ontology_store.py:281-319 | A cache entry made from a closure() result and found under the current address is the hash of the current facts' closure under the ontology with that hash and profile. |
| Store.OntologyStore.Append | src/agent_centric/cbp/ontology_store.py:109-127 | A line is appended exactly when the fact was new; the log only grows, one line for each new fact, and stays canonical and free of duplicates. |
| Store.OntologyStore.AppendAll | src/agent_centric/cbp/ontology_store.py:129-131 | Exactly the given facts are added: the lines that are not there already, in their order, after those that are; the count is the number of new lines. |
| Store.OntologyStore.Assertions | src/agent_centric/cbp/ontology_store.py:133-165 | The log is refused exactly when a line is not canonical or there are too many facts; otherwise its facts are listed canonically. |
| Store.OntologyStore.Closure | src/agent_centric/cbp/ontology_store.py:183-187 | The result is the closure of the recorded facts, under the profile id@version, or the failure of the log or of the closure. |
| Store.OntologyStore.Index | src/agent_centric/cbp/ontology_store.py:191-247 | Rebuilding succeeds exactly on a readable log and leaves, field by field, rows of exactly the recorded facts under the current address. |
| Store.OntologyStore.VerifyIndex | src/agent_centric/cbp/ontology_store.py:249-279 | The index is accepted if and only if it was built, the log is readable, and no new fact was appended since; each refusal has its own error. |
| Store.OntologyStore.CacheClosure | src/agent_centric/cbp/ontology_store.py:281-303 | A document is cached exactly when its address is the current graph's, under that address, its ontology hash and its profile; honest caches stay honest, and recording a closure changes no entry that is there. |
| Store.OntologyStore.CachedClosureHash | src/agent_centric/cbp/ontology_store.py:305-319 | A hit exactly when there is an entry for the current facts' address, the ontology hash and the profile, and it is that entry; when only closure() results were cached, it is the hash of what closure() would return now for the ontology with that hash and profile. |
| Store.OntologyStore.PerformAll | src/agent_centric/cbp/ontology_store.py:109-319 | Over any sequence of calls the log only grows, by the published facts, without duplicates; a cache entry changes only when something is cached under its key, and when only closures are recorded it never changes and stays honest. |
| Store.OntologyStore.RecordThenLookUp | src/agent_centric/cbp/ontology_store.py:281-319 | Once a document was cached, then after any calls that add no new fact, looking it up gives its hash, unless something else was cached under its key; when only closures were recorded, even then. |
| Store.CanonicalExactly | src/agent_centric/cbp/ontology_store.py:138-159 | A log is canonical exactly when every line is blank or the canonical line of some fact. |

## Left out

- Network.ComponentNetwork.Validate: networks with nested subnets and external ports are not modelled, so neither is the recursion into them and its depth limit.
- Network.ComponentNetwork.RunFlow: models `run_flow`; `run_network`, `run_stream` and `compile` are not modelled, and the static plan and the legacy runner do not agree with each other on source fields.
- Closure.ComputeClosure: the hashes and the profile of the returned document are left to `Store`; the overflow raised by the graph's own constructor is the same comparison on the deduplicated assertions.
- Rules.RuleBindings: variables and constants are told apart by constructors, as the contracts module does; error texts are not modelled anywhere, only their kinds.
- CpmAnalysis.AnalyseCpm: floating-point rounding of durations is not modelled; durations are reals.
- Kahn.HeapOrder: the heap is a list from which the least element is taken; the array layout of `heapq` is not modelled.
- Schedule.RunSchedule: the per-packet trace ids and audit sources of a flow are not modelled.
- Agents.CheckIsExact: the latency bound and the payload size cap are not modelled.
- Agents.EnvelopeGuard.CheckDirective: the latency bound and the payload size cap are not modelled.
- Agents.Agent.RunTask: the wording of error texts, sources and audit records are not modelled; which exceptions a verifier's failure belongs to is a parameter.
- Agents.Agent.Dispatch: state and audit directives and acknowledgements are not modelled.
- Agents.Agent.ServiceAll: events are serviced one at a time in any order; how a poll batches them, and acknowledgements, are not modelled.
- Agents.Agent.Spawn: the child is recorded by name; sockets, endpoint resolution and transport policy are one predicate that may refuse the endpoint. The tree of agents is modelled in `AgentTree` by values, without aliasing between parent and child objects.
- Agents.Agent.Configure: rules, state stores, trajectory stores and subclass hooks are not modelled, nor are the state and audit directives.
- AgentTraces.BudgetsHold: the latency bound and the payload size cap are not modelled.
- AgentTree.NothingIsDelegatedTwice: the tree has base agents only, so subclasses with their own handling are not covered.
- AgentOrigins.VerifiedRelayIsComputed: messages are not garbled on their way through the tree; what an agent does with a garbled one is modelled only for the single agent.
- AgentLaws.RegisteredResolves: a resolved capability is its source location; the name and kind that come with it are not modelled.
- Driver.CbpDriver.Roundtrip: a round trip is one atomic step; resending, polling and acknowledgements are not modelled, so neither is a directive that is delivered twice while its task keeps raising. Kill, ping, state and audit requests are not modelled as session operations.
- Driver.CbpDriver.Perform: registration from a source location, provider configuration and the ledger's durable store are not modelled.
- Driver.CbpDriver.Replayed: configure payloads carry no state and trajectory paths, so only run arguments are remapped; the report beyond the failed ids is not modelled.
- ReplayLaws.ReplayIsFaithful: error texts are compared by what they say (`AgentMachine.Reason`), not by wording.
- ReplayLaws.ReplayPassesExactly: for sessions that register callables after other operations only the sufficient half is proved, as `ReplayLaws.ReplayIsFaithful`; there a child configured before a name was registered may hold other names on replay, and runs may pass by what those happen to do.
- DriverTree.IssueIsTreeRun: registering a callable puts it in the root's registry outside the protocol and is no move of the agent tree.
- Adapter.FromN8n: an envelope's bounds given as a list of pairs are refused here and accepted by Python's `dict`.
- Canonical.ReproducedExactly: the same holds of it; the code rewrites such bounds on export, so it does not reproduce those workflows either.
- RoundTrip.RoundTripExactly: JSON numbers compare structurally, where Python also equates 0, 0.0 and False; an envelope's bounds given as a list of pairs are refused here and accepted by Python's `dict`.
- Store.OntologyStore.Index: file locking, permissions, SQLite files and a half-created database are not modelled; an index is absent or a set of rows.
- Transport, encryption, integrity trailers, asyncio, process isolation and persistence of ledgers.
- Projection of component graphs to facts, discovery, shape checking, and the diagram, activity, chat and bills modules.
