# G-LM: verified models of its algorithms with state

G-LM is a gateway in front of language models. Most of it is HTTP plumbing, but some components are real
algorithms whose state lasts over a whole run. This project models those components and proves what they
promise over every run. The upstream model is an arbitrary oracle: each call fails or answers with some
output and score, and nothing else is assumed of it.

| file | component |
|---|---|
| `Ranking`, `Pruning` | threshold, total-order sort and top-K, as a specification and as the executor's code |
| `MctsScore`, `MctsTree`, `MctsSearch`, `MctsBound`, `MctsSynthesis` | the MCTS mode: scores, the mutable tree, the rollout loop, its size, what is synthesised |
| `TreeOfThought`, `MultiAgent` | the two other modes that prune while they run |
| `Evaluation`, `ExecutorSettings` | the score range and the settings these modes rely on |
| `Inventory`, `Routing`, `PullProtocol` | the model router: pruning, choosing, background pulls |
| `RateLimit` | the token bucket |
| `MetaReasoning`, `Reflection` | evaluator, evaluator chain, reflection loop |
| `Canonical`, `SymbolicOverlay` | the symbolic artifact |
| `Chunking`, `ToolLoop`, `TokenBudget` | document splitter, tool-calling loop, token budgets |
| `Options`, `Text` | shared helpers |

Scores and risks are whole thousandths, since the code rounds them to three places; sums and quotients of
them are exact. Time is a parameter of each call. Text is ASCII, one `char` per byte. Go ranges over maps in
any order; where that can show, methods choose keys nondeterministically and the results hold for every choice.
Sorts that may reorder equal items are specified by order and contents alone.

Findings, each stated as a lemma with its exact condition or with a concrete input:

- A rollout that meets the depth limit is never followed by one that does not, so the rest of the budget is
  lost, and no budget buys more than 1, 4 or 13 simulations at depth 1, 2 or 3 (`MctsSearch.Search.Run`, `SimulationsAreBounded`).
- When no tree-of-thought branch passes the threshold, the trace counts every dropped branch twice; the
  counters balance exactly when some branch passes (`TreeOfThought.Execute`, `OneLowBranch`).
- The tuned MCTS formula yields not-a-number exactly when the parent was visited more than once and the variance
  outweighs the confidence term, which cannot happen while scores stay in range (`TunedScoreFails`,
  `ScoreIsNumber`).
- The exclusion of pulls can be lost. From a state that a run of two or more callers can reach, two pulls of one model can come to overlap
  without a further listing exactly when the in-flight entry is not set just while one caller holds it
  (`SafeExactly`); and a run stays clear of such states exactly when no reconcile lists the model while its
  entry is set (`SafeThroughout`). Every ordinary pull passes through one between its own listing and the
  deletion of its entry, so no pull has to be running at the listing (`OrdinaryListingBreaksExclusion`); a
  listing during a pull does it as well (`ListingBreaksExclusion`).
- The 30 second cool-down of pulls holds exactly when no caller starts a pull while the model is cooling although
  another was started since it looked (`SpacedExactly`, `InterleavedTriggersAreNotSpaced`).
- Inventory pruning that began with a disk reading has no regard for the count: it attempts every unprotected
  model exactly when no later reading is known to be at most the target, leaves only protected ones exactly when
  all deletions succeed too, and can so end below the configured number of models (`AllAttemptedExactly`,
  `OnlyProtectedRemainExactly`, `CountCanFallBelowMaximum`).
- Routing resolves the default through aliases and normal forms, protection compares names. The model the default
  is routed to is protected exactly when a protected name is its very id (`RoutedDefaultProtectedExactly`), no
  configuration protects it in every inventory (`NoConfigurationProtectsItsDefault`), and an alias or a
  differently written id is enough to expose it (`AliasCanBePruned`, `DefaultCanBePruned`).
- A reflection loop that ends in an error sends out the last revision adopted before it, and hides the error's
  reason exactly when the chain is on and nothing was adopted (`ErrorIsReported`, `ErrorAfterAdoption`,
  `HiddenError`).
- The document splitter returns empty chunks. For texts whose white space is blanks and line feeds, every size
  but 1 avoids them exactly when no white space is followed by a separator before the last character
  (`EmptyChunksExactly`); without such gaps no text has any (`NoEmptyChunks`); with size 1 they are the white
  space inside the text (`EmptyChunksOfOne`, `EmptyChunksHappen`).
- The symbol count of the artifact is exact only because repeated types are dropped first
  (`ReportedCount`, `RepeatedTypeMiscounts`).

## Model

| member | source | states |
|---|---|---|
| Ranking.PlaceInPrefix | internal/reasoning/executor.go:689-693 | cutting to K before inserting an item and cutting again loses nothing that cutting once afterwards would keep |
| Ranking.BestMembers | internal/reasoning/executor.go:676-696 | what pruning keeps is in order, passes the threshold, comes from the input, and is as long as K or the passing items allow |
| Ranking.BestDominates | internal/reasoning/executor.go:676-696 | no passing item that was dropped ranks before one that was kept |
| Ranking.BestExtends | internal/reasoning/executor.go:508-512 | pruning the kept items and one new one keeps what pruning everything seen so far would |
| Ranking.BestExtendsByBatch | internal/reasoning/multiagent.go:105-115 | the same for a whole round of new items |
| Ranking.StreamIsOneShot | internal/reasoning/executor.go:605-607 | for every sequence of items, append-then-prune after each one equals pruning all of them once |
| Ranking.BestOfBest | internal/reasoning/executor.go:528-533 | pruning the pool again to fewer items is pruning everything to fewer items |
| Ranking.KeptPasses | internal/reasoning/executor.go:676-696 | pruning the kept items and a new one drops for their score what pruning everything drops more |
| Ranking.BestHead | internal/reasoning/executor.go:659-674 | if anything passes, the head of what is kept has the highest score of all items |
| Pruning.SortIsUnique | internal/reasoning/executor.go:659-674 | with distinct indices the comparison admits one sorted arrangement, so an unstable sort has one result |
| Pruning.StableSort | internal/reasoning/executor.go:659-674 | a permutation of the input in strict comparison order |
| Pruning.PruneBranches | internal/reasoning/executor.go:676-696 | returns the best K of the branches that pass, by score and then by length or position, and counters that say what was dropped and why: in = out + dropped for score + dropped for K |
| Pruning.NumberedBest | internal/reasoning/executor.go:614-631 | numbering candidates by position, pruning the numbers and resolving them prunes the candidates with ties in arrival order |
| Pruning.PruneCandidates | internal/reasoning/executor.go:609-657 | the pool of both modes is the best K of its candidates: none that passes was dropped with a higher score than a kept one, or the same score and a longer output; each counter; without pruning it is unchanged |
| Pruning.UnstableSortFixesKeys | internal/reasoning/mcts.go:171-176 | however a sort by score and length orders equals, scores and lengths come out in one order |
| Pruning.KeysDetermineBest | internal/reasoning/multiagent.go:106-114 | the keys pruning keeps depend only on the multiset of keys it is given |
| MctsScore.ScoreIsNumber | internal/reasoning/mcts.go:340-361 | while 0 <= value <= visits, both formulas are numbers, infinite exactly for unvisited nodes, and the switch picks the formula |
| MctsScore.FewerVisitsScoreHigher | internal/reasoning/mcts.go:340-361 | of two visited nodes with the same mean and prior, the one with fewer visits scores strictly higher under both formulas, with any strictly rising logarithm and square root |
| MctsScore.HigherPriorScoresHigher | internal/reasoning/mcts.go:340-361 | with the same counters the higher prior scores strictly higher |
| MctsScore.LaterScoresHigher | internal/reasoning/mcts.go:340-361 | a visited node left alone while its parent is visited scores strictly higher and higher |
| MctsScore.UctWidth | internal/reasoning/mcts.go:340-347 | what the plain formula adds to mean and a hundredth of the prior, squared and times one more than the visits, is the squared exploration times the logarithm |
| MctsScore.TunedWidth | internal/reasoning/mcts.go:349-361 | the same for the tuned formula: mean, a fiftieth of the prior, and a width from the variance and its confidence, capped at a quarter |
| MctsScore.TunedScoreFails | internal/reasoning/mcts.go:349-361 | for any counters and visits, exactly when the tuned formula is not a number |
| MctsTree.BestIndexIsArgMax | internal/reasoning/mcts.go:282-305 | among numbers the loop picks the first child with the highest score |
| MctsTree.Tree.constructor | internal/reasoning/mcts.go:66 | the initial tree satisfies all invariants |
| MctsTree.Tree.ScoresAreNumbers | internal/reasoning/mcts.go:282-305 | in every valid tree all children have numbers as scores, so selection over children never comes back empty |
| MctsTree.Tree.SelectChild | internal/reasoning/mcts.go:282-310 | returns the arg-max child: of visited children with equal mean and prior one with the fewest visits, of those with equal counters one with the highest prior |
| MctsTree.Tree.PickedHasFewestVisits | internal/reasoning/mcts.go:282-310 | with positive exploration no visited child that has the same mean and prior as the one picked has fewer visits |
| MctsTree.Tree.PickedHasHighestPrior | internal/reasoning/mcts.go:282-310 | none with the same counters has a higher prior |
| MctsTree.Tree.PickedIsFair | internal/reasoning/mcts.go:282-305 | a visited child is only picked when no sibling is unvisited |
| MctsTree.Tree.SelectLeaf | internal/reasoning/mcts.go:265-280 | the chain is a strict parent-to-child path from the root, fair at every step, to a leaf without children |
| MctsTree.Tree.Expand | internal/reasoning/mcts.go:312-330 | adds one fresh unvisited child per action with normalised priors, changes nothing else, keeps all invariants |
| MctsTree.Tree.PriorsSumToOne | internal/reasoning/mcts.go:312-330 | the priors of freshly expanded children add up to one |
| MctsTree.Tree.Backpropagate | internal/reasoning/mcts.go:332-338 | exactly the nodes on the chain gain one visit and the score |
| MctsTree.Tree.Record | internal/reasoning/mcts.go:332-338 | backpropagating a first simulation keeps conservation, range and fairness at every node |
| MctsTree.Tree.SelectionUnmoved | internal/reasoning/mcts.go:84-87 | selection does not depend on the terminal mark |
| MctsTree.Tree.Simulate | internal/reasoning/mcts.go:83-155 | expand, simulate, backpropagate: the node simulated is always new, and only a success is counted |
| MctsTree.Tree.Rollout | internal/reasoning/mcts.go:79-157 | for any call outcome the invariants hold again (each node's counters are its own simulation plus its children's), skips happen exactly at the depth limit and change nothing selection sees, a path is never simulated twice, root counters count successes |
| MctsBound.TreeIsBounded | internal/reasoning/mcts.go:312-330 | a tree never has more nodes than the full tree of its depth limit |
| MctsBound.SimulationsAreBounded | internal/reasoning/mcts.go:79-157 | whatever the budget, simulation calls never exceed the inner nodes of that full tree |
| MctsSearch.ActionsDiffer | internal/reasoning/mcts.go:422-443 | every task has three different actions, ordered by positive priors that add up to one; which comes first and which values they have |
| MctsSearch.HighestIsMax | internal/reasoning/mcts.go:134-137 | the running best is the maximum of the successes |
| MctsSearch.HistoryNeverFalls | internal/reasoning/mcts.go:134-137 | the best-so-far history never falls |
| MctsSearch.StopsOnConvergence | internal/reasoning/mcts.go:519-530 | early stop fires exactly when the last window gained less than delta, and never with delta 0 |
| MctsSearch.Search.StopsAtConvergence | internal/reasoning/mcts.go:134-147 | a search stops early exactly at the first success at which the best score has converged |
| MctsSearch.Search.AcceptScore | internal/reasoning/mcts.go:134-147 | history and stop flag stay those of all successes, the flag raised by the last entry or never |
| MctsSearch.Search.AcceptCandidate | internal/reasoning/mcts.go:128-152 | the pool stays one-shot pruning of all successes; those that scored too low, those that passed but were cut, and what the prunings were given are each counted exactly |
| MctsSearch.Search.Step | internal/reasoning/mcts.go:79-157 | one loop turn keeps tree, pool, history and counters consistent and logs exactly what happened |
| MctsSearch.Search.Run | internal/reasoning/mcts.go:79-157 | over any turns: all invariants, no path attempted twice, once skipped always skipped, at most 1 + 3 * budget nodes, ends early only when converged or cancelled |
| MctsSynthesis.ResortedPoolKeys | internal/reasoning/mcts.go:171-183 | pruning an arbitrarily re-sorted pool keeps the keys of one-shot pruning |
| MctsSynthesis.OneShotHead | internal/reasoning/mcts.go:171-205 | the head of the one-shot answer has the highest score of the run |
| MctsSynthesis.Choose | internal/reasoning/mcts.go:159-205 | if some success passes, synthesis gets the one-shot keys and the best score is the maximum of all successes; otherwise exactly which baseline stands in; each counter after the last pruning |
| MctsSynthesis.ExecuteMcts | internal/reasoning/mcts.go:66-205 | the whole mode over any turns and baselines: best score is the maximum over all successes of the run if one is usable, every counter says exactly which successes it stands for, executed rollouts are the successes and within the depth bound, and it ended early exactly at the first convergence |
| TreeOfThought.RunBranches | internal/reasoning/executor.go:481-513 | after any calls the kept branches are the best K of all successes, and each counter accounts for its part of the rest |
| TreeOfThought.Execute | internal/reasoning/executor.go:481-561 | synthesis gets the top branches of those that pass, or of all when none does; never none after a success; each counter exactly, and they balance exactly when some branch passes |
| TreeOfThought.OneLowBranch | internal/reasoning/executor.go:518-547 | one branch below the threshold is synthesised and counted as dropped twice |
| TreeOfThought.FallBack | internal/reasoning/executor.go:518-547 | when none passes: the best of all successes, with every branch counted as dropped twice |
| MultiAgent.PoolGrows | internal/reasoning/multiagent.go:105-115 | appending a batch in any order and pruning again keeps the keys of pruning everything |
| MultiAgent.Gather | internal/reasoning/multiagent.go:80-132 | after any rounds the pool has the keys of one-shot pruning; it can only run empty in the first round |
| MultiAgent.Execute | internal/reasoning/multiagent.go:80-167 | for every arrival order, synthesis gets the keys of the best of everything accepted, or a baseline exactly when nothing passes |
| Evaluation.Evaluate | internal/reasoning/executor.go:835-863 | every score, under any settings, is a whole number of thousandths between 0 and 1 |
| Evaluation.ApplyPenalty | internal/reasoning/mcts.go:394-409 | a penalised score is one too |
| Evaluation.ApplyCurve | internal/reasoning/executor.go:936-952 | a curved score is one too |
| Evaluation.SignsAreWorth | internal/reasoning/executor.go:954-985 | what each sign in an output adds to its score or takes off |
| Evaluation.CurveAndPenalty | internal/reasoning/executor.go:936-952 | the curve weighs a score by its band, the penalty is taken off, both cut to the unit interval and rounded to within half a thousandth |
| Evaluation.AnchorsOnlyAdd | internal/reasoning/executor.go:846-862 | memory anchors add their bonus in proportion to the coverage exactly when there are some and enough are covered, and change nothing otherwise; without self-evaluation every output has one half |
| Evaluation.TextThenCurveThenPenalty | internal/reasoning/executor.go:835-845 | first the text, then the curve, then the penalty |
| ExecutorSettings.NormalizeTopK | internal/reasoning/executor.go:249-275 | configured values or defaults, positive, and synthesis never keeps more than the pool |
| ExecutorSettings.ResolveLimit | internal/reasoning/mcts.go:445-471 | rollouts and depth: the request's wish, or else the configured number, within 1 and the maximum |
| ExecutorSettings.ResolveWindow | internal/reasoning/mcts.go:494-503 | the early-stop window wished or configured, at least 2 |
| ExecutorSettings.ResolveDelta | internal/reasoning/mcts.go:505-517 | the early-stop delta wished or configured, between 0 and 0.2 |
| ExecutorSettings.ResolveExploration | internal/reasoning/mcts.go:473-485 | the exploration factor wished or configured, positive and at most 3, by default 1.2 |
| ExecutorSettings.NormalizePruning | internal/reasoning/executor.go:233-242 | pruning is on exactly when it is configured or all its numbers are zero |
| ExecutorSettings.Resolve | internal/reasoning/executor.go:226-275 | every mode runs under settings valid for it, whatever is configured, with pruning on in all of them or in none, and each with its own numbers or defaults |
| RateLimit.Limiter.constructor | internal/ratelimit/ratelimit.go:20-31 | defaults: 60 a minute, burst half of that but at least 1 |
| RateLimit.Limiter.Allow | internal/ratelimit/ratelimit.go:33-54 | decides as the bucket step does and changes the bucket of this key only, on a refusal as well |
| RateLimit.LazyRefill | internal/ratelimit/ratelimit.go:42-48 | refilling once equals refilling at any instant in between as well |
| RateLimit.BucketsStayInRange | internal/ratelimit/ratelimit.go:33-54 | over any run a bucket holds between 0 and burst tokens and dates from the key's last call |
| RateLimit.WindowInvariant | internal/ratelimit/ratelimit.go:33-54 | accepted in a window plus tokens left never exceed burst plus inflow |
| RateLimit.RateBound | internal/ratelimit/ratelimit.go:33-54 | in any window of length T a key gets at most burst + T * rpm / 60 requests |
| RateLimit.SpacedCallsPass | internal/ratelimit/ratelimit.go:33-54 | a call 60 / rpm seconds after the key's earlier ones is never refused |
| RateLimit.KeysAreIsolated | internal/ratelimit/ratelimit.go:33-54 | a key's bucket depends on the calls on that key alone |
| RateLimit.BurstAtOnce | internal/ratelimit/ratelimit.go:33-54 | at one instant a fresh key gets exactly burst requests through |
| RateLimit.RefusedExactly | internal/ratelimit/ratelimit.go:33-54 | a call is refused exactly when accepting it would put more calls on its key since some earlier one than burst plus the inflow since |
| RateLimit.RefusedLeavesNoTrace | internal/ratelimit/ratelimit.go:42-53 | leaving a refused call out of a run leaves the decision on every later call as it is |
| RateLimit.FullSince | internal/ratelimit/ratelimit.go:42-53 | at any time some earlier call explains the bucket: accepted since then plus tokens left are at least burst plus the inflow since |
| Inventory.ToAvailableMap | internal/orchestrator/router.go:487-496 | every id that is not blank is found under its lower-case form, and nothing else |
| Inventory.LastSpellingWins | internal/orchestrator/router.go:487-496 | of ids that differ only in case the last one is kept |
| Inventory.Router.PrunableModels | internal/orchestrator/router.go:660-684 | exactly the unprotected models, least recently used first |
| Inventory.Router.OrderFollowsUse | internal/orchestrator/router.go:660-684 | in every such order a model used at some time never precedes one never used, nor one used earlier |
| Inventory.Router.LastUsedIsLast | internal/orchestrator/router.go:660-684 | the model used last is the last of every such order, if it is there at all |
| Inventory.Router.CrowdedExactly | internal/orchestrator/router.go:608-627 | pruning starts above the high watermark of a disk that can be read, or else above the maximal number of models |
| Inventory.Router.EnoughExactly | internal/orchestrator/router.go:629-642 | with a first disk reading it stops at or below the target watermark, and never while the disk cannot be read |
| Inventory.Router.DeleteOldest | internal/orchestrator/router.go:628-651 | attempts are a prefix of that order, up to the first time the stop test holds; snapshot and ages lose exactly what was deleted |
| Inventory.Router.CleanInventory | internal/orchestrator/router.go:608-658 | nothing happens unless crowded; then the above, and rebuilding the snapshot changes nothing |
| Inventory.Router.ProtectedSurvive | internal/orchestrator/router.go:660-700 | a protected model is never deleted |
| Inventory.Router.NewestGoesLast | internal/orchestrator/router.go:660-684 | the model used last is only deleted after every other unprotected one was attempted |
| Inventory.Router.DeletedCount | internal/orchestrator/router.go:643-650 | each successful deletion removes exactly one model of the snapshot |
| Inventory.Router.CountGuard | internal/orchestrator/router.go:624-642 | without disk readings the count never drops below the maximum, and ends there unless every prunable model was attempted |
| Inventory.Router.AllAttemptedExactly | internal/orchestrator/router.go:629-642 | with a first disk reading, every prunable model is attempted exactly when no reading before an attempt is known to be at most the target |
| Inventory.Router.OnlyProtectedRemainExactly | internal/orchestrator/router.go:629-650 | then only protected models remain exactly when all deletions succeed besides |
| Inventory.Router.CountCanFallBelowMaximum | internal/orchestrator/router.go:617-650 | an inventory that ends below the maximum |
| Routing.LookupCanonical | internal/orchestrator/router.go:465-479 | an exact hit if there is one, else any match by normal form, nothing exactly when none matches |
| Routing.OneAnswer | internal/orchestrator/router.go:465-485 | without ids that differ only in case and punctuation a lookup has one answer in every map order |
| Routing.FindsItself | internal/orchestrator/router.go:465-479 | a model of the inventory looked up again is itself |
| Routing.ResolveDefault | internal/orchestrator/router.go:454-463 | the first alias that can be found, then the default itself |
| Routing.FirstUsable | internal/orchestrator/router.go:401-430 | the seen-set changes nothing: the result is that of a plain first-match scan over the same lookups |
| Routing.Decide | internal/orchestrator/router.go:232-283 | ideal, candidates, policy primary, then any allowed model, in this order of preference |
| Routing.RoutedIsSoundAndComplete | internal/orchestrator/router.go:205-283 | the choice is in the effective inventory and allowed, and there is none exactly when no such model exists |
| Routing.RoutingIsDeterministic | internal/orchestrator/router.go:205-283 | over an unambiguous inventory map order only shows in the last resort |
| Routing.IdealIsChosen | internal/orchestrator/router.go:225-231 | a configured ideal model that the inventory has and the policy allows is the choice, and nothing else is ever chosen as ideal |
| Routing.DefaultIsChosen | internal/orchestrator/router.go:233-252 | for a task other than the general one, when the ideal and every listed model are out, the model the default resolves to is the choice if it is allowed; for the general task only listed models are candidates |
| Routing.FallbackIsChosen | internal/orchestrator/router.go:233-252 | and when no name of the default can be found, the fallback default is, if the inventory has it and it is allowed |
| Routing.StripAt | internal/orchestrator/router.go:465-485 | lookups ignore colons, dashes, underscores and dots, and no other character |
| Routing.ChooseWithState | internal/orchestrator/router.go:205-283 | one request: sound, complete, marks the chosen model as used and nothing else, so that it goes last in every order of pruning; asks for a pull exactly when the ideal model is unusable |
| Routing.RequestedComeFirst | internal/orchestrator/router.go:205-217 | if the request lists any model only those count, otherwise the inventory does |
| Routing.MarkedGoesLast | internal/orchestrator/router.go:702-709 | marking a model at a time later than all others puts it last |
| Routing.RoutedDefaultProtectedExactly | internal/orchestrator/router.go:454-463 | whatever the aliases, the model the default resolves to is protected exactly when a protected name is its id in the inventory |
| Routing.NoConfigurationProtectsItsDefault | internal/orchestrator/router.go:686-700 | for every configuration there is an inventory in which that model is not protected |
| Routing.ProtectedExactlyByName | internal/orchestrator/router.go:686-700 | a protected name shields, of the models it can itself resolve to, exactly the one of that very name |
| Routing.DefaultCanBePruned | internal/orchestrator/router.go:454-485 | an inventory in which the model the default resolves to is unprotected |
| Routing.AliasCanBePruned | internal/orchestrator/router.go:454-463 | an inventory with the default itself in which an alias of it is found first and is unprotected |
| PullProtocol.ExclusiveStep | internal/orchestrator/router.go:571-585 | every map operation but a listing reconcile keeps one holder per set entry |
| PullProtocol.ClaimExactly | internal/orchestrator/router.go:571-574 | claiming succeeds exactly when the entry is not set; a caller that comes too late has to look again |
| PullProtocol.OnePullAtATime | internal/orchestrator/router.go:560-606 | in every interleaving at most one pull of a model runs, as long as no reconcile lists it while its entry is set |
| PullProtocol.EntryExactly | internal/orchestrator/router.go:588-606 | the entry is set just while one caller holds it, throughout a run, exactly when no reconcile lists the model while it is set |
| PullProtocol.SafeExactly | internal/orchestrator/router.go:560-606 | in every reachable state: no interleaving without a further listing leads to two pulls at once exactly when the entry is set just while one caller holds it |
| PullProtocol.LooseOverlaps | internal/orchestrator/router.go:560-606 | from every other state some interleaving without a listing does |
| PullProtocol.SafeThroughout | internal/orchestrator/router.go:588-606 | a run is safe at every moment exactly when no reconcile lists the model while its entry is set |
| PullProtocol.ListingBreaksExclusion | internal/orchestrator/router.go:588-606 | a run in which two pulls overlap |
| PullProtocol.OrdinaryListingBreaksExclusion | internal/orchestrator/router.go:575-584 | a run in which two pulls overlap though no pull was running when the model was listed |
| PullProtocol.StartKeepsDistance | internal/orchestrator/router.go:566-574 | a caller keeps 30 seconds from every start it could have seen |
| PullProtocol.FreshStartsWait | internal/orchestrator/router.go:566-574 | a caller that looked after the last start never starts while the model is cooling |
| PullProtocol.AtomicTriggersAreSpaced | internal/orchestrator/router.go:560-574 | with the trigger as one step any two starts of a run are 30 seconds apart |
| PullProtocol.SpacedExactly | internal/orchestrator/router.go:560-574 | in any interleaving the starts are spaced exactly when no caller whose look is outdated starts while the model is cooling |
| PullProtocol.InterleavedTriggersAreNotSpaced | internal/orchestrator/router.go:560-574 | a run that is not spaced |
| MetaReasoning.DecideAntitone | internal/metareasoning/evaluator.go:137-159 | for a fixed profile a higher risk never gives a better decision |
| MetaReasoning.DecidedExactly | internal/metareasoning/evaluator.go:137-159 | the exact risks from which each profile rejects, and up to which it accepts |
| MetaReasoning.StricterIsNoBetter | internal/metareasoning/evaluator.go:137-159 | at one risk and configuration strict never decides better than default, nor default better than fast |
| MetaReasoning.HalvesGoToEven | internal/metareasoning/evaluator.go:233-236 | a risk half-way between two thousandths is shown as the even one |
| MetaReasoning.SignalsCost | internal/metareasoning/evaluator.go:59-107 | what each signal of an answer adds to its risk, whatever the others |
| MetaReasoning.LengthCosts | internal/metareasoning/evaluator.go:59-107 | what length and hedging add |
| MetaReasoning.EmptyIsRejected | internal/metareasoning/evaluator.go:55-159 | an answer without words is rejected by every profile under every configuration |
| MetaReasoning.BetterDecisionLowerRisk | internal/metareasoning/evaluator.go:109-122 | a better decision never comes with a higher rounded risk |
| MetaReasoning.Accumulate | internal/metareasoning/evaluator.go:59-107 | the flags raised are those that hold, and the risk is their weights, the hedging and the shortness |
| MetaReasoning.Evaluate | internal/metareasoning/evaluator.go:55-122 | the result is the profile's judgement of that risk, clamped; the flags are the names of those that hold, sorted and without repetitions |
| MetaReasoning.ReportedFor | internal/metareasoning/evaluator.go:59-107 | exactly which flag is reported for what |
| MetaReasoning.UnflaggedIsNotRejected | internal/metareasoning/evaluator.go:55-159 | an answer without flags is never rejected, and accepted up to a threshold of 0.946 |
| MetaReasoning.EvaluateChain | internal/metareasoning/chain.go:28-92 | the nodes up to the first reason to stop: each has the base risk plus all bumps so far, capped, and risk + confidence = 1 |
| MetaReasoning.RiskNeverFalls | internal/metareasoning/chain.go:55-82 | from node to node the risk never falls |
| MetaReasoning.LowRiskStopsAtOnce | internal/metareasoning/chain.go:71-74 | a stop for low risk happens exactly when the first node's risk is at most 0.30, with depth 1 |
| MetaReasoning.NoImprovementMeans | internal/metareasoning/chain.go:75-81 | a stop for no improvement needs two nodes and a lens that found nothing, or a saturated risk |
| MetaReasoning.OneLens | internal/metareasoning/chain.go:94-136 | what each lens adds, by its name |
| MetaReasoning.LensDecides | internal/metareasoning/chain.go:94-136 | every lens decides at its own thresholds: accepted up to a risk of 0.28, or 0.18 if strict, rejected from 0.70, 0.64 or 0.58 on |
| MetaReasoning.PolicyStopsExactly | internal/metareasoning/chain.go:67-70 | a chain stops for policy exactly at its first policy lens that rejects |
| MetaReasoning.IdleLensStops | internal/metareasoning/chain.go:75-81 | from its second node on a chain goes on only past a lens that added at least 0.01 |
| Reflection.PassesFor | internal/http/server.go:1302-1326 | the last positive setting, the request's before the configured ones, between 0 and 4 |
| Reflection.Assess | internal/http/server.go:1078-1093 | an answer's evaluation, passed through the chain when it is on, or none if the evaluator crashes |
| Reflection.AdoptedIsBetter | internal/http/server.go:1458-1479 | adopting means exactly: decision no worse, risk no higher, and a better decision or 0.03 less risk |
| Reflection.Reflect | internal/http/server.go:1056-1128 | for any replies: the versions adopted improve one by one, every one but the last still triggered, at most the allowed passes, and how the loop ended fixes status and reason |
| Reflection.NeverWorse | internal/http/server.go:1069-1125 | over a whole loop rank never falls, risk never rises, and each pass without a better decision saves 0.03 |
| Reflection.ErrorIsReported | internal/http/server.go:1069-1125 | over any outcome: error status exactly when the last reply failed; the answer that goes out is the reply before it; the reason is reported exactly when there was one or the chain is off |
| Reflection.TriedExactly | internal/http/server.go:1056-1128 | exactly when the upstream is asked for a revision, by default after a caution or a rejection; and exactly which status each loop reports |
| Reflection.ReasonExactly | internal/http/server.go:1056-1128 | exactly which reason each loop reports, and that an adopted version the chain ends on is the last |
| Reflection.ErrorAfterAdoption | internal/http/server.go:1069-1125 | a loop that reports an error and sends out a revision |
| Reflection.HiddenError | internal/http/server.go:1120-1125 | a loop that reports an error without its reason |
| Canonical.LessIsTotal | internal/symbolicoverlay/extract.go:113-121 | the comparison of links, constraints and signals is total |
| Canonical.LessIsTransitive | internal/symbolicoverlay/extract.go:113-121 | and transitive |
| Canonical.BeforeExactly | internal/symbolicoverlay/extract.go:113-121 | strings are compared character by character, a prefix first |
| Canonical.LessExactly | internal/symbolicoverlay/extract.go:113-121 | keys part by part |
| Canonical.AscendingIsUnique | internal/symbolicoverlay/extract.go:345-385 | a strictly increasing list is determined by its members |
| Canonical.FirstSeenAscends | internal/symbolicoverlay/extract.go:345-385 | dropping repetitions from a sorted list leaves it strictly increasing |
| Canonical.SortDistinct | internal/symbolicoverlay/extract.go:113-122 | sorting in any way and dropping repetitions gives the one list of the keys |
| SymbolicOverlay.NormalizeTypes | internal/symbolicoverlay/validate.go:48-74 | distinct types, exactly those named, all when none is; an error exactly for unsupported names or only blanks |
| SymbolicOverlay.TypeNames | internal/symbolicoverlay/validate.go:48-74 | exactly which names stand for which type |
| SymbolicOverlay.ResolveMaxSymbols | internal/symbolicoverlay/validate.go:104-113 | the request's number, within a positive configured cap; else the cap, or 48 |
| SymbolicOverlay.BuildArtifact | internal/symbolicoverlay/extract.go:14-60 | the complete lists of the types in order, entities before links, cut to the cap as one list; a link only with all entities; and the truncation and cap flags on the way |
| SymbolicOverlay.CutAsOneList | internal/symbolicoverlay/extract.go:27-54 | what the budget leaves is a prefix of the complete lists put one behind the other |
| SymbolicOverlay.IncompleteThenEmpty | internal/symbolicoverlay/extract.go:27-54 | if a section is incomplete, every later one is empty |
| SymbolicOverlay.LinksNeedEntities | internal/symbolicoverlay/extract.go:97-140 | a logic map has a link only if it has all entities |
| SymbolicOverlay.FlagsExactly | internal/symbolicoverlay/extract.go:27-54 | a section is flagged as truncated exactly when the cap falls inside it, and the cap reported as reached exactly when the sections before some other use it up |
| SymbolicOverlay.UnflaggedExactly | internal/symbolicoverlay/extract.go:27-54 | no flag is raised exactly when the cap has room for all sections, and some left for the last one |
| SymbolicOverlay.UnflaggedIsComplete | internal/symbolicoverlay/extract.go:27-54 | without a flag every requested section is complete |
| SymbolicOverlay.ReportedCount | internal/symbolicoverlay/extract.go:55-59 | the reported count is the number of symbols present and at most the cap |
| SymbolicOverlay.RepeatedTypeMiscounts | internal/symbolicoverlay/extract.go:27-54 | with a repeated type the count is wrong |
| SymbolicOverlay.SectionsAscend | internal/symbolicoverlay/extract.go:97-224 | every list is strictly increasing |
| SymbolicOverlay.ArtifactIsCanonical | internal/symbolicoverlay/extract.go:14-60 | the artifact depends only on the set of source texts and the sets of keys read from each |
| Chunking.SplitChunks | internal/document/orchestrator.go:266-291 | terminates for every positive size and returns the trimmed pieces in order |
| Chunking.PiecesAreLossless | internal/document/orchestrator.go:276-289 | the pieces concatenate to the trimmed text |
| Chunking.PiecesAreWellCut | internal/document/orchestrator.go:278-286 | pieces are not empty and at most the size; each cut is before the window's last separator, or at full width when there is none past its first character |
| Chunking.NeighboursFillAWindow | internal/document/orchestrator.go:276-289 | two neighbouring pieces, the last aside, are together at least as long as the size |
| Chunking.FewPieces | internal/document/orchestrator.go:276-289 | so the number of pieces is bounded by twice the text length over the size |
| Chunking.NoEmptyChunks | internal/document/orchestrator.go:266-291 | for any size but 1: no chunk is empty if no white space of the trimmed text has white space or a separator right behind it |
| Chunking.EmptyChunksExactly | internal/document/orchestrator.go:266-291 | with blanks and line feeds as the only white space: every size but 1 avoids empty chunks exactly when no white space is followed by a separator before the last character |
| Chunking.EmptyChunksOfOne | internal/document/orchestrator.go:266-291 | size 1 avoids them exactly when the trimmed text has no white space |
| Chunking.EmptyChunksHappen | internal/document/orchestrator.go:266-291 | a text and a size for which the splitter returns an empty chunk |
| ToolLoop.RunCalls | internal/http/toolcalling.go:74-88 | one tool message per call, in order, and as many more calls counted |
| ToolLoop.ChatWithTools | internal/http/toolcalling.go:33-91 | every upstream call sees exactly the transcript so far; calls counted are tool messages added; an answer has no tool calls or no choice; at most the configured maximum of upstream calls, or 4, and exactly so many when it gives up |
| ToolLoop.TranscriptShape | internal/http/toolcalling.go:74-88 | the original messages, then per iteration the assistant message and the answers to its calls in order, and nothing else |
| ToolLoop.TranscriptFields | internal/http/toolcalling.go:53-88 | the assistant message keeps the upstream's words and calls under its trimmed role, each tool message carries what the tool returned, its name, and the call's id or a made-up one |
| ToolLoop.EveryIterationRunsTools | internal/http/toolcalling.go:70-72 | every finished iteration ran at least one tool |
| TokenBudget.RunRound | internal/reasoning/multiagent.go:313-332 | accepts exactly the outputs that still fit on arrival |
| TokenBudget.Estimate | internal/reasoning/multiagent.go:497-503 | 1 for nothing; else 8 and 1.3 a word, rounded down |
| TokenBudget.AcceptedFit | internal/reasoning/multiagent.go:313-328 | in every order of arrival the accepted outputs fit the budget |
| TokenBudget.RefusedDoNotFit | internal/reasoning/multiagent.go:322-324 | an output is refused exactly when it exceeds what is left at that moment |
| TokenBudget.NothingAccepted | internal/reasoning/multiagent.go:329-331 | a round fails exactly when each output alone exceeds the budget, whatever the order |
| TokenBudget.EverythingAccepted | internal/reasoning/multiagent.go:313-328 | all is accepted in every order exactly when all together fits |
| TokenBudget.RunRounds | internal/reasoning/multiagent.go:80-132 | tokens over all rounds never exceed the budget, and exactly why the loop ended: rounds used up, cancelled, no candidate left by pruning, consensus, or a round without a result |
| TokenBudget.DistinctIsDistinct | internal/reasoning/decompose.go:280-290 | the subtasks are the distinct trimmed entries that are not blank |
| TokenBudget.CollectSubtasks | internal/reasoning/decompose.go:292-330 | the first of them, up to the maximum |
| TokenBudget.RunSubtasks | internal/reasoning/decompose.go:57-104 | every worker call starts below budget, and calls stop early only when it is used up or on cancellation |
| TokenBudget.CostsOfCalls | internal/reasoning/multiagent.go:497-503 | what a finished or failed call costs, by its words |
| TokenBudget.OvershootIsLastCost | internal/reasoning/decompose.go:57-104 | the total overshoots by less than the last successful subtask's cost |
| TokenBudget.ResolveBudget | internal/reasoning/decompose.go:191-226 | the request's budget or the configured one: positive, at most the configured one, at least 200 unless that is less |

## Left out

- HTTP handlers, headers, JSON, audit strings, configuration loading and all network clients: only their outcomes appear, as oracles.
- Prompt texts and text heuristics (hedging terms, contradiction markers, tokenizing, regular expressions, task classification): arbitrary inputs.
- Floating-point rounding of sums, products and comparisons: arithmetic is exact; the logarithm and the square root are any functions that are not negative where the real ones are not, and strictly rising or a true root where a lemma says so.
- Evaluation.Round3: rounds ties up, where the formatting library rounds exact binary ties to even; MetaReasoning rounds them to even.
- Data races: every operation on shared maps, the limiter's mutex and the memory accumulator count as one atomic step.
- Memory anchors beyond their effect on a score, contradiction reports, geometry fusion, trace nodes and timestamps.
- MctsSearch.Search.Step: records a success after the tree has counted it, while the code appends it before; no step in between reads the other part.
- MctsSearch.Config: the threshold is a whole number of thousandths; any real threshold decides whole-thousandth scores like one of these.
- Pruning.StableSort: the library sort is modelled by an insertion sort, and only its contract is used.
- The maximum-visited depth, node identifiers and the reason strings of the MCTS trace.
- PullProtocol: follows the map entries of one model, since entries of different models never meet; real time is whole seconds.
- The retry of a failed reconcile and the timer with its jitter: a reconcile is an event that may come at any time.
- The reason strings of a routing decision, and explaining a decision without taking it, which resolves an ideal model equal to the default differently.
- Reflection.Assess: the evaluator is called once per answer; the code evaluates again inside the chain, with the same result.
- The symbolic and adversarial revision steps of a chat completion.
- SymbolicOverlay.BuildArtifact: takes the collected source texts as given; cutting documents to a character budget before that does depend on their order.
- SymbolicOverlay.FillSection: extracts both lists of a logic map before cutting them.
- MetaReasoning.EvaluateChain: the flags the lenses add are not modelled.
- Chunking.SplitChunks: works on ASCII text, so a cut inside a multi-byte character is not modelled.
- TokenBudget.RunRounds: knows outputs by their size only; what becomes of their scores is the matter of MultiAgent.
- MultiAgent: judging consensus is an arbitrary test; its sort by score alone is kept as a reordering of the pool.
- The decomposition mode's final pruning, which applies the same pruning once.
