# A verified model of a CDCL solver and its simplifiers

This project models the search engine of the solver and the components it relies on, and proves what they are for: that
every answer of the search is right, that every learned clause comes with a chain a proof checker accepts, and that each
simplifier changes the clauses without changing what they mean.

- **Search** (`SolverCore.dfy`). The engine is one class, as in the program, whose methods change its fields in place.
  `Snap()` is the whole search state as a value. What holds of states, and what each step does to them, is proved as
  lemmas in the modules beside it: the trail (`SearchState`), the watch lists and one visit of an entry (`Watching`,
  `Visiting`), what the trail implies (`Implication`), what an assignment rests on (`Causes`), conflict analysis
  (`Analysis`, `ImplicationPoints`, `Minimization`, `Removal`, `Learning`), proof chains and the log of a run
  (`ProofChain`, `Antecedents`, `ProofLog`), adding and deleting clauses (`Attaching`), answers (`Answers`), termination
  (`Ranking`), limits and the restart schedule's counters (`Coordination`), the loop and the epochs (`SearchLoop`), whole
  runs (`Runs`), the order of propagation (`Confluence`), probing and the lucky check (`Probing`) and stating clauses
  (`Stating`). A method equates the new state with a step of the state before, or states the invariant it keeps and the
  property it promises. An inprocessing epoch runs the subsumption pass of `ForwardSubsumer.dfy` on the engine's own
  clauses. `WholeSolve` joins a solve with the reconstruction of its model.
- **Branching heap** (`VarHeap.dfy`), with activities as real numbers.
- **Simplifiers**: bounded variable addition (`Factoring`, `Pairing`, `Factorizer`), subsumption (`CountingIndex`,
  `Subsumption`, `ForwardSubsumer`) and reduction of the binary implication graph (`ImplicationGraph`,
  `TransitiveReducer`).
- **Model reconstruction** (`Reconstruction.dfy`) and **local search** (`WalkState`, `LocalSearch`).
- **Examples** of the findings below: `LostHints`, `KeptReasons`, `MissedPartners`.

Literals are numbers, twice the variable plus the sign. An assignment is the set of true variables, a formula a set of
clauses. The clause store is a map from references to literal sequences with a redundant flag. What depends on clocks,
schedules, random numbers or effort percentages is an arbitrary choice, so every result holds for any schedule.

What is left to choice is bounded by what the program promises. A run is a sequence of moments, each led to from the one
before by propagation and one move (`Runs.Leads`): a restart is made exactly when one is due, a conflict or a decision
has to make it due, and a restart without a conflict since the last one undoes nothing. What a conflict teaches is fixed
by the state: the first unique implication point and the literals that are not derivable (`Learning.ExactlyLearned`). That
propagation may go through the watch lists in any order makes no difference: what it assigns, and whether it ends in a
conflict, is the same in every order (`Confluence`). Passes with an effort state how much of it they take, so that with
enough effort they are complete: probing, the reduction of the implication graph, and a factoring run that finds nothing.

## Findings

Three properties fail, each with an input and the exact condition.

- **A derived clause can reach the proof consumer with a hint missing.** The subsumption pass of an epoch reports a clause
  deleted, which retires its proof identity, even when it is the reason of a root literal
  (`source/library/src/kmx/sat/simplify/forward_subsumer.cpp:281-289`); such a clause stays in the store
  (`source/library/inc/kmx/sat/cdcl/clause/database.hpp:257-268`). A later conflict still resolves with it, and
  `learn_clause` leaves a reference without an identity out of the antecedents
  (`source/library/src/kmx/sat/cdcl/solver_core.cpp:1224-1229`). `Antecedents.EmittedAllCount` shows that no antecedent
  can be spared. So what the consumer is told checks over the clauses it knows **if and only if** every clause of the
  chain still has its identity (`HandleConflict`), and the log of a run checks if and only if no derivation has lost one,
  which needs a clause reported deleted that stayed (`Solve`, `ProofLog.DerivationOk`). Nothing derived is wrong for it:
  every derived clause follows from what the log was given before it. `LostHints.LostHint` runs epoch, decision, conflict
  and learning on six clauses: [b, x, y] is the reason of b at the root and is subsumed by [b, x].
- **A pass that skips marked pairs can miss a subsumption the full pass finds.** The comment at
  `source/library/src/kmx/sat/simplify/forward_subsumer.cpp:31-37` says that two clauses checked before cannot newly
  subsume one another. A marked clause that is deleted while it is a reason stays, keeps its mark, and from then on the
  clause that subsumes it carries the mark too. `Subsumption.CleanAfter` proves that after a pass no two marked clauses
  subsume one another **if and only if** it deleted no marked clause that stays as a reason; `KeptReasons.SecondPassMisses` is an
  example with two clauses. No result is wrong for it: a subsumed clause is kept.
- **The factorizer can miss a partner.** When `best_partner` returns nothing, `factor_literal` leaves its loop before the
  counts are cleared, and the next call clears the list of touched literals. A literal whose count was left standing is
  then never touched again and never chosen (`source/library/src/kmx/sat/simplify/factorizer.cpp:165-170, 198-261`).
  `Factorizer.BestPartner` proves that the literal with most matches is returned exactly when its count was zero before the
  search, and `MissedPartners.MissedPartner` factors two literals of ten clauses one after the other and misses a rectangle
  worth a clause. No result is wrong for it: the pass only saves less.

One branch is never taken. After an epoch `run_inprocess_if_due` provides for a unit clause that is false
(`source/library/src/kmx/sat/cdcl/solver_core.cpp:1387-1388`). The passes an epoch of this engine runs are forward
subsumption and the vivifier, whose `vivify_clause` proposes no change
(`source/library/inc/kmx/sat/simplify/scheduler/inprocess.hpp:68`, `source/library/src/kmx/sat/simplify/vivifier.cpp:36-50`).
They only delete and promote clauses, so every unit clause is still true and the branch cannot be reached:
`SolverCore.ResumeAtRoot` proves it, and with it that "satisfiable" means a model under every limit.

The program and its comments disagree in one more place: `source/library/inc/kmx/sat/simplify/factorizer.hpp:20-45` says
the fresh variable stands for some literal of the group. The clauses added make it imply all of them, and the model
follows the code: an old model extends by the conjunction.

## Model

| member | source | states |
|---|---|---|
| SolverCores.SolverCore.Solve | source/library/src/kmx/sat/cdcl/solver_core.cpp:45-205 | Every answer is right under every limit: "satisfiable" comes with a total assignment that holds all assumptions and is a model of the formula; "unsatisfiable" comes with a failed core, a part of the assumptions inconsistent with the formula, and with an empty core unit propagation alone refutes the clauses held. "Unknown" means that a limit was reached or that exactly the given number of restarts was made and another one is due, and comes with the whole run that led to it. A search starts only after probing, which with enough effort has left nothing to find or learned a unit in every round, and, without assumptions, after four lucky attempts that all failed. The log of the run checks exactly when no derivation lost a hint; when no clause reported deleted stayed, it checks and unit propagation refutes the clauses live in it. |
| SolverCores.SolverCore.RunSearch | source/library/src/kmx/sat/cdcl/solver_core.cpp:1407-1512 | The same, for the search alone, from any sound root state: the answer is that of a run of moves from the state in which the root units are true to the state at the end, or some root unit is false. |
| SolverCores.SolverCore.Loop | source/library/src/kmx/sat/cdcl/solver_core.cpp:1412-1511 | From the state before to the state after, every iteration is propagation and one legitimate move, the loop stops exactly after a learned clause or a decision that reaches a limit, and it ends for want of restarts only after making all of them. Between two restarts it ends: each iteration raises the rank of the assignment, places an assumption level, or uses up the opening walk, whatever clauses are reduced away. |
| Runs.UnknownMeans | source/library/src/kmx/sat/cdcl/solver_core.cpp:1407-1512 | A search without an answer was stopped by a limit, or has made as many restarts as its budget allows while another one is due. |
| Runs.LimitsSuffice | source/library/inc/kmx/sat/cdcl/controller/restart.hpp:33-46 | Under a limit on conflicts and one on decisions, as many restarts as both together are enough: the search ends with an answer or at a limit, since every restart takes a conflict or a decision of its own to become due. |
| Runs.RunRepresents | source/library/src/kmx/sat/cdcl/solver_core.cpp:1407-1512 | At every moment of any run, through learning, assumptions, decisions, restarts, reductions and epochs, the clauses held mean the formula: all follow from it, and it follows from the permanent ones. |
| Runs.RunCounts | source/library/src/kmx/sat/cdcl/search_coordinator.cpp:100-116 | Over any run the counters are the numbers of clauses learned, decisions and restarts made, and the run is told to stop exactly when one of them has reached its limit. |
| SolverCores.SolverCore.Step | source/library/src/kmx/sat/cdcl/solver_core.cpp:1409-1511 | One iteration is propagation followed by exactly one outcome: a conflict learned from, the next assumption, the opening walk, a restart that is due, a decision, or one of the ways a run ends. |
| SolverCores.SolverCore.ConflictStep | source/library/src/kmx/sat/cdcl/solver_core.cpp:1412-1427 | At the root the conflict is counted and answered; above it a clause is learned, and the run stops there exactly when it has been told to. |
| SolverCores.SolverCore.BeyondAssumptions | source/library/src/kmx/sat/cdcl/solver_core.cpp:1450-1511 | With the assumptions placed: the opening walk goes back to them; a restart is made exactly when one is due and there is one left; otherwise a decision, or "satisfiable". |
| SolverCores.SolverCore.RestartAndSimplify | source/library/src/kmx/sat/cdcl/solver_core.cpp:1475-1487 | With a conflict since the last restart the assignment goes back to exactly the levels that would be made again, and from there at most to the root and through an epoch; without one nothing changes and the restart is only counted. |
| SolverCores.SolverCore.NoteConflict | source/library/src/kmx/sat/cdcl/solver_core.cpp:1392-1397 | The conflict is counted, the limit checked, and at most every activity halved. |
| SolverCores.SolverCore.HandleConflict | source/library/src/kmx/sat/cdcl/solver_core.cpp:1412-1427 | After a conflict above the root: exactly the clause the conflict teaches has been added where it asserts and its first literal assigned; it is entailed by the formula, no clause held was part of it, and its hint chain is a valid LRAT step over the clauses held that can spare no hint. What the consumer is told, the part of the chain it knows, is valid over the clauses it knows if and only if it knows the whole chain. Exactly the variables that took part have been bumped. The rank grows. |
| SearchLoop.LearnedIsNew | source/library/src/kmx/sat/cdcl/solver_core.cpp:1203-1219 | No clause is learned twice: no clause held is part of the learned one, since at the backjump level every clause held is true or has two literals open. |
| SolverCores.SolverCore.TakeAssumption | source/library/src/kmx/sat/cdcl/solver_core.cpp:1429-1447 | The next assumption gets an empty level when true and is decided when open; when false, and only then, the conflict is counted and the run ends with exactly the assumptions the false one rests on, which contradict the formula. |
| SolverCores.SolverCore.DecideNext | source/library/src/kmx/sat/cdcl/solver_core.cpp:1489-1510 | Answers "satisfiable" exactly when every variable is assigned; otherwise the best open variable has been decided after at most a reduction, the decision is counted, and the run stops exactly when that reaches a limit. |
| SolverCores.SolverCore.Branch | source/library/src/kmx/sat/cdcl/solver_core.cpp:1495-1507 | The decision is on the open variable no other open one outranks (ties to the lower index), in its saved phase; none is made exactly when all are assigned. |
| SolverCores.SolverCore.RootConflict | source/library/src/kmx/sat/cdcl/solver_core.cpp:1399-1405 | The conflict is counted, and the answer is "unsatisfiable" unless the run has been told to stop. |
| SearchLoop.RunningConflict | source/library/src/kmx/sat/cdcl/solver_core.cpp:1203-1219 | Learning, backjumping and asserting keeps the invariant of the search and moves the assignment up in the lexicographic order of level sizes. |
| SearchLoop.RunningDecision | source/library/src/kmx/sat/cdcl/solver_core.cpp:1505-1507 | So does a decision. |
| SearchLoop.RunningSat | source/library/src/kmx/sat/cdcl/solver_core.cpp:1502-1503 | With nothing left to decide the assignment is a model of the formula and holds every assumption. |
| SearchLoop.RunningUnsat | source/library/src/kmx/sat/cdcl/solver_core.cpp:1412-1420 | A conflict at the root is one that unit propagation alone finds over the clauses held. |
| SearchLoop.RootRefutes | source/library/src/kmx/sat/cdcl/solver_core.cpp:1412-1420 | A clause false at the root: there is an LRAT step for the empty clause over the clauses held. |
| SearchLoop.RefutedHasNoModel | source/library/src/kmx/sat/cdcl/solver_core.cpp:1412-1420 | So the formula has no model. |
| SearchLoop.EpochKeeps | source/library/src/kmx/sat/cdcl/solver_core.cpp:1362-1390 | After an epoch that deletes, promotes and reorders but spares the reasons, with everything watched anew and the whole trail queued again, the root invariant holds for the same formula and every unit clause is still true. |
| Ranking.RankAfterProgress | source/library/src/kmx/sat/cdcl/solver_core.cpp:847-947 | Propagation never lowers the rank. |
| Ranking.LevelsBounded | source/library/src/kmx/sat/cdcl/solver_core.cpp:1429-1447 | There are never more levels than assumptions and variables together, so the rank is bounded. |
| SolverCores.SolverCore.ResumeAtRoot | source/library/src/kmx/sat/cdcl/solver_core.cpp:1385-1389 | After an epoch the root units are true already: nothing changes, and the branch for a false unit cannot be reached. |
| SolverCores.SolverCore.RunInprocessIfDue | source/library/src/kmx/sat/cdcl/solver_core.cpp:1362-1390 | Whatever the epoch did, the invariant and the watches hold for the same formula and nothing is counted, so the search goes on. |
| SolverCores.SolverCore.RunEpoch | source/library/src/kmx/sat/cdcl/solver_core.cpp:1362-1386 | The subsumption pass runs on the clauses held with the root reasons protected: a clause is left exactly when the pass did not delete it or it is a reason; the consumer is told of every deletion; the trail stays, the units stay true, and the trail is queued again from its beginning. |
| SolverCores.SolverCore.SubsumeClauses | source/library/src/kmx/sat/simplify/scheduler/inprocess.cpp:167-173 | What is left is what the specification of the pass leaves, equivalent to what there was. |
| SolverCores.SolverCore.ReportDeletions | source/library/src/kmx/sat/simplify/forward_subsumer.cpp:281-289 | The log gains one deletion for each clause the pass deleted, in order; a clause that stays all the same is noted. |
| SolverCores.SolverCore.Propagate | source/library/src/kmx/sat/cdcl/solver_core.cpp:847-947 | Without a conflict the watch invariant holds and nothing is queued; with one, the clause named is wholly false and only the list being scanned is unsettled. The trail only grows, within the current level, and each clause keeps its multiset of literals. |
| Watching.Fixpoint | source/library/src/kmx/sat/cdcl/solver_core.cpp:847-947 | With nothing queued every clause of two or more literals is satisfied or has two unassigned literals. |
| Confluence.Reached | source/library/src/kmx/sat/cdcl/solver_core.cpp:847-947 | Unit propagation is confluent: whatever one order assigns, a fixpoint reached in another order makes true. |
| Confluence.ConflictEveryTime | source/library/src/kmx/sat/cdcl/solver_core.cpp:847-947 | It ends in a conflict in every order or in none. |
| Confluence.FixpointsAgree | source/library/src/kmx/sat/cdcl/solver_core.cpp:847-947 | Two fixpoints from one trail over the same clauses agree on every literal. |
| Watching.BacktrackKeepsWatches | source/library/src/kmx/sat/cdcl/solver_core.cpp:826-845 | Undoing a level makes the watch invariant whole again, after a conflict as well. |
| Watching.RewriteKeepsWatches | source/library/src/kmx/sat/cdcl/solver_core.cpp:897-906 | Rewriting the scanned entry keeps one entry per watched literal. |
| Watching.MoveKeepsWatches | source/library/src/kmx/sat/cdcl/solver_core.cpp:913-921 | So does moving a watch to a literal that is not false. |
| Visiting.VisitMove | source/library/src/kmx/sat/cdcl/solver_core.cpp:908-921 | The scan invariant holds after the watch moved. |
| Visiting.VisitUnit | source/library/src/kmx/sat/cdcl/solver_core.cpp:923-931 | It holds after the other watch was forced. |
| Visiting.VisitConflict | source/library/src/kmx/sat/cdcl/solver_core.cpp:923-928 | A clause whose two watches and remaining literals are false stops the scan as a conflict. |
| Visiting.BlockedDone | source/library/src/kmx/sat/cdcl/solver_core.cpp:934-939 | Moving the unread tail down after a conflict loses no entry. |
| Logic.OtherWatch | source/library/src/kmx/sat/cdcl/solver_core.cpp:899-900 | The exclusive or of the watched pair and one of them is the other one. |
| Logic.NegIsXor | source/library/api/kmx/sat/literal.hpp:43-66 | Negation flips the lowest bit of the encoding. |
| SolverCores.SolverCore.Assign | source/library/inc/kmx/sat/cdcl/solver_core.hpp:593-603 | Writes both values, level, reason, position and saved phase and puts the literal on the trail. |
| SearchState.AssignKeeps | source/library/inc/kmx/sat/cdcl/solver_core.hpp:593-603 | Assigning with a sound reason keeps every trail invariant and every earlier assignment. |
| SolverCores.SolverCore.NewLevel | source/library/inc/kmx/sat/cdcl/solver_core.hpp:606-610 | Opens a level with its decision. |
| SearchState.NewLevelKeeps | source/library/inc/kmx/sat/cdcl/solver_core.hpp:606-610 | That keeps every trail invariant when nothing is queued. |
| SolverCores.SolverCore.Backtrack | source/library/src/kmx/sat/cdcl/solver_core.cpp:826-845 | Exactly the assignments above the target level are undone, and every unassigned variable is a branching candidate again. |
| SearchState.BacktrackTables | source/library/src/kmx/sat/cdcl/solver_core.cpp:826-845 | A literal survives exactly when it was assigned at or below the target level; the queue is cut back with the trail. |
| SolverCores.SolverCore.AttachClause | source/library/src/kmx/sat/cdcl/solver_core.cpp:789-801 | Watches the first two literals, each with the other as blocking literal, or lists a clause of fewer. |
| SolverCores.SolverCore.RebuildPropagationState | source/library/src/kmx/sat/cdcl/solver_core.cpp:756-787 | From any watch lists: exactly one entry per watched literal of the clauses held, and exactly the short clauses listed. |
| SolverCores.SolverCore.AssignRootUnits | source/library/src/kmx/sat/cdcl/solver_core.cpp:803-824 | Every unit clause becomes true; it fails exactly with an empty or false one, and then the formula has no model. |
| SolverCores.SolverCore.AnalyzeConflict | source/library/src/kmx/sat/cdcl/solver_core.cpp:1060-1201 | The learned clause is the negated first unique implication point of the conflict and, of the variables of lower levels the conflict rests on, exactly those not derivable from the kept and root ones (more are kept only when more than a thousand variables lie between root and current level). It is entailed by the formula, false on the trail, holds exactly one literal of the current level, in front, none of the root level, and second one of the highest remaining level. Exactly the variables the conflict rests on and those behind a short clause's literals are bumped, once each, before all activities age. All marks and counts are zero again. With a proof consumer the antecedents are an LRAT chain for it. |
| SolverCores.SolverCore.DeriveUip | source/library/src/kmx/sat/cdcl/solver_core.cpp:1078-1107 | The backward resolution ends at the first unique implication point of the conflict, never runs off the trail, and has collected exactly the variables above the root the conflict rests on before it; no model of the formula agrees with what was collected. |
| ImplicationPoints.FirstUipUnique | source/library/src/kmx/sat/cdcl/solver_core.cpp:1078-1107 | A conflict has at most one first unique implication point, as defined by following reasons, apart from the walk. |
| ImplicationPoints.TracingDone | source/library/src/kmx/sat/cdcl/solver_core.cpp:1078-1107 | When one variable of the current level is left open, its literal is that point, and what was met is all the conflict rests on down to it. |
| SolverCores.SolverCore.AnalyzeLiteral | source/library/inc/kmx/sat/cdcl/solver_core.hpp:635-662 | Marks a false literal once: below the current level it is collected, at the current level it is counted open, at the root its reasons are listed. |
| Implication.RootAgrees | source/library/src/kmx/sat/cdcl/solver_core.cpp:803-824 | Every model of the formula agrees with the root level of the trail. |
| Implication.DecisionsForce | source/library/src/kmx/sat/cdcl/solver_core.cpp:847-947 | A model that agrees with the decisions agrees with the whole trail. |
| Implication.ConflictRefutes | source/library/src/kmx/sat/cdcl/solver_core.cpp:1078-1091 | No model agrees with the variables of a false clause above the root. |
| Implication.ResolutionRefutes | source/library/src/kmx/sat/cdcl/solver_core.cpp:1082-1106 | Resolving on a literal replaces its variable by those of its reason. |
| Implication.RefutedClause | source/library/src/kmx/sat/cdcl/solver_core.cpp:1107-1134 | When the variables of a false clause are refuted, the clause follows from the formula. |
| Analysis.ScannedRefutes | source/library/src/kmx/sat/cdcl/solver_core.cpp:1087-1091 | Scanning a clause keeps what has been met refuted and leaves something of the current level open. |
| Analysis.NextResolving | source/library/src/kmx/sat/cdcl/solver_core.cpp:1093-1105 | The next open literal on the trail has a reason while another is open, and resolution may go on with it. |
| SolverCores.SolverCore.MinimizeLiteral | source/library/src/kmx/sat/cdcl/solver_core.cpp:993-1058 | Decides exactly whether a literal is derivable: whether its reason, and theirs in turn, lead only to the root and kept literals through variables below the current level and after the earliest seen one of theirs. A refusal for depth is the only exception and takes more than a thousand such variables. No variable is expanded twice; marks only grow and are all on a list to be taken back. |
| Removal.StackIsNot | source/library/src/kmx/sat/cdcl/solver_core.cpp:1043-1054 | When the next literal of the top frame cannot be covered, no variable on the stack is derivable. |
| Removal.PopExact | source/library/src/kmx/sat/cdcl/solver_core.cpp:1030-1040 | A variable whose reason has been gone through is derivable. |
| Removal.DeepStack | source/library/src/kmx/sat/cdcl/solver_core.cpp:1009-1010 | A stack deeper than the limit needs more variables between the root and the current level than that. |
| Minimization.RemovableIsForced | source/library/src/kmx/sat/cdcl/solver_core.cpp:993-1058 | In every model of the formula, agreement on the kept variables forces agreement on a removable one. |
| Minimization.MinimizedIsRefuted | source/library/src/kmx/sat/cdcl/solver_core.cpp:1109-1134 | Dropping the removable literals keeps the rest refuted. |
| SolverCores.SolverCore.MinimizeLearned | source/library/src/kmx/sat/cdcl/solver_core.cpp:1109-1134 | Of the collected literals exactly the derivable ones are dropped, relative to those kept; no kept literal is derivable, unless a visit was refused for its depth. The shortened clause is still entailed and the chain for it complete. |
| Removal.DerivableBelow | source/library/src/kmx/sat/cdcl/solver_core.cpp:1109-1134 | Deciding the literals in trail order is enough: keeping a later one makes no earlier one derivable. |
| Learning.KeptIsUnique | source/library/src/kmx/sat/cdcl/solver_core.cpp:1109-1134 | Which literals are kept is determined: any two sets that keep exactly the underivable ones are the same. |
| Implication.RefutedWithoutForced | source/library/src/kmx/sat/cdcl/solver_core.cpp:1109-1134 | Dropping variables that the rest force keeps a refutation. |
| SolverCores.SolverCore.CollectRootChain | source/library/src/kmx/sat/cdcl/solver_core.cpp:958-971 | The reasons behind a root variable are on the chain, each after the reasons it rests on and before a clause that needs it. |
| SolverCores.SolverCore.CollectMinimizeChain | source/library/src/kmx/sat/cdcl/solver_core.cpp:973-991 | The same for the reasons behind a literal that was left out. |
| Antecedents.EmittedChainIsLrat | source/library/src/kmx/sat/cdcl/solver_core.cpp:1221-1237 | Root chain, minimization chain and reversed resolution chain, in that order, justify the learned clause by unit propagation: each hint is unit in turn and the last is false. |
| Antecedents.EmittedAllCount | source/library/src/kmx/sat/cdcl/solver_core.cpp:958-991 | No antecedent can be spared: each is for a variable of its own that a later one speaks of. |
| Antecedents.EmittedNames | source/library/src/kmx/sat/cdcl/solver_core.cpp:958-991 | The antecedents are reasons on the trail and the conflict, nothing else. |
| ProofChain.LratStepSound | source/library/src/kmx/sat/cdcl/solver_core.cpp:1221-1237 | A clause justified that way is a consequence of its hint clauses, whatever the search did. |
| ProofLog.CheckedLogIsSound | source/library/src/kmx/sat/cdcl/solver_core.cpp:1221-1242 | Replaying a log that checks, deletions included: whatever satisfies the clauses taken over at the start and those stated satisfies every clause derived. |
| ProofLog.LostHintShows | source/library/src/kmx/sat/cdcl/solver_core.cpp:1224-1229 | When no hint can be spared, a chain that has lost one does not check over the clauses the consumer knows. |
| ProofLog.DerivationOk | source/library/src/kmx/sat/cdcl/solver_core.cpp:1221-1242 | Telling a derived clause keeps the log in step with the store: the log still says no less than the formula, every derived clause follows from what was given before it, and exactly the derivations that lost a hint do not check. |
| ProofLog.DeletionOk | source/library/src/kmx/sat/simplify/forward_subsumer.cpp:281-289 | So does reporting a clause deleted, whether it leaves the store or stays. |
| ProofLog.RefutationIsTold | source/library/src/kmx/sat/cdcl/solver_core.cpp:1412-1420 | When no clause reported deleted stayed, a refutation of the clauses held is one of the clauses live in the log. |
| LostHints.LostHint | source/library/src/kmx/sat/cdcl/solver_core.cpp:1224-1229 | On six concrete clauses an epoch, a decision, a conflict and learning end with a derived clause that does not check, because its chain needs a clause reported deleted that stayed. |
| LostHints.StartIsSound | source/library/src/kmx/sat/cdcl/solver_core.cpp:803-824 | The state this starts from satisfies every invariant of the search. |
| SolverCores.SolverCore.AttachProofTracer | source/library/src/kmx/sat/cdcl/solver_core.cpp:236-248 | The clauses held are taken over, once, as the log begins. |
| Learning.Learned | source/library/src/kmx/sat/cdcl/solver_core.cpp:1135-1201 | Together: the learned clause, its second watch, its chain. |
| SolverCores.SolverCore.MarkReasonSide | source/library/src/kmx/sat/cdcl/solver_core.cpp:1167-1188 | Behind a learned clause of at most 32 literals exactly the variables above the root in the reasons of its literals join those that took part. |
| SolverCores.SolverCore.BumpAnalyzed | source/library/src/kmx/sat/cdcl/solver_core.cpp:1190-1192 | The activities afterwards are those of bumping each listed variable in order and then aging all. |
| SolverCores.SolverCore.LearnClause | source/library/src/kmx/sat/cdcl/solver_core.cpp:1203-1245 | Goes back to the level of the second literal, stores and watches the clause, assigns its first literal and reports it with its antecedents; the rank has grown. |
| SolverCores.SolverCore.ReportLearned | source/library/src/kmx/sat/cdcl/solver_core.cpp:1221-1242 | The proof log gains exactly the learned clause with the chain in the order emitted, references without an identity left out. |
| SolverCores.SolverCore.EmitAntecedents | source/library/src/kmx/sat/cdcl/solver_core.cpp:1223-1237 | Root chain, minimization chain and reversed resolution chain, each reference kept exactly when it has an identity. |
| Attaching.LearnedAsserts | source/library/src/kmx/sat/cdcl/solver_core.cpp:1203-1219 | After the backjump the learned clause is false but for its first, open literal. |
| Attaching.AssertKeeps | source/library/src/kmx/sat/cdcl/solver_core.cpp:1203-1219 | Adding an asserting clause and assigning its first literal keeps the trail and watch invariants. |
| SolverCores.SolverCore.AnalyzeFinal | source/library/src/kmx/sat/cdcl/solver_core.cpp:1247-1284 | The failed core is exactly the failed literal followed by the reasonless trail literals above the root that it rests on, latest first; it is a part of the assumptions and has no model with the formula, for an assumption false at the root or contradicted by another one too; no mark is left behind. |
| Causes.CoreMembers | source/library/src/kmx/sat/cdcl/solver_core.cpp:1247-1284 | A literal is in the core exactly when it is the failed one or a decision that following reasons from it leads to. |
| Causes.BehindSoFar | source/library/src/kmx/sat/cdcl/solver_core.cpp:1256-1280 | Walking the trail backwards once finds everything behind the start: reasons only speak of earlier literals. |
| Answers.CoreIsInconsistent | source/library/src/kmx/sat/cdcl/solver_core.cpp:1247-1284 | The failed literal and the decisions reached from it contradict the formula. |
| Answers.CoreForces | source/library/src/kmx/sat/cdcl/solver_core.cpp:1259-1280 | A model in which the core holds agrees with every marked trail literal. |
| Answers.FixpointIsModel | source/library/src/kmx/sat/cdcl/solver_core.cpp:1502-1503 | A full assignment at a propagation fixpoint with every unit true satisfies every clause held. |
| Answers.SatisfiableIsRight | source/library/src/kmx/sat/cdcl/solver_core.cpp:1502-1503 | It is then a model of the formula stated. |
| Answers.AssumptionsHold | source/library/src/kmx/sat/cdcl/solver_core.cpp:1429-1447 | Once every assumption has its level all of them are true. |
| SolverCores.SolverCore.Restart | source/library/src/kmx/sat/cdcl/solver_core.cpp:1286-1307 | Keeps exactly the levels whose decisions rank at least as high as every open variable; the next one ranks below some open variable. Assumption levels stay. |
| SolverCores.SolverCore.Reduce | source/library/src/kmx/sat/cdcl/solver_core.cpp:1323-1334 | Only redundant clauses go, none of them a reason; watches and answers are unaffected. |
| Attaching.PruneKeeps | source/library/src/kmx/sat/cdcl/solver_core.cpp:1309-1334 | Deleting clauses that are no reasons keeps every invariant. |
| Attaching.PrunedRepresents | source/library/src/kmx/sat/cdcl/solver_core.cpp:1323-1334 | Deleting redundant clauses loses nothing. |
| SolverCores.SolverCore.ProbeFailedLiterals | source/library/src/kmx/sat/cdcl/solver_core.cpp:490-631 | Only unit clauses that follow from the formula are added; "refuted" is noted only of a formula without a model. With an effort above 2n² for n variables it ends only when probing would find nothing more at any variable, or after a unit in every round. |
| SolverCores.SolverCore.ProbeVariable | source/library/src/kmx/sat/cdcl/solver_core.cpp:551-627 | For one variable, the effort lasting: a failed literal's negation is true afterwards, and every literal both polarities lead to has a value; when no unit was learned the root is unchanged and there was nothing to find. The marks used for the negative probe are exactly what its own positive probe implied. |
| SolverCores.SolverCore.ProbePositive | source/library/src/kmx/sat/cdcl/solver_core.cpp:560-596 | The trial of the positive literal: when it fails the negation is true at the root; otherwise exactly what it put on the trail is remembered. |
| SolverCores.SolverCore.ProbeNegative | source/library/src/kmx/sat/cdcl/solver_core.cpp:597-626 | When the negative trial fails the literal is true at the root; otherwise every literal both trials have in common has a value. |
| SolverCores.SolverCore.ProbeRound | source/library/src/kmx/sat/cdcl/solver_core.cpp:545-629 | A round that learns no unit, with more effort than two trials a variable can take, leaves no failed literal and nothing to lift. |
| Probing.FailsEveryTime | source/library/src/kmx/sat/cdcl/solver_core.cpp:562-585 | Whether a literal fails does not depend on the order of propagation: it fails every time or never. |
| Probing.LeadsEveryTime | source/library/src/kmx/sat/cdcl/solver_core.cpp:562-579 | Nor does what it leads to. |
| Probing.ProbedOneMore | source/library/src/kmx/sat/cdcl/solver_core.cpp:545-629 | A variable probed without finding a unit needs no second probe while the root stays the same. |
| SolverCores.SolverCore.LiftMarked | source/library/src/kmx/sat/cdcl/solver_core.cpp:606-609 | Lifts exactly the literals both polarities imply, all of them consequences. |
| SolverCores.SolverCore.LearnRootUnit | source/library/src/kmx/sat/cdcl/solver_core.cpp:523-543 | A unit that follows is stored, assigned and propagated, and no literal loses its value; a conflict means there is no model. |
| Probing.ProbeConflict | source/library/src/kmx/sat/cdcl/solver_core.cpp:570-585 | A conflict under the trial decision makes its negation a consequence. |
| Probing.BothImply | source/library/src/kmx/sat/cdcl/solver_core.cpp:619-626 | What both polarities imply is a consequence. |
| Probing.TrialFacts | source/library/src/kmx/sat/cdcl/solver_core.cpp:562-579 | A trial leaves trail and values as they were, and shows either the negation or what the literal implies. |
| SolverCores.SolverCore.TryLuckyAssignments | source/library/src/kmx/sat/cdcl/solver_core.cpp:633-685 | Success is a model of the formula. Failure without a contradiction at the root means that a limit was reached or that all four attempts ended in a conflict, and leaves the root trail as it was. |
| SolverCores.SolverCore.LuckyRounds | source/library/src/kmx/sat/cdcl/solver_core.cpp:646-681 | The four attempts, all variables true or false from either end: without a model every one of them was made and ends in a conflict, unless a limit stops them. |
| SolverCores.SolverCore.Attempt | source/library/src/kmx/sat/cdcl/solver_core.cpp:647-681 | One uniform assignment: all decisions have the one polarity and follow the order of the variables; unless it fails or a limit stops it every variable has a value. |
| Probing.LuckyModel | source/library/src/kmx/sat/cdcl/solver_core.cpp:674-678 | A full attempt without conflict is a model. |
| SolverCores.SolverCore.NormalizeClause | source/library/src/kmx/sat/cdcl/solver_core.cpp:302-323 | Refuses exactly the tautologies; otherwise each literal is kept once. |
| Stating.NormalMeansTheSame | source/library/src/kmx/sat/cdcl/solver_core.cpp:302-323 | The normalized clause has the same models and is no tautology. |
| SolverCores.SolverCore.AddProblemClause | source/library/src/kmx/sat/cdcl/solver_core.cpp:223-234 | The formula gains the clause, and what is held stays equivalent to it; a tautology is left out. |
| Stating.StateOneMore | source/library/src/kmx/sat/cdcl/solver_core.cpp:223-234 | Storing the normalized clause states one clause more. |
| Stating.StateTautology | source/library/src/kmx/sat/cdcl/solver_core.cpp:223-234 | A tautology may be left out. |
| SolverCores.SolverCore.FindMaxVariable | source/library/src/kmx/sat/cdcl/solver_core.cpp:325-349 | The least bound: no variable of a clause held, of an assumption, or stated is above it, and one of them attains it. |
| SolverCores.SolverCore.InitializeRun | source/library/src/kmx/sat/cdcl/solver_core.cpp:351-396 | No literal has a value, the trail is empty and nothing is queued; every clause is attached, every variable a candidate with its phase kept, limits taken over and nothing counted. |
| SolverCores.SolverCore.ListModel | source/library/src/kmx/sat/cdcl/solver_core.cpp:1514-1519 | The model lists each variable once, with the sign of its value. |
| WholeSolve.BuildInternalModel | source/library/src/kmx/sat/cdcl/solver_core.cpp:1514-1530 | From a model of the formula the search worked on, the model handed out satisfies the formula first stated. |
| WholeSolve.SolveStated | source/library/src/kmx/sat/cdcl/solver_core.cpp:45-205 | A solve and the reconstruction after it: "satisfiable" hands out a model of the formula first stated, before any reversible preprocessing, that gives no variable two values. |
| VarHeaps.VarHeap.Push | source/library/src/kmx/sat/cdcl/var_heap.cpp:25-31 | A variable joins the candidates; order and tables hold. |
| VarHeaps.VarHeap.Pop | source/library/src/kmx/sat/cdcl/var_heap.cpp:33-46 | Takes out the candidate no other outranks, ties to the lower index. |
| VarHeaps.VarHeap.Bump | source/library/src/kmx/sat/cdcl/var_heap.cpp:48-56 | Adds the increment to one activity; on overflow everything is scaled alike; the order holds again. |
| VarHeaps.AgedWeights | source/library/src/kmx/sat/cdcl/var_heap.cpp:48-71 | In units of the increment, which no rescaling changes, a conflict adds one to the activity of each variable bumped and multiplies all by the decay factor. |
| VarHeaps.VarHeap.Decay | source/library/src/kmx/sat/cdcl/var_heap.cpp:58-63 | Grows the increment, scaling everything alike on overflow. |
| VarHeaps.VarHeap.RescaleBy | source/library/src/kmx/sat/cdcl/var_heap.cpp:65-71 | Every activity and the increment are multiplied by the factor. |
| VarHeaps.VarHeap.Rescale | source/library/src/kmx/sat/cdcl/var_heap.cpp:65-71 | A positive factor keeps the heap in order. |
| VarHeaps.VarHeap.SiftUp | source/library/src/kmx/sat/cdcl/var_heap.cpp:80-93 | From order but for one entry to order; candidates unchanged. |
| VarHeaps.VarHeap.SiftDown | source/library/src/kmx/sat/cdcl/var_heap.cpp:95-117 | From order below the root to order; candidates unchanged. |
| VarHeaps.VarHeap.Place | source/library/inc/kmx/sat/cdcl/var_heap.hpp:86-90 | Both tables are written together. |
| VarHeaps.VarHeap.Resize | source/library/src/kmx/sat/cdcl/var_heap.cpp:8-16 | New variables start outside the heap with activity zero. |
| VarHeaps.FirstIsHighest | source/library/src/kmx/sat/cdcl/var_heap.cpp:33-46 | In an ordered heap the first entry outranks every other one. |
| VarHeaps.ScalingKeepsRank | source/library/src/kmx/sat/cdcl/var_heap.cpp:65-78 | Multiplying by a positive factor changes no comparison. |
| Reconstruction.ReconstructionIsRight | source/library/src/kmx/sat/cdcl/model_reconstructor.cpp:8-35 | The model handed out satisfies the formula first stated, for any stack of elimination, blocked-clause and factoring records, and names no introduced variable. |
| Reconstruction.ReplayRepairs | source/library/src/kmx/sat/cdcl/model_reconstructor.cpp:8-35 | Replaying the stack backwards turns a total model of the reduced formula into a total model of the original. |
| Reconstruction.EliminationRepairs | source/library/src/kmx/sat/cdcl/model_reconstructor.cpp:37-60 | Undoing an elimination: only positive-occurrence witnesses are kept, and the resolvents make that enough. |
| Reconstruction.BlockedRepairs | source/library/src/kmx/sat/cdcl/model_reconstructor.cpp:61-76 | Undoing blocked clauses one by one. |
| Reconstruction.ExposedIs | source/library/src/kmx/sat/cdcl/model_reconstructor.cpp:88-99 | Exactly the variables with a value that are not internal are handed out, with that value. |
| Reconstruction.ExposedSatisfies | source/library/src/kmx/sat/cdcl/model_reconstructor.cpp:8-35 | Dropping internal variables loses no clause that speaks of none. |
| Reconstruction.SplitFlatten | source/library/inc/kmx/sat/cdcl/model_reconstructor.hpp:97-113 | Splitting the zero-terminated buffer reads back what was written, wherever it stands. |
| Reconstruction.ModelReconstructor.ReconstructFullModel | source/library/src/kmx/sat/cdcl/model_reconstructor.cpp:8-35 | Computes that replay, from the initial model, last record first. |
| Reconstruction.ModelReconstructor.ApplyExtensionRecord | source/library/src/kmx/sat/cdcl/model_reconstructor.cpp:37-86 | Replays one record. |
| Reconstruction.ModelReconstructor.ClauseIsSatisfied | source/library/src/kmx/sat/cdcl/model_reconstructor.cpp:130-143 | True exactly when some literal over a variable with a value is true. |
| Reconstruction.ModelReconstructor.SetValue | source/library/src/kmx/sat/cdcl/model_reconstructor.cpp:118-128 | Assigns one variable; the table grows when needed. |
| Reconstruction.ModelReconstructor.LoadValuesFromInitialModel | source/library/src/kmx/sat/cdcl/model_reconstructor.cpp:101-116 | The table is the initial model, a later literal overriding an earlier one. |
| Factorizers.Factorizer.Run | source/library/src/kmx/sat/simplify/factorizer.cpp:8-34 | The models over the old variables are the same after the pass; when no clause was repeated, each variable introduced made the clauses at least one fewer; with a proof consumer nothing changes. When it introduces nothing although its effort exceeds the bound for one round, every literal two usable clauses share was tried as an anchor and no rectangle grown from one saves a clause. |
| Factorizers.Factorizer.Apply | source/library/src/kmx/sat/simplify/factorizer.cpp:295-336 | One application replaces the rectangle by the definition and the factored bodies, and without duplicates the clauses become exactly its saving fewer. |
| Factorizers.Factorizer.FactorLiteral | source/library/src/kmx/sat/simplify/factorizer.cpp:154-189 | The same for one anchor. A variable is introduced exactly when there are two rows and the rectangle grown has two literals and saves a clause; and, effort lasting, no literal without a standing count would have made it save more. The effort falls by at most the clauses squared per search and one search per literal. |
| Factorizers.Factorizer.FactorRound | source/library/src/kmx/sat/simplify/factorizer.cpp:20-29 | A round without progress visits every candidate in order, each where the one before left the counts, effort lasting, and states for each what is known of its anchor; its effort is bounded. |
| Factorizers.Factorizer.Rounds | source/library/src/kmx/sat/simplify/factorizer.cpp:18-29 | The rounds go on while there is progress: they end after the last round allowed, for want of effort, or with a round in which nothing was to be gained. |
| Factorizers.Factorizer.GrowGroup | source/library/src/kmx/sat/simplify/factorizer.cpp:165-176 | The group grows while the rectangle's saving does; when it stops with effort left, no literal but one with a standing count would make it save more. |
| Factorizers.Factorizer.ExtendGroup | source/library/src/kmx/sat/simplify/factorizer.cpp:165-176 | The group grows exactly when the best literal makes the rectangle save more. |
| Factorizers.Factorizer.BestPartner | source/library/src/kmx/sat/simplify/factorizer.cpp:198-261 | While effort lasts the matches are all the pairs there are. The literal with the most matches is returned exactly when no count was left standing for it; nothing is returned exactly when one was for every literal with two matches. |
| Factorizers.Factorizer.AdoptPartner | source/library/src/kmx/sat/simplify/factorizer.cpp:270-293 | Keeps exactly the rows the partner pairs with, in their order, each with the partner's clause as a further cell. |
| Factorizers.Factorizer.FirstRows | source/library/src/kmx/sat/simplify/factorizer.cpp:154-161 | The rows are exactly the live clauses of the anchor. |
| Factorizers.Factorizer.CollectCandidates | source/library/src/kmx/sat/simplify/factorizer.cpp:125-152 | Exactly the literals with two live occurrences, most frequent first. |
| Factorizers.Factorizer.BuildIndex | source/library/src/kmx/sat/simplify/factorizer.cpp:36-80 | Exactly the permanent clauses of usable size that are not garbage are indexed, each under all its literals; the pass goes on exactly with three or more of them; the highest variable is at least the problem's. |
| Factorizers.Factorizer.DeleteClause | source/library/src/kmx/sat/simplify/factorizer.cpp:349-358 | A clause goes once, even when two cells name it. |
| Factoring.NewImpliesOld | source/library/src/kmx/sat/simplify/factorizer.cpp:295-336 | Every model of the new clauses is one of the old. |
| Factoring.OldExtendsToNew | source/library/src/kmx/sat/simplify/factorizer.cpp:295-336 | Every old model extends: the fresh variable is the conjunction of the group. |
| Factoring.ClausesSaved | source/library/src/kmx/sat/simplify/factorizer.cpp:191-196 | The number of live clauses changes by exactly L*D - L - D. |
| Factoring.CellsDiffer | source/library/src/kmx/sat/simplify/factorizer.cpp:270-293 | Without duplicates the cells of a rectangle are different clauses. |
| Factoring.ApplicationKeepsModels | source/library/src/kmx/sat/simplify/factorizer.cpp:295-336 | Both directions, for one application. |
| Factoring.ApplicationKeepsDistinct | source/library/src/kmx/sat/simplify/factorizer.cpp:295-336 | An application repeats no clause, so the next one saves as much as it says. |
| Factoring.RowMatches | source/library/src/kmx/sat/simplify/factorizer.cpp:228-236 | One unmarked literal and equal sizes mean: the body of the row and that literal. |
| Pairing.BestIsTop | source/library/src/kmx/sat/simplify/factorizer.cpp:249-260 | The condition under which the choice is the best one, both ways. |
| Pairing.BestDecides | source/library/src/kmx/sat/simplify/factorizer.cpp:165-176 | When the best literal found would not make the rectangle save more, none without a standing count would. |
| Pairing.CountIsRows | source/library/src/kmx/sat/simplify/factorizer.cpp:228-243 | Without duplicates the count of a literal is the number of rows it pairs with. |
| MissedPartners.MissedPartner | source/library/src/kmx/sat/simplify/factorizer.cpp:154-189 | On ten concrete clauses factoring one literal and then another changes nothing, although a literal pairs with every row of the second and the rectangle would save a clause. |
| Subsumption.IncrementalIsFull | source/library/src/kmx/sat/simplify/forward_subsumer.cpp:31-101 | Skipping the pairs marked before gives the same deletions and promotions in the same order. |
| Subsumption.PermanentSurvives | source/library/src/kmx/sat/simplify/forward_subsumer.cpp:270-289 | Every permanent clause keeps a surviving permanent clause that is part of it. |
| Subsumption.NothingSubsumedIsLeft | source/library/src/kmx/sat/simplify/forward_subsumer.cpp:40-101 | When no promotion fails no surviving clause contains another. |
| Subsumption.PassKeepsFormula | source/library/src/kmx/sat/simplify/forward_subsumer.cpp:8-113 | A pass leaves clauses equivalent to those it found. |
| Subsumption.SignatureNeverHides | source/library/src/kmx/sat/simplify/forward_subsumer.cpp:253-259 | The signature filter never hides a subsumption. |
| Subsumption.RarestNeverHides | source/library/src/kmx/sat/simplify/forward_subsumer.cpp:261-268 | Neither does searching only the shortest occurrence list. |
| Subsumption.CleanAfter | source/library/src/kmx/sat/simplify/forward_subsumer.cpp:103-112 | After a pass in which no promotion fails, no two marked clauses subsume one another if and only if no clause marked before was deleted and stays as a reason. |
| Subsumption.CleanStays | source/library/src/kmx/sat/simplify/forward_subsumer.cpp:31-38 | Clauses added, removed or permuted in between make no new pair of marked clauses. |
| Subsumption.DeletedAreReplaced | source/library/src/kmx/sat/simplify/forward_subsumer.cpp:270-289 | Every clause deleted is subsumed by one that is not. |
| Subsumption.MarkedPassIsIdle | source/library/src/kmx/sat/simplify/forward_subsumer.cpp:71-76 | A pass over clauses that are all marked does nothing, whether or not they subsume one another. |
| KeptReasons.SecondPassMisses | source/library/src/kmx/sat/simplify/forward_subsumer.cpp:31-112 | Two concrete clauses: the first pass deletes the marked one, which stays as a reason; the second does nothing where the full pass would not. |
| Subsumption.StrengtheningIsSound | source/library/src/kmx/sat/simplify/forward_subsumer.cpp:217-234 | Dropping the negated pivot loses no model of the two clauses. |
| ForwardSubsumers.ForwardSubsumer.Run | source/library/src/kmx/sat/simplify/forward_subsumer.cpp:8-113 | Computes the pass and keeps the formula; a clause is left exactly when it was not deleted or is a reason. When no two marked clauses subsumed one another it equals the full pass, and the marks stay clean exactly when no marked clause was deleted and stays. |
| ForwardSubsumers.RunPasses | source/library/src/kmx/sat/simplify/forward_subsumer.cpp:31-107 | Any number of passes outside a search, with changes of the store in between: the premise of each follows from the one before, so every pass equals the full one. |
| ForwardSubsumers.ForwardSubsumer.ProcessClause | source/library/src/kmx/sat/simplify/forward_subsumer.cpp:40-101 | The turn of one clause: deleted by the first candidate that replaces it, else deleting all it replaces. |
| ForwardSubsumers.ForwardSubsumer.SubsumeClause | source/library/src/kmx/sat/simplify/forward_subsumer.cpp:270-279 | A redundant keeper of a permanent clause is promoted first; when that fails nothing is deleted. |
| ForwardSubsumers.ForwardSubsumer.ClauseSubsumes | source/library/src/kmx/sat/simplify/forward_subsumer.cpp:304-318 | True exactly when every literal of the left clause is in the right one. |
| ForwardSubsumers.ForwardSubsumer.BuildOccurrenceIndex | source/library/inc/kmx/sat/simplify/forward_subsumer.hpp:179-209 | The lists are exactly the occurrences of each literal. |
| ForwardSubsumers.ForwardSubsumer.CheckStrengthens | source/library/src/kmx/sat/simplify/forward_subsumer.cpp:217-234 | Decides the resolution test exactly. |
| CountingIndex.BuildIndex | source/library/inc/kmx/sat/simplify/forward_subsumer.hpp:179-209 | Counting, prefix sums and filling give, for each slot, the rows that hold it, in order; the entries are as many as the rows' literals. |
| CountingIndex.OccurrencesAre | source/library/inc/kmx/sat/simplify/forward_subsumer.hpp:179-209 | A row is listed exactly when it holds the slot. |
| CountingIndex.ListSumBound | source/library/src/kmx/sat/simplify/transitive_reducer.cpp:54-105 | The lists of different slots are together no longer than all entries. |
| LocalSearches.LocalSearch.FlipVariable | source/library/inc/kmx/sat/cdcl/local_search.hpp:188-237 | After a flip true counts, break counts, critical variables, the list of unsatisfied clauses and its positions are what recomputation gives for the flipped assignment. |
| LocalSearches.LocalSearch.RecomputeState | source/library/src/kmx/sat/cdcl/local_search.cpp:103-133 | Sets all of them from the assignment. |
| LocalSearches.LocalSearch.Walk | source/library/src/kmx/sat/cdcl/local_search.cpp:59-84 | True is returned exactly when nothing is unsatisfied at the end. The walk is a sequence of flips, each of a variable of an unsatisfied clause; without success it makes exactly the flips allowed. The best count is the least over the walk and before, and its assignment goes with it. |
| LocalSearches.LocalSearch.WalkOn | source/library/src/kmx/sat/cdcl/local_search.cpp:69-83 | The same for the flips after the start; the record drops to zero exactly on success. |
| WalkState.RecordDropsToZero | source/library/src/kmx/sat/cdcl/local_search.cpp:59-84 | Over a walk the least count is zero exactly when it is zero at the end, since a walk stops there. |
| LocalSearches.LocalSearch.Prepare | source/library/src/kmx/sat/cdcl/local_search.cpp:8-57 | Exactly the non-empty permanent clauses are copied and indexed; it is ready exactly when there are any over some variable, and the longest clause is noted. |
| LocalSearches.LocalSearch.RecordIfBetter | source/library/inc/kmx/sat/cdcl/local_search.hpp:127-131 | The record becomes the present assignment and count exactly when that is better. |
| LocalSearches.LocalSearch.LeaveUnsatisfied | source/library/inc/kmx/sat/cdcl/local_search.hpp:225-230 | The last clause of the list takes the place of the one that leaves. |
| WalkState.LoseLast | source/library/inc/kmx/sat/cdcl/local_search.hpp:195-204 | A clause losing its last true literal. |
| WalkState.LoseToOne | source/library/inc/kmx/sat/cdcl/local_search.hpp:195-217 | A clause left with one true literal, which becomes critical. |
| WalkState.GainFirst | source/library/inc/kmx/sat/cdcl/local_search.hpp:219-233 | A clause gaining its first true literal. |
| WalkState.GainSecond | source/library/inc/kmx/sat/cdcl/local_search.hpp:219-236 | A clause gaining its second: the first is critical no more. |
| WalkState.FlippedLits | source/library/inc/kmx/sat/cdcl/local_search.hpp:188-237 | What a flip does to the true literals of a clause. |
| WalkState.ListLength | source/library/inc/kmx/sat/cdcl/local_search.hpp:188-237 | The list is as long as there are unsatisfied clauses. |
| WalkState.NoneUnsatisfied | source/library/src/kmx/sat/cdcl/local_search.cpp:59-84 | With none unsatisfied the polarities are a model. |
| TransitiveReducers.TransitiveReducer.PruneBinaryEdges | source/library/src/kmx/sat/simplify/transitive_reducer.cpp:8-52 | The models of all clauses together are the same; only binary clauses go. No binary clause left is implied by the other binary ones left: for each clause the effort reaches, which is computed from their number, and for all of them with up to 128. |
| TransitiveReducers.TransitiveReducer.HasAlternativePath | source/library/src/kmx/sat/simplify/transitive_reducer.cpp:116-159 | Terminates; a path found exists, and while effort lasts one is found exactly when one exists that avoids the removed clauses and the one in question. The effort falls by at most the number of edges and runs out only when it was no more than that. |
| TransitiveReducers.TransitiveReducer.PruneOne | source/library/src/kmx/sat/simplify/transitive_reducer.cpp:24-46 | Removes a clause exactly when the clauses still there imply it by a path, effort lasting; two searches take at most twice the number of edges. |
| TransitiveReducers.TransitiveReducer.BuildGraph | source/library/src/kmx/sat/simplify/transitive_reducer.cpp:54-105 | Every live binary clause is an edge from each of its negated literals. |
| ImplicationGraph.DetourImplies | source/library/src/kmx/sat/simplify/transitive_reducer.cpp:116-159 | A clause with a detour follows from the others that are still there. |
| ImplicationGraph.RemovalLosesNothing | source/library/src/kmx/sat/simplify/transitive_reducer.cpp:8-52 | So removing it loses nothing, whatever was removed before. |
| ImplicationGraph.ReachMirror | source/library/src/kmx/sat/simplify/transitive_reducer.cpp:54-105 | The graph is skew-symmetric: a path exists exactly with its mirror image. |
| TransitiveReducers.RedundantBothWays | source/library/src/kmx/sat/simplify/transitive_reducer.cpp:24-46 | The two searches for one clause have the same answer, so one is enough. |

## Left out

- LostHints.LostHint: starts at the root, where [b, x, y] is the reason of b, for any formula the six clauses may stand
  for. `LostHints.StartIsSound` proves that such a state satisfies every invariant, and every later step is proved; that a
  run reaches one is not, because which of two clauses forces a literal first depends on the order of the watch lists,
  which the contract of `Propagate` leaves open. (When [b, x] has been learned and the units come later, the entry of the
  older long clause comes first in the list of x.)
- SolverCores.SolverCore.Solve: when the lucky check meets a contradiction at the root the model answers at once, where
  the program enters the search, which meets the same contradiction again. Restarts are bounded by a parameter and end the
  run with "unknown" when used up; the program has no such bound, and what is proved is that each stretch between two
  restarts ends.
- Preprocessing before the search, the first phase on the raw formula with its snapshot and propagation limit, and the
  inprocessing epoch after the answer.
- SolverCores.SolverCore.RunEpoch: whether the budget lets the subsumption pass run is an arbitrary choice. The vivifier,
  which changes no clause, the epoch's own schedule and the memory limits are not modelled. In an epoch every promotion
  succeeds.
- WholeSolve.SolveStated: the records on the extension stack and the formulas they lead through are given, each record
  reversible as `Reconstruction` defines it; the passes that write them are not part of this model.
- ProofLog.CheckedLogIsSound: the final empty clause, identities as numbers and the output formats are not part of the
  log; references are never used again for another clause.
- SolverCores.SolverCore.ProbeFailedLiterals: the effort is a parameter; that nothing is left to find is stated for an
  effort above 2n² only, and after a unit in each of the three rounds nothing is stated about a fourth.
- SolverCores.SolverCore.AtFixpoint: when the opening walk is due, and which conflicts or decisions make a restart due, is
  an arbitrary choice: the restart intervals, the averages of glue and the mode switch are not modelled.
- Learning.LearnedFrom: for a level on which nothing was met the earliest seen position is whatever the level's frame
  last held, as in the program; the order of the literals after the second is not stated.
- Clause storage as an arena, its garbage collection and compaction; the order in which the store is iterated is arbitrary.
- Glue, tiers and all scheduling numbers; which learned clauses a reduction deletes is any choice that spares reasons.
- Counters are unbounded, except the 32-bit stamps and visit generations, whose wrap-around is modelled.
- SolverCores.SolverCore.AnalyzeConflict: per-level seen counts are kept in a list beside the level frames, flags as a
  record of booleans.
- SolverCores.SolverCore.InitializeRun: saved phases are cut or padded to the variables of the run.
- SolverCores.SolverCore.SetPhases: the phases after a walk, or restored after the lucky check, are arbitrary.
- LocalSearches.LocalSearch.Walk: the variable flipped is any variable of an unsatisfied clause; the weights and random
  numbers that choose it are not modelled. Flat clause buffers are sequences of sequences.
- Self-subsuming resolution beyond its test and the soundness of removing the literal; it is off by default.
- ForwardSubsumers.ForwardSubsumer.Run: the 64-bit signature is the set of its bit positions, the mark a set of references,
  and which promotions succeed is a fixed set.
- Factorizers.Factorizer.Run: the first, counting pass that only reserves memory; how much a run saves beyond at least one
  clause per variable introduced; completeness of a run that does introduce one is stated for its last round (`Rounds`).
- TransitiveReducers.TransitiveReducer.PruneBinaryEdges: keeps the models of permanent and redundant clauses together, not
  of the permanent ones alone, as in the program. The target of an edge is read off the clause.
- VarHeaps.VarHeap.Bump: activities are real numbers, so rounding cannot tie two of them.
- The components no run reaches through this engine (the coordinator's own loop, other queues and heuristics), statistics,
  options, file formats and the public interfaces.
