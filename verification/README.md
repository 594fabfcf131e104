# CodeSkeptic engine: a verified model

CodeSkeptic is a static analyser for C and C++. This project models its engine and proves what
the engine relies on: interval arithmetic, expression evaluation and condition refinement; the
worklist dataflow engine with widening, edge pruning, killed paths and the value-selection
rewind; the guarded-disjunct domain with its path facts; parameter ranges across calls; the
interprocedural summary solver with its call-graph components, its conservative merge, its
cross-file store, its text format and its alias closure; and the parser of contract comments.

The program's syntax trees are small datatypes (`Ast`) with a concrete meaning over stores of
integer variables, so that "sound" always means: true of every store, on every run. Operations
that update objects in place (the worklist loop, the component search, the disjunct vector, the
summary store, the parser) are methods and classes proved equal to functions; the theorems are
about those functions.

| module | what it models |
|---|---|
| `Int64`, `Intervals` | 64-bit checked arithmetic and the interval lattice |
| `Ast`, `IntervalEval`, `IntervalState` | expressions, their interval, transfer and condition refinement |
| `EvalExact`, `IntervalExact` | how precise they are, and the analysis built from them |
| `Dataflow`, `DataflowEngine`, `EngineExact` | the worklist engine, for any analysis, and what it makes of each edge and element |
| `DataflowSoundness` | what a converged run means |
| `Drain`, `WideningDrain`, `IntervalDrain`, `GuardedDrain`, `FiniteSets` | how long the worklist can stay busy, with and without widening |
| `IntervalAnalysis` | the interval analysis run by the engine, end to end |
| `PathFacts`, `Guarded`, `GuardedRefine`, `GuardedAnalysis`, `GuardedState`, `GuardedExact` | condition facts and guarded disjuncts |
| `ParamIntervals`, `ParamSeeding`, `SeedingExact` | entry ranges of parameters over calls |
| `CountingLoop`, `SeedingGap` | a family of loops on which the entry ranges hold up to one length and fail beyond it |
| `Scc`, `SummarySolver`, `SummaryRegistry` | call-graph components and the summary table |
| `Summaries`, `SummaryMerge`, `SummaryStore`, `TargetMerge` | summary records, merging, the cross-file store |
| `Decimal`, `TextFormat`, `SummaryFile`, `SummaryFileStore`, `SummaryFormat` | the version 11 text format |
| `Aliases`, `AliasClosure` | local copies of pointer parameters |
| `ContractSyntax`, `ContractLexer`, `ContractGrammar`, `ContractParser`, `ContractThrows`, `ContractExact` | contract clauses |

## Where the code and its promises part

Each of these is a property that does not hold of the code as written; the model keeps the code
and proves when the property does hold.

- A seeding pass is called sound for any pass cap (src/engine/ParamIntervals.cpp:92-106), but it
  does not look at whether each caller's dataflow converged. It is sound when the graph of every
  function with a tracked call passes `CapSuffices`, a test on the graph and the number of
  variables alone (`BuildSoundWhenSmall`), and more generally when those analyses converge
  (`BuildParamIntervalsSound`). On a loop of n blocks that counts up and calls g, every n, the
  intervals are sound exactly up to 23 blocks; from 24 on the recorded interval is [0, 7] and an
  execution calls with 8 (`SeedingSoundExact`).
- Literals are read by sign extension. The reading contains the value exactly when the literal's
  top bit is clear (`LiteralReadingExact`).
- `x > INT64_MAX` and `x < INT64_MIN` refine to the empty interval, which drops unsigned 64-bit
  values beyond the range; nothing else is ever dropped (`ConstrainExact`).
- An untrusted call writing a non-const reference argument leaves the old interval in place when
  the variable's type range is not finite in 64 bits. The transfer is sound exactly when every
  such argument has a finite type range (`TransferSoundExact`).
- A literal assignment stamps the literal before conversion: `unsigned char x = 256;` stamps 256
  (`TruncatedStampFails`). The stamp is true exactly when the conversions keep the value
  (`StampExact`).
- A call that takes a keyable local by non-const reference erases none of its facts, and a live
  branch can be dropped (`StaleFactDropsLiveEdge`). The facts of a disjunct stay true over every
  effect of the call exactly when none of them that can be false speaks about such an argument
  (`FactsPersistExact`), so all facts do exactly when every such argument is unkeyable
  (`AllFactsPersistExact`).
- A clearing merge of an ownership vector lets the older effect column answer, which can claim
  more than one side did. The merge is weaker than both sides exactly when no parameter's
  ownership resurfaces that way (`MergeStrengthExact`).
- An empty null-condition range reloads as the unbounded one; apart from that and a field set
  equal to {"-"}, every summary survives saving (`StoreRoundTrip`).
- A local copied from a parameter that is no pointer can be classified as the alias of another
  parameter. A clean alias holds only its parameter's value exactly when no other copied
  parameter reaches it (`CleanAliasExact`).
- A number beyond 64 bits throws out of the contract parser (`NumberThrows`): exactly when what
  precedes the first such number is the beginning of a clause (`ThrowsExact`).

Two facts about a helper and a format, which no input of the tool brings out: clause kinds are
told apart by the first characters of the text, so `owns` is recognised exactly without leading
blanks (`OwnershipKindExact`), which the one caller strips; and the field set {"-"}, not a name
in C, cannot be written to a file when the function has one parameter (`LineRoundTrip`).

## Model

| member | source | states |
|---|---|---|
| Int64.CheckedAdd | src/engine/Interval.cpp:27-37 | the pre-checked addition yields the sum exactly when it is a 64-bit value; its own range tests never leave the type |
| Int64.CheckedMul | src/engine/Interval.cpp:39-48 | the same for products, by truncating division in the four sign cases |
| Int64.ProductFits | src/engine/Interval.cpp:39-48 | each of the four quotient comparisons is true exactly when the product does not fit |
| Int64.QuotientAndRemainder | src/engine/IntervalEval.cpp:51-66 | C's truncating `/` and `%` (section 6.5.5 of ISO/IEC 9899:2011) |
| Intervals.SameMembers | src/engine/Interval.cpp:50-121 | two intervals are equal exactly when they have the same members, so the engine's change test is exact |
| Intervals.JoinIsLeast | src/engine/Interval.cpp:123-142 | join is the least interval containing both |
| Intervals.MeetIsIntersection | src/engine/Interval.cpp:144-176 | meet contains exactly the common members |
| Intervals.WidenStabilises | src/engine/Interval.cpp:178-204 | widening contains the new interval and keeps exactly the bounds that did not move outwards; along a growing chain every bound stays or becomes infinite |
| Intervals.AddTight | src/engine/Interval.cpp:230-251 | the sum is the smallest interval of all pairwise sums when its finite bounds are 64-bit values, and top exactly otherwise |
| Intervals.SubTight | src/engine/Interval.cpp:253-255 | the same for differences, whose right bounds must also have a 64-bit opposite |
| Intervals.NegateTight | src/engine/Interval.cpp:206-228 | negation is the smallest interval of the negated members, and top exactly when a bound is INT64_MIN |
| Intervals.MulTight | src/engine/Interval.cpp:257-279 | the product is the smallest interval of all pairwise products for a zero factor or bounded factors with 64-bit corner products, and top exactly otherwise |
| Intervals.MulSound | src/engine/Interval.cpp:257-279 | every pairwise product lies in the product, empty and unbounded operands included |
| IntervalEval.ConstrainExact | src/engine/IntervalEval.cpp:341-353 | a comparison with a constant keeps exactly the members that satisfy it, apart from values beyond 64 bits at the two extreme constants |
| IntervalEval.ConstrainNeIsHull | src/engine/Interval.cpp:298-332 | `!=` trims as much as an interval can express |
| Ast.BitAndActsOnBits | src/engine/IntervalEval.cpp:28-49 | the modelled `&` is the two's-complement one, bit by bit |
| Ast.BitAndBelowMask | src/engine/IntervalEval.cpp:28-49 | with a non-negative side the result lies between zero and that side |
| Ast.WrapRange | src/engine/IntervalEval.cpp:407-495 | integer conversion (section 6.3.1.3) lands in the type and keeps values already in it |
| IntervalEval.EvalIntervalSound | src/engine/IntervalEval.cpp:407-495 | the interval of an expression contains its value in every store the state describes |
| EvalExact.ArithmeticExact | src/engine/IntervalEval.cpp:472-484 | on non-empty operands the evaluated `+`, `-` and `*` are the smallest interval of all results, or top exactly when a bound leaves 64 bits or a factor is unbounded |
| EvalExact.SignsExact | src/engine/IntervalEval.cpp:464-471 | the same for unary minus; plus, parentheses and value-keeping casts change nothing |
| EvalExact.MaskExact | src/engine/IntervalEval.cpp:28-49 | `&` is top exactly when neither side is non-negative and bounded; a constant mask gives exactly zero to the mask |
| EvalExact.MaskTight | src/engine/IntervalEval.cpp:28-49 | no closer bound of a masked value is possible when the operand can be zero and the mask |
| EvalExact.RemainderExact | src/engine/IntervalEval.cpp:51-66 | `%` is top exactly for a zero or unknown divisor, otherwise all remainders below it, non-negative for a non-negative dividend |
| EvalExact.RemainderTight | src/engine/IntervalEval.cpp:51-66 | no closer bound is possible when the dividend reaches the outermost remainders |
| EvalExact.CastExact | src/engine/IntervalEval.cpp:420-452 | an integral conversion keeps exactly the bounded intervals inside the target type |
| EvalExact.LeavesExact | src/engine/IntervalEval.cpp:454-463 | literals, variables and untrusted sources have exactly their value, recorded interval and type range |
| IntervalEval.LiteralReadingExact | src/engine/IntervalEval.cpp:287-309 | a literal's interval contains its value exactly when the top bit is clear |
| IntervalEval.FoldConstSound | src/engine/IntervalEval.cpp:311-327 | a folded constant is the value of the expression in every store |
| IntervalExact.ConstEvalExact | src/engine/IntervalEval.cpp:311-327 | folding answers exactly the value a variable-free expression has, for all such expressions that have one |
| IntervalExact.ConstantFound | src/engine/IntervalEval.cpp:287-327 | the constant of a comparison is found: signed literals always, other folded 64-bit values with type information |
| IntervalEval.WalkSound | src/engine/ConditionWalk.h:149-227 | everything the condition walk reports is true of every store taking the edge, through negation, conjunction, disjunction, casts and mirrored sides |
| IntervalEval.WalkComplete | src/engine/ConditionWalk.h:149-227 | on conditions whose operands the walk can decide, reports that all hold let the condition take the edge |
| IntervalEval.ZeroReadingExact | src/engine/ConditionWalk.h:97-112 | the zero digest decides the variable's zeroness soundly: always on truth tests, and on comparisons with zero and equalities with literals whenever they decide it |
| IntervalEval.RefinedSound | src/engine/IntervalEval.cpp:675-701 | a described store that takes the edge stays described |
| IntervalEval.RefinedReductive | src/engine/IntervalEval.cpp:675-701 | no interval grows under refinement |
| IntervalEval.RefinedEnforces | src/engine/IntervalEval.cpp:675-701 | every constant comparison found, other than `!=`, binds all members left |
| IntervalExact.RefinedExact | src/engine/IntervalEval.cpp:675-701 | an edge keeps exactly the members that all constant comparisons and truth tests of the walk allow, apart from single excluded values and the two impossible comparisons |
| IntervalExact.ExclusionExact | src/engine/Interval.cpp:298-332 | a single excluded value leaves the hull of the other members |
| IntervalExact.UnmentionedByAtoms | src/engine/IntervalEval.cpp:675-701 | variables the condition says nothing about keep their interval |
| IntervalEval.AssignedSound | src/engine/IntervalEval.cpp:524-673 | the transfer of a statement describes every store the statement can produce |
| IntervalExact.AssignedFrame | src/engine/IntervalEval.cpp:524-673 | a statement changes no interval of a variable it does not write |
| IntervalExact.AssignedExact | src/engine/IntervalEval.cpp:524-673 | a written variable gets the interval of its value before the write, its whole type range from an untrusted call, and otherwise nothing is known |
| IntervalEval.TransferSoundExact | src/engine/IntervalEval.cpp:621-673 | over all states and effects the transfer of a statement is sound exactly when an untrusted call writes no tracked variable without a finite type range |
| IntervalEval.MergedSound | src/engine/IntervalAnalysis.h:75-87 | the merge describes both sides' stores, for equal tracked variables |
| IntervalEval.MergeCoversExact | src/engine/IntervalAnalysis.h:75-87 | for any two maps the merge describes both sides' stores exactly when variables present on one side only are unconstrained there; the analysis always merges maps over the same variables |
| IntervalExact.MergedLeast | src/engine/IntervalAnalysis.h:75-87 | the merge is the least state above both |
| IntervalState.State.ApplyAssign | src/engine/IntervalEval.cpp:524-673 | the in-place transfer computes the transfer function |
| IntervalState.State.RefineOnEdge | src/engine/IntervalEval.cpp:675-701 | the walk with updating callbacks computes the refinement function |
| IntervalState.State.Widen | src/engine/IntervalAnalysis.h:109-114 | the in-place loop keeps single values and makes every other interval top |
| IntervalExact.WidenedExact | src/engine/IntervalAnalysis.h:109-114 | widening keeps an interval with one member and forgets every other |
| IntervalState.Analysis.Run | src/engine/IntervalAnalysis.h:39-132 | the recorded states and the convergence flag are those of the engine's solution |
| Dataflow.VisitKeepsQueue | src/engine/DataflowEngine.h:434-454 | after every visit no block is pending twice |
| DataflowEngine.ComputeEntryState | src/engine/DataflowEngine.h:292-431 | the entry state of a block, rewind, pruned edges and refinement included |
| EngineExact.EntryJoinsEdges | src/engine/DataflowEngine.h:360-431 | without a rewind a block is entered in the join, in predecessor order, of exactly the states its edges carry: refined on the side of a branch with two different successors, dropped when flags rule the side out, unchanged otherwise |
| EngineExact.EntryBehindBranch | src/engine/DataflowEngine.h:385-416 | behind one side of a branch only, it is entered in the refined exit with the right polarity, or not at all |
| EngineExact.RewindExact | src/engine/DataflowEngine.h:298-359 | at the join of a selection the state before it is restored exactly when both arms left their refined states unchanged |
| EngineExact.PrunedNeverReported | src/engine/DataflowEngine.h:392-416 | a block all of whose edges are ruled out has no exit and nothing in the report |
| EngineExact.StoppedNeverLeft | src/engine/DataflowEngine.h:500-520 | a block that calls something that does not return never has an exit |
| EngineExact.VisitedExitExact | src/engine/DataflowEngine.h:475-541 | a visit records exactly what guards and transfers make of the state it starts from, other exits unchanged, and nothing when control stops |
| EngineExact.EntryVisitedOnce | src/engine/DataflowEngine.h:434-541 | the entry block leaves what its elements make of the initial state |
| EngineExact.ReportExact | src/engine/DataflowEngine.h:550-594 | the report holds exactly the elements of entered blocks up to the first fatal one, with the guarded state the elements before make of the entry state |
| DataflowEngine.VisitFront | src/engine/DataflowEngine.h:475-541 | one iteration of the loop, with widening memory, killed paths and change test |
| DataflowEngine.RunFixpoint | src/engine/DataflowEngine.h:434-548 | the capped loop computes the iteration function |
| DataflowEngine.RunDataflow | src/engine/DataflowEngine.h:215-598 | both phases together compute the solution the theorems speak about |
| DataflowSoundness.ComputeEntryCovers | src/engine/DataflowEngine.h:292-431 | the computed entry state covers every recorded incoming edge, on the rewind path as well |
| DataflowSoundness.VisitKeepsInvariant | src/engine/DataflowEngine.h:475-541 | every visit keeps: the entry last used by a block that is not queued covers every recorded incoming edge |
| DataflowSoundness.ReportDescribesRuns | src/engine/DataflowEngine.h:292-594 | when the worklist drains, the state recorded before any element describes every concrete run reaching it; local soundness only, no monotonicity |
| DataflowSoundness.RecordedStateDescribes | src/engine/DataflowEngine.h:550-594 | a run that goes on past the element is described by the recorded state itself |
| DataflowSoundness.EntryDescribesRuns | src/engine/DataflowEngine.h:550-594 | the entry state recomputed from the final exits describes every run entering the block |
| Drain.WorklistDrains | src/engine/DataflowEngine.h:434-548 | monotone analysis, least-upper-bound merge, chains of at most h climbs, no widening or rewind: the queue is empty after 1 + sum of outdegree * (h + 1) visits |
| Drain.ConvergesWithinCap | src/engine/DataflowEngine.h:272-280 | the coded cap suffices when it is no smaller than that bound |
| Drain.ConvergedIsLeastSolution | src/engine/DataflowEngine.h:434-548 | for such analyses a converged run is the least solution of the flow equations |
| WideningDrain.WideningDrains | src/engine/DataflowEngine.h:456-541 | delayed widening with memory, no monotonicity, any graph: with any budget of changes that feeds itself along the edges, the uncapped worklist is empty after one visit and one for each budgeted change of each edge |
| WideningDrain.WideningDrainsFlat | src/engine/DataflowEngine.h:456-541 | in particular after 1 + sum of outdegree * (latticeHeight + 3 + climbs of a widened state) visits |
| WideningDrain.WideningConvergesWithinCap | src/engine/DataflowEngine.h:272-280 | the coded cap suffices when a budget computed from the graph fits it |
| IntervalDrain.IntervalsStabilise | src/engine/IntervalAnalysis.h:104-115 | a widened interval state only ever falls from single values to unknown |
| IntervalDrain.IntervalsDrain | src/engine/IntervalAnalysis.h:104-115 | the numeric analysis drains on every graph, within 1 + sum of outdegree * (latticeHeight + 3 + number of variables) visits |
| IntervalDrain.SmallConverges | src/engine/DataflowEngine.h:272-280 | it converges under the coded cap on every graph that passes the test `CapSuffices` |
| GuardedDrain.WidenedMergeRaises | src/engine/GuardedDisjuncts.h:77-160 | joining a widened state with anything and widening again only loses facts and raises values |
| GuardedDrain.GuardedStabilise | src/engine/DataflowEngine.h:456-473 | the guarded domain, whose transfer is not monotone, meets the widening laws: facts that flip are gone from the memory for good |
| GuardedDrain.PlainClientSettles | src/engine/GuardedDisjuncts.h:77-98 | every client that passes only a value merge does, when the merge is an upper bound in an order of bounded height |
| GuardedDrain.GuardedDrains | src/engine/DataflowEngine.h:456-541 | on every graph the guarded analysis drains, within 1 + sum of outdegree * (latticeHeight + 4 + keys facts can be about + variables * value height) visits |
| GuardedDrain.GuardedConvergesWithinCap | src/engine/DataflowEngine.h:272-280 | the coded cap suffices when a budget computed from the graph fits it |
| IntervalAnalysis.EdgeConditionSound | src/engine/DataflowEngine.h:144-205 | the stripped branch condition takes the edge exactly as the whole one, flipped when it says so |
| IntervalExact.EdgeConditionBare | src/engine/DataflowEngine.h:144-205 | nothing transparent is left around the refined condition |
| IntervalAnalysis.FlagPruningSound | src/engine/ImmutableFlags.cpp:162-236 | no store with the flags' values takes a pruned edge |
| IntervalExact.FlagBranchExact | src/engine/ImmutableFlags.cpp:162-236 | a branch on a flag with a known value is ruled out exactly on the side the value does not take |
| IntervalExact.FlagComparisonExact | src/engine/ImmutableFlags.cpp:162-236 | and so is one on its equality with a constant, either way round |
| IntervalAnalysis.IntervalsLocallySound | src/engine/IntervalAnalysis.h:39-121 | the interval operations satisfy every local law of the engine theorem |
| IntervalAnalysis.InitialDescribes | src/engine/IntervalAnalysis.h:56-73 | the initial state describes exactly the stores its seeds allow, every store without seeds |
| IntervalAnalysis.RecordedIntervalsContainValues | src/engine/IntervalAnalysis.h:56-121 | end to end: under a converged run the interval recorded at a statement contains the variable's value on every execution reaching it |
| IntervalExact.RecordedBehindBranch | src/engine/IntervalAnalysis.h:56-121 | the state recorded first behind a branch is the refined exit of the branch, and is there exactly when the branch was reached and not ruled out |
| IntervalExact.BranchBindsReport | src/engine/IntervalAnalysis.h:56-121 | it keeps of every interval exactly what the condition's constant comparisons allow |
| IntervalExact.ComparisonBindsReport | src/engine/IntervalAnalysis.h:56-121 | behind `if (d op k)` no recorded value of d contradicts the comparison, on either side |
| PathFacts.NormalizeCompareExact | src/engine/PathFacts.cpp:93-138 | a key is true exactly when the comparison is, and comparisons without a key have one outcome for the whole type |
| GuardedExact.NegationSharesKey | src/engine/PathFacts.cpp:93-138 | a comparison and its negation have the same key, with opposite values |
| GuardedExact.ZeroComparisonsShareKey | src/engine/PathFacts.cpp:93-138 | comparisons of an unsigned variable with zero that mean the same have the same fact |
| PathFacts.ConditionFactExact | src/engine/PathFacts.cpp:294-358 | the recorded key has the recorded value exactly when the condition is true |
| GuardedExact.VariableKeyed | src/engine/PathFacts.cpp:294-358 | every keyable variable is a fact as a condition, also negated |
| GuardedExact.ComparisonKeyed | src/engine/PathFacts.cpp:294-358 | its comparison with a signed literal is one unless the unsigned type alone decides it |
| PathFacts.StrictBoundSound | src/engine/PathFacts.cpp:253-292 | on the true edge of a strict unsigned bound the bound is not zero |
| GuardedExact.StrictBoundKeyed | src/engine/PathFacts.cpp:253-292 | `X < n` and `n > X` with X and n of unsigned types, X of any form, both give the fact about n |
| PathFacts.FalseEdgeLeavesBoundOpen | src/engine/PathFacts.cpp:253-292 | the false edge allows a zero bound and a non-zero one |
| PathFacts.FactsContradictExact | src/engine/PathFacts.cpp:520-545 | a reported contradiction is real, and facts that speak about a key answer exactly its value |
| GuardedExact.FactsRefuteExact | src/engine/GuardedDisjuncts.h:365-373 | facts that speak about a condition refute exactly the side it does not go to |
| PathFacts.ScanFacts | src/engine/PathFacts.cpp:520-545 | the scan computes the contradiction test |
| PathFacts.StampExact | src/engine/PathFacts.cpp:489-518 | the stamp of a literal assignment or single-declaration initialiser is true after every execution exactly when conversions keep the literal's value |
| PathFacts.TruncatedStampFails | src/engine/PathFacts.cpp:489-518 | a stamp that is false |
| Guarded.NormalizeShape | src/engine/GuardedDisjuncts.h:162-205 | at most four disjuncts, with strictly increasing fact maps |
| GuardedExact.NormalizeKeepsFacts | src/engine/GuardedDisjuncts.h:162-205 | up to four different fact maps are all kept, one disjunct each; of more, one disjunct is left with exactly the facts all agree on |
| GuardedExact.LoneKept | src/engine/GuardedDisjuncts.h:162-205 | of up to four, a disjunct alone with its facts is kept with its values |
| GuardedExact.PairMeets | src/engine/GuardedDisjuncts.h:162-205 | two disjuncts with the same facts become one with the meet of their values |
| GuardedExact.PairCollapses | src/engine/GuardedDisjuncts.h:77-160 | collapsing two disjuncts merges their values |
| Guarded.NormalizeIdempotent | src/engine/GuardedDisjuncts.h:162-205 | a canonical state is left as it is |
| Guarded.NormalizeIgnoresOrder | src/engine/GuardedDisjuncts.h:162-205 | the canonical form depends only on the multiset of disjuncts, for any value operations |
| Guarded.MergeCommutes | src/engine/GuardedDisjuncts.h:207-215 | the join is commutative for any value merge |
| Guarded.WidenCovers | src/engine/GuardedDisjuncts.h:77-160 | the collapse covers every state any disjunct covered, mined information included |
| Guarded.NormalizeCovers | src/engine/GuardedDisjuncts.h:162-205 | normalising loses no covered state when all disjuncts track the same variables |
| Guarded.MergeCovers | src/engine/GuardedDisjuncts.h:207-229 | a join covers both sides |
| GuardedExact.MergeKeepsFacts | src/engine/GuardedDisjuncts.h:207-229 | a join keeps all fact maps of both sides when there are at most four |
| GuardedRefine.ApplyFactLeafSound | src/engine/GuardedDisjuncts.h:338-373 | a leaf that went the given way contradicts nothing true, and what it records is true |
| GuardedExact.ApplyFactLeafLearns | src/engine/GuardedDisjuncts.h:338-373 | the facts recorded for a leaf with a key allow no store in which it goes the other way |
| GuardedExact.ApplyFactLeafBounds | src/engine/GuardedDisjuncts.h:338-373 | and on the true edge of a strict unsigned bound none in which the bound is zero |
| GuardedRefine.RefineDisjunctSound | src/engine/GuardedDisjuncts.h:242-333 | refinement never drops a disjunct covering a state that takes the edge, disjunction elimination and domain hooks included |
| GuardedExact.CoreBare | src/engine/GuardedDisjuncts.h:242-262 | no cast that keeps the branch is left around the condition whose leaves are read |
| GuardedExact.RefineDisjunctLearns | src/engine/GuardedDisjuncts.h:242-333 | a disjunct refined by a condition its leaves decide covers only states in which the condition goes that way: both-hold conditions, and one-holds conditions with a refuted operand |
| GuardedExact.LeafDropped | src/engine/GuardedDisjuncts.h:465-477 | a refuting domain drops the disjunct at a leaf; otherwise the domain's new values are taken |
| GuardedAnalysis.RefineDisjunctExtends | src/engine/GuardedDisjuncts.h:242-333 | refinement only adds facts |
| GuardedAnalysis.RefinedCovers | src/engine/GuardedDisjuncts.h:378-463 | the same for the whole state, through the final normalisation |
| GuardedAnalysis.RefinedReductive | src/engine/GuardedDisjuncts.h:378-463 | a store with some true disjunct after refining had one before |
| GuardedAnalysis.OthersKept | src/engine/PathFacts.cpp:469-487 | a statement changes nothing but its assigned variable, by-reference arguments and the variables of an unsplit declaration |
| GuardedAnalysis.StampedValue | src/engine/PathFacts.cpp:489-518 | after a statement with a true stamp the target holds the stamped value |
| GuardedExact.RestampedExact | src/engine/GuardedDisjuncts.h:547-585 | facts about other variables stay, the target's go, and the stamp is the one fact about it |
| GuardedExact.StampFound | src/engine/PathFacts.cpp:489-518 | a stampable variable given a signed literal is stamped with its value |
| GuardedExact.AssignmentExact | src/engine/GuardedDisjuncts.h:547-585 | up to four disjuncts are erased and stamped each, and exactly the different results remain |
| GuardedExact.SingleTransfer | src/engine/GuardedDisjuncts.h:547-585 | a single disjunct also takes the client's new values |
| GuardedAnalysis.RestampedHold | src/engine/GuardedDisjuncts.h:547-585 | erase and stamp turn facts true before a statement into facts true after it, as long as no falsifiable fact speaks about something the statement rewrites unseen |
| GuardedAnalysis.ApplyStmtCovers | src/engine/GuardedDisjuncts.h:547-585 | the updated disjuncts cover the state after the statement |
| GuardedAnalysis.FactsPersistExact | src/engine/GuardedDisjuncts.h:547-585 | facts stay true over every effect of a call exactly when none that can be false keys a by-reference argument |
| GuardedAnalysis.AllFactsPersistExact | src/engine/PathFacts.cpp:175-218 | every fact map does, exactly when all by-reference arguments are unkeyable |
| GuardedAnalysis.StaleFactDropsLiveEdge | src/engine/GuardedDisjuncts.h:338-373 | for every keyable variable, after a by-reference write a true branch is refined away |
| GuardedAnalysis.PlainClientSafe | src/engine/GuardedDisjuncts.h:465-477 | a client without hooks satisfies the laws, whatever its value merge |
| GuardedAnalysis.FactsLocallySound | src/engine/GuardedDisjuncts.h:162-585 | the disjunct operations satisfy every local law of the engine theorem |
| GuardedAnalysis.InitialDescribes | src/rules/NullDerefRule.cpp:797-803 | the initial state describes every store |
| GuardedAnalysis.SomeDisjunctIsTrue | src/engine/GuardedDisjuncts.h:547-585 | over every run of assignments, calls, guards and joins, the state recorded at a statement has a disjunct all of whose facts are true there; variables calls write by reference may go stale as long as no branch of the run mentions them |
| GuardedExact.GuardedBehindBranch | src/engine/GuardedDisjuncts.h:378-463 | the guarded state recorded first behind a branch is the refined exit of the branch, and is there exactly when the branch was reached and not ruled out |
| GuardedExact.BranchLearned | src/engine/GuardedDisjuncts.h:378-463 | the state recorded first behind a branch its leaves decide holds no disjunct whose facts a store going the other way satisfies |
| GuardedState.Disjunct.Refine | src/engine/GuardedDisjuncts.h:242-333 | the walk that updates one disjunct computes the refinement function |
| GuardedState.Disjuncts.NormalizeState | src/engine/GuardedDisjuncts.h:162-205 | the in-place canonical form |
| GuardedState.Disjuncts.WidenState | src/engine/GuardedDisjuncts.h:77-160 | the in-place collapse |
| GuardedState.Disjuncts.RefineState | src/engine/GuardedDisjuncts.h:378-463 | the in-place refinement of all disjuncts |
| GuardedState.Disjuncts.ApplyStatement | src/engine/GuardedDisjuncts.h:547-585 | the in-place erase and stamp |
| ParamIntervals.ArgumentsCovered | src/engine/ParamIntervals.cpp:107-145 | what the seeded analysis recorded at a reached call contains the value of every argument |
| ParamIntervals.SeedingPassSound | src/engine/ParamIntervals.cpp:92-155 | from a map every call history respects, a pass computes one every call history respects |
| ParamIntervals.PassesSound | src/engine/ParamIntervals.cpp:157-191 | so does any number of passes; the cap decides only how narrow the intervals are |
| ParamIntervals.BuildParamIntervalsSound | src/engine/ParamIntervals.cpp:157-191 | every call of every history, recursion and cycles included, passes arguments inside the recorded entry intervals |
| ParamIntervals.BuildSoundWhenSmall | src/engine/ParamIntervals.cpp:157-191 | the built map is sound for every history when each function with tracked calls passes the cap test, whatever the passes compute |
| SeedingExact.JoinCallersExact | src/engine/ParamIntervals.cpp:107-145 | the joined entry of a parameter is the smallest interval containing what every call passes |
| SeedingExact.PassExact | src/engine/ParamIntervals.cpp:147-155 | a pass records it, and top for a parameter nothing is passed for |
| SeedingExact.SeededInitial | src/engine/ParamIntervals.cpp:193-215 | a parameter of the analysed caller starts in the interval recorded for it |
| SeedingExact.ChainReachExact | src/engine/ParamIntervals.cpp:177-191 | down a chain of calls of any length a literal is known exactly three calls deep |
| CountingLoop.RingResult | src/engine/DataflowEngine.h:434-548 | on a counting loop of any number n of blocks the capped analysis converges exactly for n <= 21, and what it records at the call is stale exactly for n >= 24 |
| SeedingGap.SeedingSoundExact | src/engine/ParamIntervals.cpp:92-155 | on the unit with that loop, for every n, the built entry intervals hold on all histories exactly for n <= 23 |
| ParamSeeding.Seeding.RunPass | src/engine/ParamIntervals.cpp:107-155 | the nested joining loops compute one pass |
| ParamSeeding.Seeding.Build | src/engine/ParamIntervals.cpp:157-191 | the outer loop computes the passes up to a fixpoint or the cap |
| ParamSeeding.CallsToCandidates | src/engine/ParamIntervals.cpp:74-88 | the calls found are the calls to tracked functions, in order |
| Scc.SccFinder.Visit | src/engine/FunctionSummary.cpp:3261-3311 | visiting a node keeps the search invariant and emits only complete components |
| Scc.SccFinder.Run | src/engine/FunctionSummary.cpp:3261-3311 | the emitted sequence covers all nodes, and each component is the next sink component |
| Scc.ComponentsPartition | src/engine/FunctionSummary.cpp:3261-3311 | every function lies in exactly one component |
| Scc.SameComponentIffMutual | src/engine/FunctionSummary.cpp:3261-3311 | two functions share a component exactly when each reaches the other |
| Scc.CalleesFirst | src/engine/FunctionSummary.cpp:3261-3311 | a callee's component comes no later than its caller's, however deep the chain |
| SummaryRegistry.BuildCallGraph | src/engine/FunctionSummary.cpp:3208-3258 | the edges are exactly the calls between known functions, each function listed once |
| SummaryRegistry.SolveRecursive | src/engine/FunctionSummary.cpp:3509-3538 | the sweep loop finds the fixpoint or falls back to the first sweep |
| SummaryRegistry.Registry.Rebuild | src/engine/FunctionSummary.cpp:3473-3558 | the table is the solution for every call graph and component order of the given functions, and the call-site table joins the summaries of every indirect call's targets |
| SummaryRegistry.CallSummaryExact | src/engine/FunctionSummary.cpp:3541-3555 | a call through a pointer has a summary exactly when it has targets and each has one, the unit's own before the store's; it is theirs joined in order |
| SummarySolver.TableIsFixedPoint | src/engine/FunctionSummary.cpp:3484-3540 | every function that is not recursive, or whose component's rounds repeat within 16 or 4 per member and 4 more, has exactly the summary computed from the final table |
| SummarySolver.ComponentSettles | src/engine/FunctionSummary.cpp:3509-3538 | a recursive component ends in the round that repeats in time, in its first round when none does |
| SummarySolver.MonotoneSettles | src/engine/FunctionSummary.cpp:3509-3538 | over an order in which no summary rises more than four times, every component settles |
| SummarySolver.SolvedMatches | src/engine/FunctionSummary.cpp:3509-3538 | a component's solution depends only on its members and the outside summaries it calls |
| SummarySolver.OrderIndependent | src/engine/FunctionSummary.cpp:3484-3540 | the final table is the same for every order of functions, calls and components, fallback included |
| SummaryMerge.MergeIsStrongestCommonWeakening | src/engine/FunctionSummary.cpp:3586-3687 | the merge claims no more than either side, and the most among summaries that do not |
| SummaryMerge.MergeCommutes | src/engine/FunctionSummary.cpp:3586-3687 | commutative, up to what the accessors answer |
| SummaryMerge.MergeAssociates | src/engine/FunctionSummary.cpp:3586-3687 | associative, up to what the accessors answer |
| SummaryMerge.MergeIdempotent | src/engine/FunctionSummary.cpp:3586-3687 | idempotent, up to what the accessors answer |
| SummaryMerge.MergeStrengthExact | src/engine/FunctionSummary.h:156-167 | for any two summaries, mixed formats included, the merge claims no more than either exactly when no parameter's ownership resurfaces from the older effect column |
| SummaryMerge.Cell.MergeConservative | src/engine/FunctionSummary.cpp:3586-3687 | the in-place merge computes the merge function |
| SummaryStore.StoreOrderIndependent | src/engine/FunctionSummary.cpp:3991-3997 | the store is the same for every order of harvests and loads |
| SummaryStore.StoreDependsOnOffersOnly | src/engine/FunctionSummary.cpp:4364-4373 | it depends only on which summaries were offered under which keys, repeats included |
| SummaryStore.StoreNeverStronger | src/engine/FunctionSummary.cpp:3991-3997 | nothing in the store is stronger than any summary offered for the key |
| SummaryStore.Global.HarvestGlobal | src/engine/FunctionSummary.cpp:3991-3997 | the harvesting loop, visible functions only |
| SummaryStore.Global.LoadGlobal | src/engine/FunctionSummary.cpp:4364-4373 | the loading loop |
| TargetMerge.MergeHonest | src/engine/FunctionSummary.cpp:3586-3687 | the conservative merge is true of every call either side is true of |
| TargetMerge.MergeTargetsHonest | src/engine/FunctionSummary.cpp:3689-3755 | a call that may go to either target does what the joined summary says |
| TargetMerge.MergeTargetsIsStrongest | src/engine/FunctionSummary.cpp:3689-3755 | a summary claims no more than both targets' exactly when it claims no more than the joined one |
| TargetMerge.AllTargetsHonest | src/engine/FunctionSummary.cpp:3541-3555 | the summary of an indirect call is true of calls to every target |
| TargetMerge.TargetCell.MergeTarget | src/engine/FunctionSummary.cpp:3689-3755 | the in-place target merge |
| SummaryFile.LineRoundTrip | src/engine/FunctionSummary.cpp:4017-4087 | a saved line of 15 columns reads back, or is rejected when it carries the one field set the format cannot |
| SummaryFile.ReloadedAnswers | src/engine/FunctionSummary.cpp:4036-4046 | reloading changes no accessor's answer exactly when the condition range is not empty |
| SummaryFormat.LettersRead | src/engine/FunctionSummary.cpp:3790-3938 | the letters of each of the nine letter columns and what each stands for |
| SummaryFormat.ParseLineExact | src/engine/FunctionSummary.cpp:4090-4355 | a line is accepted as a key and summary exactly when its 15 columns are written as the format says |
| SummaryFormat.SaveLineExact | src/engine/FunctionSummary.cpp:4017-4087 | a saved line is such a line, for a summary with the same answers |
| SummaryFormat.ParseTextExact | src/engine/FunctionSummary.cpp:4090-4362 | a text is accepted exactly when its first line is the version 11 header and every other line is empty or of the format |
| SummaryFormat.ParsedStore | src/engine/FunctionSummary.cpp:4355-4362 | the accepted store is the one harvesting its entries in order gives, repeated keys merged |
| SummaryFileStore.StoreRoundTrip | src/engine/FunctionSummary.cpp:4010-4362 | a saved store reads back with identical answers exactly when every summary is one the format can carry |
| SummaryFileStore.AcceptedTextSavesAndReloads | src/engine/FunctionSummary.cpp:4090-4362 | any accepted text gives a store that saves and reloads with identical answers |
| SummaryFileStore.Parsed.ParseFile | src/engine/FunctionSummary.cpp:4090-4362 | the cursor loops accept what the format says and hand nothing over on a defect |
| SummaryFileStore.FieldSetsLoop | src/engine/FunctionSummary.cpp:4293-4343 | the nested `;` and `,` loops |
| SummaryFileStore.SaveLoop | src/engine/FunctionSummary.cpp:4010-4088 | the writing loop |
| TextFormat.SplitLoop | src/engine/FunctionSummary.cpp:4128-4136 | the cursor loop splits at every separator |
| Aliases.CleanAliasHoldsItsParameter | src/engine/FunctionSummary.cpp:1602-1708 | under any sequence of the collected copies a clean alias holds its undefined start value or its parameter's entry value |
| Aliases.UnreportedParameterStaysInFamily | src/engine/FunctionSummary.cpp:1644-1708 | every local that ever holds an unreported parameter's entry value is one of its clean aliases |
| Aliases.FedIsCarried | src/engine/FunctionSummary.cpp:1671-1692 | a parameter that reaches a local through clean copies is carried there by some sequence of collected copies |
| Aliases.CleanAliasExact | src/engine/FunctionSummary.cpp:1671-1708 | over all sequences of copies from any copied parameter, a clean alias holds only its own parameter's value exactly when no other copied parameter reaches it |
| AliasClosure.PropagateTaint | src/engine/FunctionSummary.cpp:1657-1669 | the loop reaches the least set closed under copies of dirty locals |
| AliasClosure.Search | src/engine/FunctionSummary.cpp:1671-1692 | the frontier search finds exactly what a parameter reaches through clean locals, and whether it spills |
| AliasClosure.ComputeAliases | src/engine/FunctionSummary.cpp:1653-1708 | clean aliases have exactly one source; exactly the parameters that spill or share a local are reported |
| ContractLexer.Lexer.Next | src/contracts/ContractParser.cpp:30-111 | the advancing tokenizer yields the token sequence of the text |
| ContractLexer.RenderLexRoundTrip | src/contracts/ContractParser.cpp:30-111 | tokens written out with spaces read back as the same tokens |
| ContractExact.TokensExact | src/contracts/ContractParser.cpp:30-111 | the tokens of any text are its one division into longest lexemes, with or without blanks |
| ContractGrammar.AcceptsExactlyTheGrammar | src/contracts/ContractParser.h:6-19 | the parser accepts exactly the token sequences of the grammar and builds the meaning of the derivation |
| ContractGrammar.MeaningUnique | src/contracts/ContractParser.h:6-19 | no token sequence has two meanings |
| ContractGrammar.PrintParseRoundTrip | src/contracts/ContractParser.cpp:133-237 | printing with compound children in parentheses and parsing gives the same tree |
| ContractParser.TextAcceptedExactly | src/contracts/ContractParser.cpp:239-288 | a clause text without leading blank is accepted exactly when its tokens are in the grammar |
| ContractParser.OwnershipKindExact | src/contracts/ContractParser.cpp:268-283 | the helper reads `owns` as owns exactly when no blank precedes it; its caller strips blanks |
| ContractParser.ClauseTextRoundTrip | src/contracts/ContractParser.cpp:239-288 | a predicate written as clause text parses to itself |
| ContractParser.Parser.ParsePred | src/contracts/ContractParser.cpp:217-233 | the stateful descent computes the parsing function, and the failure flag says no more than the lookahead |
| ContractParser.Parser.ParseClause | src/contracts/ContractParser.cpp:239-288 | the same for whole clauses other than policies |
| ContractParser.ParseClauseBody | src/contracts/ContractParser.cpp:239-313 | the outcome of a clause text: accepted, rejected, or a number that throws |
| ContractExact.PolicyExact | src/contracts/ContractParser.cpp:289-311 | a text is a policy clause exactly when it is the keyword, blanks and a name of word characters and dashes starting with a letter, and it has that name |
| ContractThrows.ThrowsExact | src/contracts/ContractParser.cpp:84-95 | a clause text throws exactly when the tokens before its first number beyond 64 bits begin some clause |
| ContractThrows.ReadableNeverThrows | src/contracts/ContractParser.cpp:84-95 | a text without such a number never throws |
| ContractThrows.NumberThrows | src/contracts/ContractParser.cpp:84-95 | for every integer beyond 64 bits, a clause text that throws |

## Left out

- AssignedSound: the scanf width bounds and the set of untrusted variables are not part of the state; statements satisfy `Seedable` (`TransferSoundExact` is the exact condition).
- RecordedIntervalsContainValues: variables whose address is taken only through call arguments, values that are 64-bit signed, comparisons without a value-changing implicit cast and literals with the top bit clear; the condition walk strips casts and would be wrong otherwise.
- BuildParamIntervalsSound: asks that every caller with tracked calls converged in every pass, because the pass does not look at it; `BuildSoundWhenSmall` gives a test on the graphs, `SeedingSoundExact` shows both that some condition is needed and that convergence is not always.
- SmallConverges: a sufficient test; loops between its bound and the exact cap-off point (22 blocks on the counting loop) converge without passing it.
- ConditionFactExact: pointer keys, member keys, enum constants and constant-returning callees of the cited function are not modelled.
- SomeDisjunctIsTrue: speaks about facts on keyable variables that no by-reference call writes; a branch that mentions such a variable can be wrong (`StaleFactDropsLiveEdge`). A fact stamped on an address-taken local is never asked about and may be stale. Domain refuters must follow from the facts there, because merging values after refinement is not reductive and the rewind needs that; `RefineDisjunctSound` and `RefinedCovers` hold for any sound domain refuter.
- RestampedHold: a declaration without initialiser is taken to leave the store as it was, a stamp to keep its literal's value (`StampExact`), and by-reference arguments to carry no falsifiable fact (`FactsPersistExact` shows that this is exactly what is needed).
- ApplyStmtCovers: under the same conditions as `RestampedHold`.
- WorklistDrains: no widening and no rewind; `WideningDrains` covers those.
- GuardedDrains: collapse miners record values only and never lower one; a miner that sharpens the collapsed values is not covered.
- CleanAliasHoldsItsParameter: copied parameters are pointers and are not reassigned; increments of a local are not collected by the source. `CleanAliasExact` covers copies of any parameter.
- StoreRoundTrip: version 11 only, and any enumeration order of a field set; older versions are recognised by the source and rejected here.
- Parsed.ParseFile: version 11 only, as `StoreRoundTrip`.
- MergeIsStrongestCommonWeakening: summaries with filled vectors of one length; `MergeStrengthExact` says when mixing older summaries stays weaker than both.
- AllTargetsHonest: what a call did is given by free predicates per axis, not by an execution of the callee.
- ParseClauseBody: comment scanning and stripping of contract lines are not modelled.
- A two-way switch is refined by the source as if its condition were a boolean; runs over such blocks are outside the branch hypothesis of the run theorems.
- `sizeof` evaluation and static locals of the interval analysis.
- Key collection over a function body is a parameter of the path facts.
- What one function's summary is computed from: it is an arbitrary function of the node and the part of the table it calls. Which functions an indirect call may reach is a parameter.
- Reporting hooks other than the recorded state, exceptional edges, element-level transfer and call flags of the engine.
- The orders by address that sort disjuncts are arbitrary strict total orders; `std::sort` is a sorting function.
- Syntax-tree traversal, control-flow graph construction, caches, source locations, rules, reporters, configuration and scripts.
