# Verified model of the mutation-testing engine

A mutation-testing engine changes a program in many small ways and asks, of each change, whether the tests notice.
This project models the parts of the engine on which that answer depends and proves them with Dafny 4.11. Run
`dafny verify dfyconfig.toml` to check everything.

**Mutant schemata.** All mutants are put into one program behind runtime switches. `Syntax` and `Semantics` give a small
JavaScript-like language (literals, variables, operators, short-circuit and conditional expressions, sequences, member
access, calls, assignment, `delete`, parentheses, blocks, `if`, `while`, `switch` with fall-through, `break`,
`continue`, `return`, `throw`, `try`) and a fuelled big-step evaluator that writes a trace of the nodes control reaches
and of the coverage calls. What operators compute is a parameter, so each theorem holds for every choice of values,
stores and operators; fuel is spent by loops only. `Placers` holds the expression, statement and switch-case placers,
`Planning` the fold that attaches each live mutant to its nearest claiming ancestor-or-self, `Traversal` and `Transform`
the in-place pass over a mutable tree, and `Header` the runtime helpers. `Congruence` proves one lemma about the
evaluator that `Preservation`, `Instrumentation` and `Coverage` each use with a different view of the trace;
`PlanningLaws`, `PlanningResults` and `Conservation` prove what planning keeps, `Frames` exactly when it succeeds,
`Refusals` what it answers when it does not, `Claiming` which nodes claim themselves and `Placements` what a plan holds;
`Grammar` says which trees are programs and `Programs` that the rewriting keeps them programs; `Limits` says exactly
where the promise of meaning ends; `EndToEnd` joins all of it into the theorems about a program, its live mutants and
its runs; `Necessity` proves that the condition on references is the exact one, and `Losses` shows programs beyond the
limits, run over the whole numbers, variables and properties of `SmallStore`.

**Positions.** `Location` is the line-start table, the binary search over it, its inverse and the shift of embedded
regions; `TsFiles` is the checker's in-memory file store, which splices mutants by position.

**Redundancy rules.** `RelationalMutants` and `MutantSetPolicy`. **Checker planning.** `FileIds`, `CheckRounds`,
`GroupMutants`, `Paths`, `AffectedFiles`, `ProjectReferences`, `EditSite`, `ImporterShortcut`, `PackageExports`.
**Standby thread pool.** `StandbyPool`. **Mutant identity.** `MutantIdentity`. `Wrappers`, `Strings`, `FiniteSets` and
`Options` hold what several of these share.

Code that updates state in place is a class with methods proved against a function of the old state: `AstNode`,
`Namespace`, `FileStore`, `SiteScan`, `Pool` and `MutantCollector`. Code made of expressions is functions. Automatic
induction is switched off throughout, so each inductive step is in the text of its proof.

## What the theorems about instrumented programs assume

`EndToEnd.Placeable` collects it, and speaks of the program and its live mutants alone. Labels are distinct; a switch
case has its test first, if any; nodes have spans; each live mutant has a claim at or above its node whose tree, with
the mutant in it, is of a kind the claim's placer takes, which is exactly when planning succeeds
(`Frames.PlanningSucceedsExactly`); no replacement is a statement in parentheses; the program does not itself call the
runtime helpers; and no live mutant's nearest claim stands as a reference, which is exactly when no placement does
(`Limits.ReferencesKeptExactly`) and holds of every program whose references are bare and not under `++` or `--`
(`Limits.BareReferencesAreSpared`). That last condition cannot be dropped (`Necessity.SparingIsNeeded`). Mutant ids are
distinct where a theorem speaks of one mutant.

What is asked of the active mutant alone is asked in `EndToEnd.LiveMutantRuns`: that it puts no reference where a
`delete`, an assignment, a call, `++` or `--` had a value, and, for the mutant's own node to be what is replaced, that
it does not change the test of a case it is placed at.

## Where the code falls short of its promises, and other corner cases

- A mutant that climbs to a switch case from inside the case's test is lost, because the placer keeps the original
  test. `Limits.RealisedExactly` says for every planned mutant when that happens, `Losses.CaseTestMutantLost` gives a
  program.
- A member access or variable in parentheses under `delete`, on the left of an assignment or, for a member access, as
  a callee is claimed although the bare one is not, and under `++` and `--` it is claimed bare or not; the switch put
  around it turns the reference into a value, whichever mutant is active. `Limits.ClaimableReference` and
  `Limits.ReferencesKeptExactly` give the condition, `Necessity.SparingIsNeeded` shows it is the exact one over runs,
  `Losses.ReferenceLost` gives programs. Where the lost reference is the target of an assignment or of `++` or `--`, the
  output is not a program at all, and only there (`Programs.InstrumentedIsProgram`).
- A mutant that turns such an operand from a value into a reference, as `o.m` for `!o.m` in `(!o.m)()`, still hands
  over a value once it is placed (`Losses.ReceiverLost`). Only that mutant is affected.
- The pool compares environments by size and by the values of one side's names, so a variable without a value matches
  any variable the other side lacks. `StandbyPool.SameEnvIsEqualityIffValued` gives the condition.
- A subpath pattern accepts an empty capture, which the algorithm of Node.js's module resolution does not, and a
  capture is put back with `replaceAll`, for which four pairs that begin with a dollar sign have a meaning of their own
  (`PackageExports.CaptureIsPutBackExactly`, `PackageExports.DollarCaptureExpands`). The model follows the code in both.
- A claim in flight when the pool is disposed still returns its thread (`StandbyPool.InFlightClaimReturns`).
- An empty set of eligible mutants still asks for the round of layer 0, because the range from 0 to -1 holds its start;
  the layer is empty and is dropped, so the plan is as expected.

## Model

| member | source | states |
|---|---|---|
| `EndToEnd.LiveMutantRuns` | packages/stryker-js-instrumenter/src/Transformer.service.ts:1356-1427 | For every placeable program and live mutant that makes no reference of a value, every store and amount of fuel: the instrumented program with the mutant active ends, in outcome and store, as the original with the claimed tree replaced by what the placer keeps of it, and so, unless the mutant changes the test of a case it is placed at, as the original with the mutant's own node replaced |
| `EndToEnd.DryRun` | packages/stryker-js-instrumenter/src/Transformer.service.ts:584-666 | With no live mutant active the instrumented form of every placeable program ends in the same outcome and store as the original, whatever the mutants are |
| `Placements.MutatedBy` | packages/stryker-js-instrumenter/src/Transformer.service.ts:1094-1128 | With several mutants at a claim, nested claims and any order of placement, one active mutant changes the program at its own claim only |
| `Instrumentation.InstrumentedMeansMutated` | packages/stryker-js-instrumenter/src/Transformer.service.ts:584-666 | The same for every plan that fits a tree, however it was made, and every active mutant that makes no reference of a value: the instrumented program means the tree with that mutant in it |
| `Instrumentation.InstrumentedMeansOriginal` | packages/stryker-js-instrumenter/src/Transformer.service.ts:584-666 | And means the original when no placed mutant is active |
| `Instrumentation.MutatedIsReplacement` | packages/stryker-js-instrumenter/src/Transformer.service.ts:1105-1128 | When a single placement is active, the tree meant is the original with that one labelled tree replaced |
| `Preservation.PlacedRunsOriginal` | packages/stryker-js-instrumenter/src/Transformer.service.ts:584-666 | Each of the three placers: with none of its mutants active the placed tree records its ids and then does what the node does, fall-through and breaks included |
| `Preservation.PlacedRunsMutant` | packages/stryker-js-instrumenter/src/Transformer.service.ts:584-666 | With one active it does what that mutant stands for and records nothing; the last mutant of an id wins |
| `Preservation.InstrumentSim` | packages/stryker-js-instrumenter/src/Transformer.service.ts:1398-1415 | The bottom-up instrumented tree and the mutated tree agree on every run, seen through any pair of event views that account for the placements |
| `Congruence.BodyAgree` | packages/stryker-js-instrumenter/src/Ast.handle.ts:44-110 | The evaluator is a congruence: nodes of one kind whose children agree do the same, for every kind of the small language |
| `Limits.RealisedExactly` | packages/stryker-js-instrumenter/src/Transformer.service.ts:642-666 | Where that fails: of any mutant of a successful plan the placer keeps everything exactly when the mutant does not change the test of a switch case it is placed at |
| `Losses.CaseTestMutantLost` | packages/stryker-js-instrumenter/src/Transformer.service.ts:642-666 | `switch (1) { case x += 1: throw 1 }`, planned by the planner for `x -= 1`, still throws with that mutant active |
| `Losses.ReceiverLost` | packages/stryker-js-instrumenter/src/Transformer.service.ts:584-603 | `(!o.m)()`, planned by the planner for `(o.m)()`, loses the receiver the mutant has, and ends in another store |
| `Limits.ReceiverKeptExactly` | packages/stryker-js-instrumenter/src/Transformer.service.ts:584-603 | For any plan and active mutant, the first child of a `delete`, an assignment, a call, `++` or `--` is handed over as in the program the mutant stands for exactly when no placement is at what is a reference there |
| `Limits.ClaimableReference` | packages/stryker-js-instrumenter/src/Transformer.service.ts:511-563 | A node that stands as a reference, looking through parentheses, is claimed exactly when it is in parentheses or the operand of `++` or `--` |
| `Limits.ReferencesKeptExactly` | packages/stryker-js-instrumenter/src/Transformer.service.ts:1094-1152 | For every program and its live mutants: no placement of a successful plan is at a reference exactly when no live mutant's nearest claim stands as one |
| `Limits.BareReferencesAreSpared` | packages/stryker-js-instrumenter/src/Transformer.service.ts:511-563 | The claiming rules see to that, whatever is live, in every program whose references are bare and not under `++` or `--` |
| `Necessity.SparingIsNeeded` | packages/stryker-js-instrumenter/src/Transformer.service.ts:511-603 | The condition is the exact one: every part of the program ends as its instrumented form does, with no mutant active and whatever the operators mean, if and only if no live mutant's nearest claim stands as a reference |
| `Necessity.LostReferenceShows` | packages/stryker-js-instrumenter/src/Transformer.service.ts:584-603 | At any node that uses a reference, for any plan with a placement at that reference, one meaning of the operators tells the instrumented form from the original in a run |
| `Losses.ReferenceLost` | packages/stryker-js-instrumenter/src/Transformer.service.ts:511-603 | `delete (a[i += 1])`, `(a[i += 1])()` and `a[i += 1]++`, planned by the planner for `i -= 1`, end in another store than the original even with no mutant active |
| `Losses.OnlyPlanned` | packages/stryker-js-instrumenter/src/Transformer.service.ts:1094-1152 | For any program with one live mutant whose nearest claim takes it, the plan is that mutant at that claim and nothing else |
| `Coverage.RecordsWhatIsReached` | packages/stryker-js-instrumenter/src/Transformer.service.ts:278-287 | With no placed mutant active, the helper calls record, in order and with repetition, exactly the mutants placed at the nodes the original program reaches |
| `Coverage.CounterIsVisits` | packages/stryker-js-instrumenter/src/InstrumentHeader.ts:49-64 | A mutant's counter is raised exactly as often as control reaches the node it is placed at |
| `Coverage.UncoveredMutantIsHarmless` | packages/stryker-js-instrumenter/src/Transformer.service.ts:278-287 | A mutant the dry run never records runs, when active, to the dry run's outcome and store |
| `Coverage.OriginalIgnoresActive` | packages/stryker-js-instrumenter/src/InstrumentHeader.ts:65-78 | The original program runs the same whichever mutant is active |
| `EndToEnd.DryRunCounts` | packages/stryker-js-instrumenter/src/Transformer.service.ts:1356-1427 | Counting is exact for the plan the planner makes: each live mutant has one counter, at its nearest claim |
| `EndToEnd.UncoveredRunsAsDryRun` | packages/stryker-js-instrumenter/src/Transformer.service.ts:1356-1427 | So a live mutant that the dry run did not cover need not be run |
| `Header.Namespace.Cover` | packages/stryker-js-instrumenter/src/InstrumentHeader.ts:49-64 | The helper's loop raises the counter of each argument once, in the current test's bucket or the static one, and touches no other bucket |
| `Header.Namespace.Replay` | packages/stryker-js-instrumenter/src/InstrumentHeader.ts:49-64 | After the helper calls of a whole run, each counter is up by the number of times the run's trace records its id |
| `Header.CountedAddsHits` | packages/stryker-js-instrumenter/src/InstrumentHeader.ts:49-64 | Counting a list adds to each counter how often its id occurs and makes no other counter |
| `Frames.PlanningSucceedsExactly` | packages/stryker-js-instrumenter/src/Transformer.service.ts:1130-1152 | Planning succeeds exactly when every node the fold comes to has a span and each live mutant has a claim at or above its node whose tree holds the node and, with it replaced, is of a kind the claim's placer takes |
| `EndToEnd.PlanIsAccepted` | packages/stryker-js-instrumenter/src/place-mutants.workflow.ts:104-178 | If no replacement is a statement in parentheses either, planning succeeds and the placers refuse nothing |
| `Refusals.RefusalIsExact` | packages/stryker-js-instrumenter/src/Transformer.service.ts:1130-1354 | Planning stops at the first refusal there is: a node without a span, no claim above a live mutant, a claim that does not hold its node, and, when the claim is left, a tree of a kind its placer does not take, each with the id it names |
| `Claiming.HomeIsExact` | packages/stryker-js-instrumenter/src/Transformer.service.ts:511-563 | A node's nearest claim is itself or that of its parent, told of kinds and positions: statements and cases claim themselves, and so do expressions but for assignments, parentheses, the operand of `delete`, the left of an assignment and, for a member access or a call, a callee or the object of a member access |
| `Claiming.PlacerIsExact` | packages/stryker-js-instrumenter/src/place-mutants.workflow.ts:104-178 | Every placement is at a node that takes mutants, with the placer for its role |
| `Conservation.MutantsAreConserved` | packages/stryker-js-instrumenter/src/Transformer.service.ts:1130-1152 | If planning succeeds, the placed mutants are exactly the live mutants of the tree, each placed once |
| `Placements.PlacementIsSound` | packages/stryker-js-instrumenter/src/Transformer.service.ts:1246-1354 | Every placement is non-empty, is at a node of the tree, and holds each of its mutants as the claimed original tree with that mutant's node replaced; the claim is the nearest claiming ancestor-or-self |
| `Placements.PlacersAgree` | packages/stryker-js-instrumenter/src/place-mutants.workflow.ts:104-178 | Two phases agree: the placers accept a planned placement exactly when no statement or case in it is parenthesized, which no parser produces |
| `EndToEnd.PlaceableFits` | packages/stryker-js-instrumenter/src/Transformer.service.ts:1417-1427 | A placeable program has a plan and the plan fits its tree, so every theorem above applies |
| `Placements.AppliedIsReplacement` | packages/stryker-js-instrumenter/src/Mutator.service.ts:169-213 | The applied tree, built by cloning and replacing the first node with the mutant's identity, is the tree with exactly that node replaced |
| `Placements.PlacementHasItsIds` | packages/stryker-js-instrumenter/src/Transformer.service.ts:1280-1309 | With distinct ids, each id is placed at one node and nowhere else |
| `PlanningLaws.FoldAdds` | packages/stryker-js-instrumenter/src/Transformer.service.ts:1311-1354 | A fold that succeeds adds exactly the claims and placements of its subtree, and gives every claim above exactly the mutants attached to it: nothing joins a claim already emitted |
| `PlanningResults.ClaimHoldsAll` | packages/stryker-js-instrumenter/src/Transformer.service.ts:1094-1152 | Every claim ends up with all the mutants of the whole tree that attach to it, whatever the order they were met in |
| `Transform.TransformScript` | packages/stryker-js-instrumenter/src/Transformer.service.ts:1449-1493 | The whole transformation, from the tree and its live mutants alone: what the planner refuses leaves the tree as it was; otherwise the plan made from it is applied, and fails exactly if a placer refuses. Where each live mutant has a claim that takes it, it succeeds and leaves the tree the theorems are about |
| `Programs.RolesAreKept` | packages/stryker-js-instrumenter/src/Transformer.service.ts:584-666 | For any plan a node's rewritten form has its role: an expression stays an expression, a statement a statement, a block a block, so that a `try` or a body still has one, and a case a case with or without a test as before |
| `Programs.AttemptIsGrammatical` | packages/stryker-js-instrumenter/src/Transformer.service.ts:1398-1415 | For any plan of grammatical trees, the rewritten form of a grammatical tree is grammatical exactly when no placement is taken at a target of an assignment or an update |
| `Programs.InstrumentedIsProgram` | packages/stryker-js-instrumenter/src/Transformer.service.ts:1356-1427 | The instrumented form of a program, each of whose live mutants gives a program, is a program exactly when no live mutant's nearest claim stands as such a target |
| `Transform.ApplyPlan` | packages/stryker-js-instrumenter/src/Transformer.service.ts:1417-1427 | The placements are looked up by node object in the map made from the plan; the tree they leave, and whether a placer refused, for every list of placements |
| `Transform.PlacesAreExact` | packages/stryker-js-instrumenter/src/Transformer.service.ts:1422 | That map holds exactly the planned nodes of the tree, each with its placement |
| `Traversal.ApplyPlacements` | packages/stryker-js-instrumenter/src/Transformer.service.ts:1398-1415 | The walk leaves, on the heap, the tree of the failing-or-not rebuild, and the bottom-up rebuild itself when no placer refuses; the root is never replaced |
| `Traversal.Traverse` | packages/stryker-js-instrumenter/src/Ast.handle.ts:604-664 | Children snapshotted on entry, each slot of the parent overwritten by the exit of the child in it: the nodes visited are the original tree's, in post-order, whatever was written into the slots, and the parent changes in that slot only |
| `Traversal.PlaceOn` | packages/stryker-js-instrumenter/src/Transformer.service.ts:584-666 | The placers' edits build on the heap the tree that the placement stands for, reusing the node itself below |
| `Traversal.AttemptIsRebuild` | packages/stryker-js-instrumenter/src/Transformer.service.ts:1370-1396 | The walk that may stop at a refusal is the rebuild when nothing is refused |
| `Traversal.ExitsAreLabels` | packages/stryker-js-instrumenter/src/Ast.handle.ts:642-664 | Each labelled node of the original tree is left exactly as often as the tree holds it, so every placement is applied once and inserted nodes are never visited |
| `Traversal.FitsIsAccepted` | packages/stryker-js-instrumenter/src/Transformer.service.ts:1370-1396 | A plan that fits is accepted at every node |
| `Location.LineStartsAreExact` | packages/stryker-js-instrumenter/src/Location.ts:9-14 | Line starts strictly increase from 0 and are exactly the offsets after a line feed, a line or paragraph separator, or a carriage return no line feed follows |
| `Location.SearchHalves` | packages/stryker-js-instrumenter/src/Location.ts:16 | Each probe of the search leaves at most half of the line starts on either side |
| `Location.PositionIsExact` | packages/stryker-js-instrumenter/src/Location.ts:18-49 | The binary search finds the one line that holds the offset, counted from 1, with the column from that line's start, for every offset and list of line starts |
| `Location.OffsetsAndPositionsAreInverse` | packages/stryker-js-instrumenter/src/Location.ts:68-81 | On positions with a column of at least 1 the two directions are inverse, both ways |
| `Location.PositionsAreMonotone` | packages/stryker-js-instrumenter/src/Location.ts:42-49 | A later offset has a later position |
| `Location.EmbeddedPositions` | packages/stryker-js-instrumenter/src/plan-mutants.workflow.ts:362-377 | For every region of a host text, shifting a position in it by the region's origin gives the host's position exactly unless the offset is the end of a region that ends inside a CRLF |
| `TsFiles.RunKeepsOriginals` | packages/stryker-js-typescript-checker/src/ts-files.handle.ts:67-188 | After any run of get, mutate and reset, a file holds unchanged what the disk first gave, and its content is that or one splice of it: the last operation on it that succeeded |
| `TsFiles.RunKeepsTimes` | packages/stryker-js-typescript-checker/src/ts-files.handle.ts:67-188 | A file's modified time is that of the last operation that changed it: its first read, a mutation that succeeded or a reset |
| `TsFiles.SpellingsOfOneFile` | packages/stryker-js-typescript-checker/src/ts-files.handle.ts:20 | Two spellings name one file exactly when they differ only in which way their slashes lean |
| `TsFiles.SliceIsExact` | packages/stryker-js-typescript-checker/src/ts-files.handle.ts:81-97 | The ends of a slice past the text are the text's, and a negative one counts from its end |
| `TsFiles.MutationOutcome` | packages/stryker-js-typescript-checker/src/ts-files.handle.ts:132-165 | A mutation fails with one of the two errors exactly when the file was not readable at its first use, or an end of the mutant lies on no line of the text first read |
| `TsFiles.SpliceIsExact` | packages/stryker-js-typescript-checker/src/ts-files.handle.ts:81-97 | A mutant between the positions of two offsets replaces exactly the characters between them, whatever was done before |
| `TsFiles.ResetForgetsMutants` | packages/stryker-js-typescript-checker/src/ts-files.handle.ts:167-223 | After a reset the compiler reads what it would have read had no mutant been applied, overrides and build-info files included |
| `TsFiles.FileStore.GetFile` | packages/stryker-js-typescript-checker/src/ts-files.handle.ts:107-130 | One step of the run, on the shared map |
| `TsFiles.FileStore.MutateFile` | packages/stryker-js-typescript-checker/src/ts-files.handle.ts:132-165 | One step of the run, and which error is raised |
| `TsFiles.FileStore.ResetFile` | packages/stryker-js-typescript-checker/src/ts-files.handle.ts:167-188 | One step of the run; a file that is absent or unread stays as it is |
| `RelationalMutants.SufficientSetCoversIntervals` | packages/stryker-js-instrumenter/src/relational-sufficient-sets.ts:35-40 | Over an ordered pair, each member of an operator's sufficient set differs from it on one of the three intervals only, and each interval has exactly one such member |
| `RelationalMutants.DefaultEmitsSufficientSet` | packages/stryker-js-instrumenter/src/Mutator.service.ts:760-982 | At every condition position the default policy emits the whole set |
| `RelationalMutants.OperatorsAreExact` | packages/stryker-js-instrumenter/src/Mutator.service.ts:760-982 | The operators emitted for a comparison, by what they answer: its opposite, for a relational one the operator that differs for equal operands only, and for a test, by default, every other that differs on one interval only |
| `RelationalMutants.LiteralsAreExact` | packages/stryker-js-instrumenter/src/Mutator.service.ts:760-910 | The literals emitted, by where the comparison stands |
| `RelationalMutants.EmittedInOrder` | packages/stryker-js-instrumenter/src/Mutator.service.ts:760-982 | What is emitted stands in one order, each replacement once |
| `RelationalMutants.SubsumedExactly` | packages/stryker-js-instrumenter/src/subsume-mutants.workflow.ts:85-130 | A mutant is subsumed exactly when it is kept and answers the opposite of a relational operator everywhere, while a kept mutant answers differently from it only for equal operands; it names all of those, and none of them is subsumed |
| `RelationalMutants.SubsumptionKeepsSufficientSet` | packages/stryker-js-instrumenter/src/subsume-mutants.workflow.ts:11-18 | Subsumption never drops a member of the sufficient set, and what kills the dominator kills the complement |
| `RelationalMutants.RemainingMutantsSuffice` | packages/stryker-js-instrumenter/src/subsume-mutants.workflow.ts:132-144 | For any total order: tests that tell every mutant left at a condition from the original tell every relational replacement from it, whatever else was mutated there |
| `MutantSetPolicy.CanonicalIsIdempotent` | packages/stryker-js-instrumenter/src/mutant-set-policy.workflow.ts:50-56 | The canonical form of a canonical form is itself |
| `MutantSetPolicy.ParenthesesAreIgnored` | packages/stryker-js-instrumenter/src/mutant-set-policy.workflow.ts:52-80 | Wrapping a text in parentheses keeps its form exactly when no parenthesis of it closes before it opens and as many open as close |
| `MutantSetPolicy.FormIsExact` | packages/stryker-js-instrumenter/src/mutant-set-policy.workflow.ts:50-80 | The form is what is left after white space and parentheses around a balanced text are taken off both ends as often as there are any |
| `MutantSetPolicy.SpacesAreExact` | packages/stryker-js-instrumenter/src/mutant-set-policy.workflow.ts:50 | What counts as white space, by code point |
| `MutantSetPolicy.OutcomesAreExact` | packages/stryker-js-instrumenter/src/mutant-set-policy.workflow.ts:102-164 | What the fold decides of each mutant, told from the site alone: equivalent, duplicate of any earlier one, or kept |
| `MutantSetPolicy.KeptAreDistinct` | packages/stryker-js-instrumenter/src/mutant-set-policy.workflow.ts:134-164 | Kept mutants that print something differ from each other and from the original |
| `MutantSetPolicy.DuplicatesHaveKeptTwin` | packages/stryker-js-instrumenter/src/mutant-set-policy.workflow.ts:119-164 | With one original at the site, every duplicate has an earlier kept mutant of the same form |
| `MutantSetPolicy.KeptTwinExactly` | packages/stryker-js-instrumenter/src/mutant-set-policy.workflow.ts:119-164 | With any originals, a repeated form has one exactly when the first mutant of that form is not equivalent to its own original |
| `MutantSetPolicy.TwoOriginalsLoseBoth` | packages/stryker-js-instrumenter/src/mutant-set-policy.workflow.ts:149-156 | Two originals for which both mutants of one form are suppressed |
| `FileIds.FileIdsAreExact` | packages/stryker-js-typescript-checker/src/FileIds.schema.ts:33-55 | Each file with mutants is listed once, in first-seen order, with its ids in input order |
| `FileIds.GroupingConservesIds` | packages/stryker-js-typescript-checker/src/FileIds.schema.ts:35-55 | The grouping neither loses nor repeats an id |
| `CheckRounds.RoundsConserveIds` | packages/stryker-js-typescript-checker/src/plan-check-rounds.workflow.ts:13-39 | The rounds hold exactly the candidates' ids |
| `CheckRounds.PlanObeysRules` | packages/stryker-js-typescript-checker/src/plan-check-rounds.workflow.ts:24-39 | Every candidate has a round; an ineligible one is alone; no round holds two mutants of a file |
| `CheckRounds.SharedRoundsHoldTwo` | packages/stryker-js-typescript-checker/src/CheckRound.schema.ts:26-30 | A shared round holds at least two mutants; a layer of one is a solo round |
| `CheckRounds.RoundCount` | packages/stryker-js-typescript-checker/src/plan-check-rounds.workflow.ts:21-39 | There is one round per ineligible candidate and as many more as the fullest file has eligible ones |
| `CheckRounds.RoundsInOrder` | packages/stryker-js-typescript-checker/src/plan-check-rounds.workflow.ts:13-49 | First each ineligible candidate alone, in order, then the first eligible mutants of the files in the order the files are first seen, then the second ones, and so on |
| `CheckRounds.PlanIsOptimal` | packages/stryker-js-typescript-checker/src/plan-check-rounds.workflow.ts:35-39 | No schedule that obeys these rules has fewer rounds |
| `GroupMutants.GroupsAreNextFit` | packages/stryker-js-typescript-checker/src/group-mutants.workflow.ts:34-56 | The groups are the files in order, none split; a group above the bound is one file, and a group ends only where the next file would not fit |
| `GroupMutants.GroupsAreFew` | packages/stryker-js-typescript-checker/src/group-mutants.workflow.ts:37-56 | Neighbouring groups together exceed the bound, so g groups need more than bound * (g / 2) mutants |
| `AffectedFiles.DependentsAreImporters` | packages/stryker-js-typescript-checker/src/trace-affected-files.workflow.ts:36-57 | The reverse table holds exactly the importers |
| `AffectedFiles.ClosureIsLeast` | packages/stryker-js-typescript-checker/src/trace-affected-files.workflow.ts:59-70 | The closure that stops when the size stops growing terminates with the least closed set around the mutated files |
| `AffectedFiles.ClosureIsExact` | packages/stryker-js-typescript-checker/src/trace-affected-files.workflow.ts:59-70 | It holds exactly the files with a path of imports to a mutated file, cycles included |
| `AffectedFiles.AffectedAreImporters` | packages/stryker-js-typescript-checker/src/trace-affected-files.workflow.ts:72-82 | Files are reported as mutated or as dependents accordingly |
| `ProjectReferences.ReachesOwnerIsExact` | packages/stryker-js-typescript-checker/src/Tsconfig.schema.ts:67-83 | The worklist terminates and finds the owner exactly when a chain of one or more references leads to it, cycles included |
| `ProjectReferences.OtherCompilersAreExact` | packages/stryker-js-typescript-checker/src/Tsconfig.schema.ts:85-89 | A holder is reported exactly when it is not the owner and no chain leads from it to the owner, once each and in first-occurrence order |
| `EditSite.EditSiteFactsOf` | packages/stryker-js-typescript-checker/src/edit-site.schema.ts:159-204 | The pruned scan with early exit collects the same enclosing functions in the same order and the same module-reference flag as the walk over every node |
| `EditSite.SiteScan.ForEachChild` | packages/stryker-js-typescript-checker/src/edit-site.schema.ts:163-182 | It also inspects exactly the nodes that reach the edit with all their ancestors |
| `EditSite.SiteScan.Visit` | packages/stryker-js-typescript-checker/src/edit-site.schema.ts:175-179 | A visit that asks to stop has met a node that ends behind the edit |
| `EditSite.SiteScan.Inspect` | packages/stryker-js-typescript-checker/src/edit-site.schema.ts:163-174 | Inspecting a node adds its own facts and then its children's |
| `EditSite.EnclosingAreNodes` | packages/stryker-js-typescript-checker/src/edit-site.schema.ts:125-151 | The functions collected are exactly those of the tree around the edit, at any depth, each described by its own start, its body's start and end, its header and whether it has a declared type or is a setter |
| `EditSite.ReferencesAreNodes` | packages/stryker-js-typescript-checker/src/edit-site.schema.ts:112-123 | A module reference is noted exactly when a type import, a call of `import` or a call of what reads "require" touches the edit, at any depth |
| `ImporterShortcut.DecisionIsExact` | packages/stryker-js-typescript-checker/src/admit-importer-shortcut.workflow.ts:71-138 | The decision for every pair of trees, told of the functions and module references they hold: the importers are re-checked for the first clause that fails, in the tree it fails in, and the shortcut is taken exactly when none does |
| `ImporterShortcut.ShortcutIsSound` | packages/stryker-js-typescript-checker/src/admit-importer-shortcut.workflow.ts:33-136 | If it is taken for a parsed source and its mutation, some function that holds the edit in its body, with a declared type or a setter, is in both trees, of one kind and at one place, and the texts agree everywhere outside its body, as on a block's closing brace |
| `PackageExports.ResolutionIsFlatScan` | packages/stryker-js-typescript-checker/src/resolve-package-exports.workflow.ts:107-173 | Nested arrays and active conditions resolve to the valid strings in order up to the first null; excluded, terminal and unresolved follow from that flat scan |
| `PackageExports.TargetsAreExact` | packages/stryker-js-typescript-checker/src/resolve-package-exports.workflow.ts:143-150 | A target counts exactly when it starts with "./" and none of ".", ".." and "node_modules" stands between a slash and the next one or the end |
| `PackageExports.ConditionsAreExact` | packages/stryker-js-typescript-checker/src/resolve-package-exports.workflow.ts:135-141 | Of the conditions of a target, "require", "types", "node" and "default" count, in the order they are listed |
| `PackageExports.MatchingKeysDiffer` | packages/stryker-js-typescript-checker/src/resolve-package-exports.workflow.ts:189-199 | Two different keys that match a subpath never compare equal |
| `PackageExports.ResolutionIgnoresEntryOrder` | packages/stryker-js-typescript-checker/src/resolve-package-exports.workflow.ts:201-253 | So a subpath resolves the same in whatever order the keys are listed |
| `PackageExports.SubpathResolution` | packages/stryker-js-typescript-checker/src/resolve-package-exports.workflow.ts:189-253 | An exact key beats every pattern; of the patterns that match, the one with the longest text before its star wins, and of those with that text the longest; what is chosen resolves as its flat scan, nothing matching is unresolved, and without subpath keys only the root resolves |
| `PackageExports.CaptureIsExact` | packages/stryker-js-typescript-checker/src/resolve-package-exports.workflow.ts:67-73 | A key matches with a capture exactly when the subpath is the key with the capture for its one star |
| `PackageExports.CaptureIsPutBackExactly` | packages/stryker-js-typescript-checker/src/resolve-package-exports.workflow.ts:75-79 | A capture is put back unchanged for the star of every target with one star exactly when it holds none of the pairs `$$`, `$&`, dollar-backquote and dollar-quote |
| `PackageExports.EveryStarReplaced` | packages/stryker-js-typescript-checker/src/resolve-package-exports.workflow.ts:75-79 | Such a capture is put back for every star of a target with several |
| `PackageExports.SubstitutionIsExact` | packages/stryker-js-typescript-checker/src/resolve-package-exports.workflow.ts:75-79 | Any capture is put back a piece at a time: a dollar sign, the star, what is before it or after it for the four pairs, and a character for itself |
| `PackageExports.CaptureRoundTrip` | packages/stryker-js-typescript-checker/src/resolve-package-exports.workflow.ts:67-79 | So what a key captured from a subpath and holds none of them, put back into the key, gives the subpath |
| `PackageExports.DollarCaptureExpands` | packages/stryker-js-typescript-checker/src/resolve-package-exports.workflow.ts:75-79 | A capture with such a pair: `$&` captured by `./*` gives `./*` |
| `StandbyPool.NoThreadClaimedTwice` | packages/stryker-js-vitest-runner/src/StandbyThreadsPool.handle.ts:125-147 | However claims, registrations, releases, deaths and disposal interleave, no thread is handed out by two claims |
| `StandbyPool.TakenFits` | packages/stryker-js-vitest-runner/src/StandbyThreadsPool.handle.ts:66-88 | A reused thread was spare and live at the atomic step and launched for the same project, with the same arguments and as many variables, each with the value the request gives it |
| `StandbyPool.TakesTheFirst` | packages/stryker-js-vitest-runner/src/StandbyThreadsPool.handle.ts:77-88 | It is that of the first such slot |
| `StandbyPool.LiveSlotsAreKept` | packages/stryker-js-vitest-runner/src/StandbyThreadsPool.handle.ts:77-78 | A look drops the slots that are stopped or whose thread is dead, and keeps the others in order |
| `StandbyPool.ReusesWhenItCan` | packages/stryker-js-vitest-runner/src/StandbyThreadsPool.handle.ts:66-88 | A claim spawns a new thread exactly when no spare and live slot was launched for its request, field by field |
| `StandbyPool.SameEnvIsEqualityIffValued` | packages/stryker-js-vitest-runner/src/StandbyThreadsPool.handle.ts:61-64 | That match means equal environments exactly when no variable is without a value |
| `StandbyPool.SlotsOnlyMoveOn` | packages/stryker-js-vitest-runner/src/StandbyThreadsPool.handle.ts:66-94 | Over any run a slot keeps its launch and only moves spare, claimed, stopped; a dropped slot never returns |
| `StandbyPool.DisposedNeverReused` | packages/stryker-js-vitest-runner/src/StandbyThreadsPool.handle.ts:172-183 | Whatever happens after disposal marked the slots stopped, a claim holds the thread of a slot that was in the pool exactly if it held it at that moment: no later claim is handed it |
| `StandbyPool.ReleasedNeverReused` | packages/stryker-js-vitest-runner/src/StandbyThreadsPool.handle.ts:149-162 | Likewise after the release of the thread |
| `StandbyPool.ReleaseStopsItsSlots` | packages/stryker-js-vitest-runner/src/StandbyThreadsPool.handle.ts:149-162 | A release stops the slots of its thread and leaves every other slot as it was, in its place |
| `StandbyPool.DeadNeverReused` | packages/stryker-js-vitest-runner/src/StandbyThreadsPool.handle.ts:66-88 | Whatever happens after a thread died, no later claim is handed it, whether or not its slot was registered |
| `StandbyPool.RegistersLast` | packages/stryker-js-vitest-runner/src/StandbyThreadsPool.handle.ts:116-147 | A claim registers the slot it spawned behind every other |
| `StandbyPool.InFlightClaimReturns` | packages/stryker-js-vitest-runner/src/StandbyThreadsPool.handle.ts:125-147 | A claim that took its thread before disposal does return it afterwards |
| `StandbyPool.Pool.TakeSpare` | packages/stryker-js-vitest-runner/src/StandbyThreadsPool.handle.ts:125-147 | The claim's atomic update: it drops dead and stopped slots and takes a fitting spare one, and takes none exactly when there is none |
| `StandbyPool.Pool.Release` | packages/stryker-js-vitest-runner/src/StandbyThreadsPool.handle.ts:149-162 | The released thread is never taken from the resulting list, for any request and whichever threads are dead |
| `StandbyPool.Pool.StopAll` | packages/stryker-js-vitest-runner/src/StandbyThreadsPool.handle.ts:172-183 | Nothing can be taken from the resulting list: the next look drops all of it |
| `MutantIdentity.EncodingRoundTrip` | packages/stryker-js-instrumenter/src/MutantIdentity.ts:7-36 | Every list of fields can be read back from its length-prefixed encoding |
| `MutantIdentity.HashedTextHoldsFields` | packages/stryker-js-instrumenter/src/MutantIdentity.ts:15-36 | The hashed text reads back as the file, the mutator, the original, the replacement and the ordinal, in that order |
| `MutantIdentity.DecimalIsExact` | packages/stryker-js-instrumenter/src/MutantIdentity.ts:7 | Lengths and ordinals are written in decimal, without a leading zero |
| `MutantIdentity.EncodingIsInjective` | packages/stryker-js-instrumenter/src/MutantIdentity.ts:7-36 | So equal encodings are of equal lists, whatever their lengths |
| `MutantIdentity.NoTwoMutantsShareHashedText` | packages/stryker-js-instrumenter/src/MutantIdentity.ts:29-36 | Over any run of a collector equal tuples get 0, 1, 2 and so on, and no two mutants hash the same text |
| `MutantIdentity.MutantCollector.OrdinalOf` | packages/stryker-js-instrumenter/src/Transformer.service.ts:154-169 | The ordinal is the number of earlier calls for the same tuple |

## Left out

- Parsing and printing: programs are trees, printed code is given text. Regular-expression parsing likewise.
- Function declarations and naming of anonymous functions, hoisting, temporal dead zones, lexical scope of declarations that the statement placer wraps in a block, async functions and generators: outside the small language.
- Optional chains, non-computed members, tagged templates and property keys: the refusals of the claiming rules for them are not modelled, those for `delete`, assignment targets and call chains are.
- `for` and `do` loops, whose bodies and tests are claimed as those of `while` are.
- The hit limit and the helpers' replacement of themselves after the first call: the helpers are plain updates with no limit set.
- Directives, ignorers, arid-code rules and mutator options: which mutants of a node are live is an input.
- The `type:start:end` identity of a node is a label; that labels are distinct is assumed, not derived from spans.
- SHA-256 and the truncation to 16 digits: the hash is taken to be injective. The encoding to UTF-8 is taken to be injective too, which excludes lone surrogates.
- Comments and the header's placement at the top of the program, and instrumentation of several scripts in one host file.
- The Effect runtime, spans, RPC, schemas, the command line, workers, telemetry and reports.
- The pool's scopes, stopping of threads and failures to stop: liveness is an event of the environment, and a spawned thread is a new number.
- The TypeScript compiler: trees, types and module resolution tables are inputs, as are the facts that a file is a module or declares globals.
- Disk and clock in the file store are parameters of each operation.
- The conversion of a mutation's outcome into statuses, alias capture, TCE classification and diagnostics.
- Traversal.Traverse: plans are trees held as values and built on the heap when they are placed, so sharing of subtrees between a plan and the program is not captured.
- Congruence.BodyAgree: needs the children in reference position to agree as references, which the placement conditions give.
- MutantSetPolicy.DuplicatesHaveKeptTwin: of the policy alone; a directive or an ignorer may still ignore that mutant.
- EditSite.EditSiteFactsOf: for trees whose children are nested and in the order of the text.
- ImporterShortcut.ShortcutIsSound: says what the texts share; that importers see no difference is a matter of the compiler.
- PackageExports.ResolutionIgnoresEntryOrder: for keys of an object, which are distinct, and not for conditions inside a target, whose order matters.
- EndToEnd.LiveMutantRuns: nothing is promised of a mutant that makes a reference of a value, and of a mutant that changes the test of a case it is placed at only what the placer keeps; `Losses` has an example of either.
- RelationalMutants.RemainingMutantsSuffice: over a total order, so without NaN, and for lists in which the mutants emitted at the site are kept.
- StandbyPool.DisposedNeverReused: a slot registered after the update that marks the slots stopped is outside the claim, as it is in the code; claims that already hold a thread keep it.
- The operator `typeof` is an ordinary by-value unary operator, so that a throw on an unbound name cannot be told apart.
- The assignments `&&=`, `||=` and `??=` always evaluate their right side.
- Transform.TransformScript: a planned node is found again by its label, where the planner recorded the node object; collecting the mutants and placing the header are left out.
- Necessity.SparingIsNeeded: of parts of a program, since a part no run reaches loses nothing, and where what uses a reference is an expression with the operands its kind takes, as every parser gives.
- Programs.InstrumentedIsProgram: for the grammar of the small language; early errors of the full one, as in strict mode or for labels, are outside it.
- Refusals.RefusalIsExact: the refusals of planning; what a refusal says to the user, with positions and the printed mutants, is left out.
