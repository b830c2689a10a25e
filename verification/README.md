# Gorgon: a Dafny model of its core

Gorgon is a mutation tester for Go. It inlines every mutant of a source file into one copy of the
file, each guarded by `activeMutantID == N`, throws out the mutants that do not compile, runs the
rest concurrently and folds all results into one status per mutant. This project models the parts
of that program whose correctness is not visible from one function, and proves what they promise.

## How the model is organised

**The transformation.** `GoAst`, `Semantics` and `Operators` give a small Go syntax, a big-step
semantics in which only loop iterations and calls spend fuel, and concrete mutation operators;
`OperatorMeaning` says through that semantics what each operator does to the node it changes.
`Schemata` holds the wrappers (immediately called function literals, if/else chains), `Visitor` the
bottom-up walk with its skips and its table of valid replacements, `LoopVars`, `LoopRepair` and
`LiteralWalk` the repair of unused loop variables. `Mutation` is the independent reference: a file with one change at
one site. `Specialise` computes what is left of a file once every guard is decided for one id, and
shows that this residue runs like the file; `Equivalence` shows that the residue of a transformed
file is the residue of the reference. `Placement` says, of the source alone, which mutants land and
which declarations lose their bodies, `Dichotomy` that guards stand exactly where mutants land, and
`Occurrence` that for a statement, however deeply nested, only that statement decides.
`ClauseRuns` compares runs of files that differ in one clause. `SchemataTheorems` draws the
conclusions about runs.

**Filtering.** `Preflight`, `Bisect` and `TypeErrors` are the three preflight levels, and `Survivors`
says who passes them; `BisectFile` is the search on slices that share a backing array, `VerifyClean`
the five-round repair loop, and `Removals` says whom each round and a whole run of rounds remove;
`Pipeline` is the whole workspace run and the categories of the report.

**Execution.** `Executor` and `BufferedPool` are step systems: a state, the steps that goroutines can
take, and every schedule as a sequence of enabled steps. `Statuses` and `ExternalSuites` are the
status lattice and the phases that feed it; `KilledSets` and `Composition` join them to the run.
`Verdicts` explains every result of every schedule by what the world answered, and `FinalStatuses`
how a mutant ends by the results it saw, neither through the functions the program computes them with.

**Indexes, caches and readers.** `TypeNames`, `TypeText`, `Suppressions`, `SuppressionSync`, `Collection`,
`SubConfigs`, `CacheKeys`, `DiffParser`, `CompileErrors`, `Sites`, with `Text`, `Selection`,
`Mutants` and `Wrappers` below them.

Everything outside the program (builds, type checks, test outcomes, hashes, path resolution, the
order in which maps are walked and goroutines finish) is a parameter or a free choice, so a theorem
holds for every such outcome and order.

## What the code does not do

Where the code falls short of what it is for, the model keeps the code and states the exact
condition:

- A function declaration is replaced without a guard: a declaration with exactly one applicable
  mutant loses its body for every id. `EveryMutant` states every run with the lost bodies emptied, and
  `LostDeclaration` that a call of such a declaration agrees with the original exactly where the
  original does nothing (`FuncDeclChangesTheOriginal` is an input).
- Not every generated mutant is realised. `Placement.LandsFile` says, of the source and the mutants
  alone, which are, and `EveryMutant` that the others run as the original. Lost are: a lone mutant on a
  statement other than `if` and `return`, which the replacement table rejects; an operand whose parent
  expression has mutants, a range target, a constant; a zero-value mutant of a return in a case clause,
  which generation does not see and the transformation does (`ZeroReturnInClauseRuns`,
  `ZeroReturnInClause`); `error_check_removal` and `nil_check_removal` when the condition of the check
  or one of its operands was wrapped first (`LostCheck`, `ErrorCheckUnderMutatedCondition`);
  `zero_value_return_bool` when the returned name was wrapped first, which takes a variable that
  shadows the constant; and `loop_break_first` on an empty body.
- A case-clause mutant returns a zero value instead of emptying the clause. `EveryMutant` states what
  it runs as, `ClauseMutantRuns` that a run that never gets to the clause is the run of the operator,
  and `DefaultClauseMutant` that at the switch itself the two agree exactly when the default is not
  reached (`DefaultClauseReturns` is an input).
- For the result types `uintptr`, `complex64`, `complex128`, `byte` and `rune` a case-clause mutant returns
  nil, which they do not have (`TypesWithoutNil`): it cannot compile, and compilation filters it out.
- Two error returns of the repair loop list the kept mutants among the removed ones as well, and the
  run then goes on with them: they are reported twice, although it may return no error.
  `RoundListsTwiceIff`, `EndsDoubledIff` and `MiscountsIff` give the condition for a round, for all
  rounds and for a run; `SecondListedTwice` and `ReportedTwice` are inputs.
- Suppression sync widens some entries to all operators; `SyncKeepsAnswers` names them all, and
  `EmptyCommentWidens` is an input: a comment whose text begins with a colon suppresses nothing, and
  after synchronisation everything.
- Suppressions are honoured only in part when mutants are generated: `HonouredIff` states that one
  keeps its mutant away if and only if the comments of the file itself suppress every operator that
  reports the node. An entry of the config is not consulted (`ConfigEntryIgnored`), and a comment
  is lost when another operator reports the node (`OtherOperatorReports`).
- The type table assumes acyclic declarations (`TerminatesIffAcyclic`, `SliceOfItself`). It is filled
  from the first file of a package and asked for all: it answers another file plainly if and only if
  the two agree on every name the first declares (`TableOfAnotherFile`; `TypesOfTwoFiles` is an input).
- The directory test makes the file system root govern only itself (`GovernsIffAncestor`).
- A workspace member inside the project is walked twice, and then its filters are accumulated twice:
  `FoundMoreOften` states when finding directories more often leaves a list alone, and `FiltersTwice`
  what one directory found twice yields.

## Model

| member | source | states |
|---|---|---|
| Schemata.WrapExpressionMulti | internal/core/schemata_nodes/handlers.go:262-317 | the loop builds one guarded return per operator that applies, in order, then the original, and nothing if none applies |
| Schemata.BuildIfElseChain | internal/core/schemata_nodes/handlers.go:584-613 | the loop from the last mutant backwards builds the chain in which the first guard that holds wins and the original is the last else |
| Schemata.HandleReturnStmt | internal/core/schemata_nodes/handlers.go:399-530 | returns with one or several mutants become one guarded return, leaving out nil for types that cannot be nil |
| Visitor.BuildPositionToMutantsMap | internal/core/transform.go:397-413 | groups the mutants of a file by position and node kind, keeping their order |
| Visitor.SiteOfExpr | internal/core/schemata_nodes/position.go:8-22 | two expressions share a site if and only if they are of the same form and stand at the same place; parentheses have no handler but the same holds for them |
| Visitor.SiteOfStmt | internal/core/schemata_nodes/position.go:8-22 | two statements share a site if and only if they are of the same form at the same place, and never with an expression, clause or declaration |
| OperatorMeaning.NegatedComparison | pkg/mutator/tokens/tokens.go:20-27 | in every world, state and amount of fuel the negated comparison has the opposite value and the same final state, and stops where the original stops |
| OperatorMeaning.MovedBoundary | pkg/mutator/tokens/tokens.go:38-43 | on numbers the moved boundary runs as the original if and only if the operands differ |
| OperatorMeaning.ExchangedLogic | pkg/mutator/tokens/tokens.go:52-55 | the exchanged connective runs as the original if and only if the second operand, evaluated after the first, has its value and no effect |
| OperatorMeaning.ArithmeticMutant | pkg/mutator/tokens/tokens.go:6-68 | on numbers, with wrap-around: what replaces a sum gives the first operand back when the second is added, what replaces a product is the truncated quotient or a panic, bits are or-ed for and-ed, shifts reversed |
| OperatorMeaning.ConcatenationMutant | pkg/mutator/operators/arithmetic_flip/arithmetic_flip.go:27-60 | on texts the mutant of a concatenation panics after both operands |
| OperatorMeaning.ToggledSign | pkg/mutator/tokens/tokens.go:88-91 | the number with its sign toggled and the original add up to zero, wrap-around included |
| OperatorMeaning.ReplacedVariable | pkg/mutator/operators/variable_replacement/variable_replacement.go:24-87 | a replaced variable has the value of the other one |
| OperatorMeaning.GeneratedExpr | pkg/mutator/operators/arithmetic_flip/arithmetic_flip.go:20-60 | an operator generates for exactly the expressions it changes, save sums with a literal text |
| OperatorMeaning.GeneratedStmt | internal/core/mutants.go:273-279 | a generated statement mutant changes its statement, save a zero value inside a clause and a break in an empty loop |
| OperatorMeaning.WhichReturns | pkg/mutator/operators/zero_value_return/zero_value_return.go:28-163 | the returns each zero-value operator and the nil operator generate for, whatever parentheses are around the literal |
| OperatorMeaning.SafeIff | pkg/mutator/operators/conditional_expression/common.go:112-136 | a condition is replaced if and only if outside calls it only compares, negates and connects |
| OperatorMeaning.WhichConditions | pkg/mutator/operators/conditional_expression/common.go:36-64 | the conditions that are replaced: of loops that have one, and of an `if` that declares nothing in front of it |
| OperatorMeaning.WhichAssignments | pkg/mutator/operators/assignment_operator/assignment_operator.go:20-77 | the assignments that are changed: every compound one, and a plain one of a number, a variable or something computed |
| OperatorMeaning.WhichChecks | pkg/mutator/operators/error_handling/error_check_removal.go:20-77 | the checks that are removed, exactly as they are written |
| OperatorMeaning.DecidedIf | pkg/mutator/operators/conditional_expression/common.go:66-82 | with its condition made true an `if` takes its body, made false its `else`, in the state its init leaves |
| OperatorMeaning.NegatedIf | pkg/mutator/operators/negate_condition/negate_condition.go:25-58 | with its condition negated an `if` runs as with its branches exchanged |
| OperatorMeaning.IfStops | pkg/mutator/operators/conditional_expression/common.go:66-82 | where the init does not end normally the three are the original |
| OperatorMeaning.ErrorCheckMatters | pkg/mutator/operators/error_handling/error_check_removal.go:20-77 | the removal of an error check runs as the original if and only if there is no error |
| OperatorMeaning.NilCheckMatters | pkg/mutator/operators/error_handling/nil_check_removal.go:20-82 | where a nil check takes its body its removal runs the same, and where it does not the original does nothing |
| OperatorMeaning.DecidedFor | pkg/mutator/operators/conditional_expression/common.go:83-102 | with its condition made true a loop runs as one without a condition, made false it ends after its init |
| OperatorMeaning.EmptiedLoop | pkg/mutator/operators/loop_body_removal/loop_body_removal.go:25-64 | a loop with its body removed runs as if the body began with `continue` |
| OperatorMeaning.FirstPass | pkg/mutator/operators/loop_break_first/loop_break_first.go:25-76 | with a break at the end of its body a loop ends where the first pass falls off the end, without its post statement |
| OperatorMeaning.FirstElement | pkg/mutator/operators/loop_break_first/loop_break_first.go:25-76 | the same for a range loop: it ends after its first element |
| OperatorMeaning.FlippedAssignment | pkg/mutator/operators/assignment_operator/assignment_operator.go:20-77 | what a changed assignment of a number stores: the sum for `=`, the inverse for a compound one, a panic for a quotient by zero |
| OperatorMeaning.FlippedIncDec | pkg/mutator/operators/inc_dec_flip/inc_dec_flip.go:15-42 | a flipped increment takes one off and a flipped decrement adds one, with wrap-around |
| OperatorMeaning.RemovedCall | pkg/mutator/operators/function_call_removal/function_call_removal.go:20-62 | a removed call does nothing, and a removed panic would have stopped the run |
| OperatorMeaning.ZeroReturned | pkg/mutator/operators/zero_value_return/zero_value_return.go:28-163 | the zero-value mutants return the zero of the literal they replace |
| OperatorMeaning.ZeroOfType | internal/core/schemata_nodes/handlers.go:569-582 | a clause mutant returns the zero value of the result type, and nil for a type it does not know |
| OperatorMeaning.TypesWithoutNil | internal/core/schemata_nodes/handlers.go:569-582 | five types without a nil are among those it does not know |
| OperatorMeaning.EmptiedDeclaration | pkg/mutator/operators/empty_body/empty_body.go:20-106 | a declaration is emptied unless it is empty, returns something or is `init` or `main`, and a call of it then does nothing |
| Specialise.SpecRunSound | internal/core/schemata_nodes/handlers.go:549-567 | running any file with an id active is running the file with its guards decided for that id: same result, state, trace and fuel |
| Equivalence.VisitFileSpec | internal/core/transform.go:441-498 | deciding the guards of a visited file leaves what deciding them in the file with that one change leaves, through nested wrappers and clauses |
| Equivalence.VisitEmptied | internal/core/schemata_nodes/handlers.go:227-229 | transforming a file leaves the same residue as transforming the file whose lost declarations were empty from the start |
| Dichotomy.FileDecided | internal/core/transform.go:441-539 | where a site occurs at most once, the guard of its mutant stands there and nowhere else if the mutant lands, read off the source, and nowhere at all if it does not |
| Dichotomy.StillRecognised | internal/core/transform.go:441-498 | an operator still applies after the children of its statement were visited if and only if nothing it recognises the statement by was wrapped |
| Occurrence.InFileLands | internal/core/transform.go:441-539 | the mutant of a statement that stands anywhere in the file lands if and only if it lands on that statement |
| SchemataTheorems.InactiveRunsOriginal | internal/core/transform.go:441-498 | with an id of no mutant, every run of the transformed file equals the run of the original, lost declarations emptied, and of the original itself if none is lost |
| SchemataTheorems.ActiveRunsMutation | internal/core/schemata_nodes/handlers.go:193-376 | with the id of a mutant that lands, expression, statement or clause, every run equals the run of the file with that one change at that one site |
| SchemataTheorems.EveryMutant | internal/core/transform.go:441-539 | each mutant runs as its change if it lands, a condition on the source and the sites, and as the original if it does not, and its guard is placed if and only if it lands; declaration and clause sites included |
| SchemataTheorems.EveryListedMutant | internal/core/transform.go:397-539 | the same from the list of a file's mutants, numbered without repetition and grouped by site |
| SchemataTheorems.LoneStatementMutant | internal/core/transform.go:518-539 | a lone mutant on a statement other than `if` and return never lands |
| SchemataTheorems.StatementMutant | internal/core/transform.go:441-539 | the mutant of a statement, wherever it stands, runs as its mutation if it lands on that statement and as the original if not |
| SchemataTheorems.LostCheck | internal/core/transform.go:459-497 | the removal of an error or nil check lands if and only if neither its condition nor an operand of it is wrapped |
| SchemataTheorems.LostCheckRuns | internal/core/transform.go:459-497 | wherever in the file the check stands, a removal that does not land runs as the original |
| SchemataTheorems.ZeroReturnInClauseRuns | pkg/mutator/operators/zero_value_return/zero_value_return.go:28-67 | a zero-value mutant of a return in a case clause, wherever it stands, runs as the original |
| SchemataTheorems.ZeroReturnInClause | internal/core/mutants.go:273-279 | one return, two generated mutants: inside a clause only one of them lands, outside both |
| SchemataTheorems.ErrorCheckUnderMutatedCondition | pkg/mutator/operators/error_handling/error_check_removal.go:20-77 | one check, two generated mutants: the removal lands alone, but not beside a negation of the comparison |
| SchemataTheorems.LostDeclaration | internal/core/schemata_nodes/handlers.go:227-229 | with any id active, calling a declaration with a lost body does nothing, so it agrees with the original exactly where the original does nothing |
| SchemataTheorems.FuncDeclChangesTheOriginal | internal/core/schemata_nodes/handlers.go:227-229 | a concrete file whose run with no active mutant differs from the original |
| SchemataTheorems.DefaultClauseMutant | internal/core/schemata_nodes/handlers.go:321-376 | at one switch, the clause with its guard active and the emptied clause run alike exactly when the default is not reached |
| SchemataTheorems.DefaultClauseReturns | internal/core/schemata_nodes/handlers.go:321-376 | a concrete switch whose default is reached and which then runs differently |
| SchemataTheorems.ClauseMutantRuns | internal/core/schemata_nodes/handlers.go:321-376 | over a whole transformed file, a run that never gets to the clause is the run of the file with the operator applied, panics and exhaustion included |
| ClauseRuns.NeverEntered | internal/core/schemata_nodes/handlers.go:321-376 | a run that is not caught by a trap before a clause is the same whatever is done to that clause |
| LoopVars.PrependBlanks | internal/core/transform.go:643-696 | the loops over key, value and init names prepend one blank use per variable the body does not use |
| SchemataTheorems.LoopVarsPreserveMeaning | internal/core/transform.go:568-716 | the loop-variable pass changes no run |
| LoopVars.FixListRepairs | internal/core/transform.go:594-716 | after the pass, in every loop the walk of a list reaches, a key or value of a `range` other than `_`, and the variable the init of a `for` assigns, occurs in that loop's body |
| LoopRepair.TransformedLoops | internal/core/transform.go:568-716 | the same for every loop of a transformed file, wrapped and mutated ones included, and running the pass on the result again adds nothing |
| LiteralWalk.SecondWalkIdle | internal/core/transform.go:568-581 | after the walk over the declarations, the walk over function literals finds nothing to repair in any literal of a transformed file |
| LoopVars.FixTwice | internal/core/transform.go:568-716 | running the pass on a list again adds nothing |
| LoopVars.UsedInList | internal/core/transform.go:698-716 | a name counts as used in a body if and only if it is among the identifiers collected from it, other than at its own declaration |
| LoopVars.FixListIdle | internal/core/transform.go:594-716 | a list whose loops all use their variables is left as it is |
| BisectFile.Append | internal/core/schemata.go:955-955 | Go's append: in place within the capacity and nowhere outside the window behind the slice, in a new array otherwise |
| BisectFile.BisectFileMutants | internal/core/schemata.go:924-956 | the search on shared arrays answers as the search on values, blames exactly the bad ones and writes only inside its own range |
| BisectFile.BisectRight | internal/core/schemata.go:952-955 | searching the right half leaves the answers of the left half unchanged |
| BisectFile.GoodInCleanBlock | internal/core/schemata.go:938-941 | a candidate that is kept belongs to a block with which the file compiled |
| BisectFile.BadOnlyAlone | internal/core/schemata.go:929-950 | a candidate is given up only when applying failed or the file broke with it alone |
| BisectFile.CulpritsAreFound | internal/core/schemata.go:924-956 | if a block breaks the file exactly when it holds a culprit, exactly the culprits are given up |
| Selection.PickPartition | internal/core/schemata.go:924-956 | good and bad together are the candidates, none lost or doubled |
| Bisect.BisectPartition | internal/core/preflight.go:702-772 | with any answers of the checker, which may differ each time it is asked, valid and invalid divide the group and each keeps its order |
| Bisect.AcceptedInBlocks | internal/core/preflight.go:702-772 | what is accepted is a sequence of blocks each of which passed a check as that block |
| Bisect.BisectExact | internal/core/preflight.go:702-772 | if a group fails exactly when it holds a bad mutant, invalid is exactly the bad ones in order |
| Bisect.BisectCost | internal/core/preflight.go:702-772 | with k bad mutants among n, k at least 1, at most k(2 ceil(log2 n) + 1) checks are made |
| Bisect.CeilLog2IsLeast | internal/core/preflight.go:731-733 | the halving depth is the least exponent of two that reaches the size of the group |
| TypeErrors.ComputeBaselineErrors | internal/core/preflight.go:624-651 | counts the messages of the unmodified file |
| TypeErrors.NewErrors | internal/core/preflight.go:669-693 | the budget loop agrees with folding the errors one by one |
| TypeErrors.NewErrorsAreTheSurplus | internal/core/preflight.go:669-693 | of each message exactly the surplus over the baseline is reported |
| TypeErrors.PassesWithinBaseline | internal/core/preflight.go:609-615 | nothing is reported exactly when no message occurs more often than in the unmodified file |
| Preflight.PassesIff | internal/core/preflight.go:653-697 | a group passes level 3 exactly when it was transformed and checked without a panic and no message exceeds its count in the unmodified file |
| TypeErrors.MessageWithoutPosition | internal/core/preflight.go:385-390 | the same message at different positions compares equal |
| Preflight.QuickStaticFilter | internal/core/preflight.go:67-106 | level 1 marks the rejected mutants in place, and divides the ids |
| Preflight.CheckFileWithSchemata | internal/core/preflight.go:142-238 | a file keeps the mutants that apply alone if they also build together, else none; the rest is rejected once each |
| Preflight.RejectListed | internal/core/preflight.go:209-232 | the marking loops reject each listed id once and leave nothing behind |
| Preflight.Level2PackagePreflight | internal/core/preflight.go:110-140 | whatever order the files come in, the ids are divided, and of every file exactly the mutants survive that apply alone and build together |
| Preflight.Level3TypeCheckPreflight | internal/core/preflight.go:307-358 | whatever order results arrive in, the ids of mutants with a file are divided, and of every file the same mutants survive |
| Preflight.RunPreflight | internal/core/preflight.go:41-63 | the ids are divided among the rejections of the three levels and the survivors; invalid are exactly the rejected ids of level 1 and errors all others; the survivors of a file are those of its acceptable mutants that pass level 2 and then level 3, in any order of the files |
| Survivors.SurvivorsOfFile | internal/core/preflight.go:41-358 | of each file survive all mutants that have a node, are not unsafe and apply, if they build and type-check together; nobody if the file cannot be read or they do not build together; otherwise blocks of them each of which type-checked |
| VerifyClean.Partition | internal/core/schemata.go:1247-1280 | both partition helpers: the listed mutants become compile errors, the others stay as they are, in order |
| VerifyClean.TrackFiles | internal/core/schemata.go:1030-1044 | the loop over the mutants yields for every file the positions of its mutants, and for every workspace path the last file with that path |
| VerifyClean.BisectFiles | internal/core/schemata.go:1065-1079 | visiting the failing files in some order marks exactly the mutants the searches give up on, on the shared list, and collects exactly their ids |
| VerifyClean.ByPackagesKeeps | internal/core/schemata.go:1081-1105 | quarantine always removes somebody, because a failing file is a tracked one, and the books still balance |
| VerifyClean.ByIdsKeeps | internal/core/schemata.go:1140-1172 | a round that removes ids keeps the books and keeps fewer mutants, or ends in one of two errors |
| VerifyClean.CulpritsLeave | internal/core/schemata.go:1109-1118 | partitioning the list that bisection marked in place equals partitioning the unmarked list and marking the culprits |
| VerifyClean.StepKeepsBooks | internal/core/schemata.go:1014-1173 | whichever branch a round takes, and in whatever order it visits files, it keeps the books, and if it goes on it keeps strictly fewer mutants |
| VerifyClean.EndsKeepBooks | internal/core/schemata.go:1008-1192 | wherever the five rounds end, without an error the mutants are split into kept ones, unchanged, and removed ones, all compile errors; and what each error lists |
| VerifyClean.VerifyAndCleanSchemata | internal/core/schemata.go:1008-1192 | the loop ends where the rounds, taken one by one, can end, and keeps the books |
| Removals.QuarantineTakes | internal/core/schemata.go:1247-1269 | a quarantine removes a mutant, as a compile error, if and only if its copy in the workspace lies in the directory of an error; every other mutant is kept unchanged |
| Removals.LastTakes | internal/core/schemata.go:1176-1192 | the quarantine after the last round does the same, and if the files cannot be reset nobody leaves the list |
| Removals.NamedTakes | internal/core/schemata.go:1140-1172 | a build that names ids removes exactly their mutants, and goes on if and only if there are any and the files can be transformed again |
| Removals.CulpritsTaken | internal/core/schemata.go:1107-1138 | a bisection with culprits removes exactly them, and goes on if and only if the files can be transformed again |
| Removals.NamedAborts | internal/core/schemata.go:1148-1170 | a round that gives up keeps the unnamed mutants, those without a status marked untested by the compiler |
| Removals.CulpritsAbort | internal/core/schemata.go:1120-1136 | a bisection that gives up keeps the others, those without a status marked untested |
| Removals.MarkedBeside | internal/core/schemata.go:1176-1192 | a last quarantine without a reset leaves its members in the list, marked as compile errors |
| Removals.PositionsExactly | internal/core/schemata.go:1030-1044 | a file is bisected with all its mutants in order |
| Removals.SourceExactly | internal/core/schemata.go:1030-1044 | a workspace path stands for the file of the last mutant whose copy it is |
| Removals.RunTakes | internal/core/schemata.go:1008-1192 | however the rounds end without an error, a mutant is removed if and only if one of at most six builds blamed it, by id, by bisection or by directory; every other mutant is kept as it was |
| VerifyClean.RoundListsTwiceIff | internal/core/schemata.go:1140-1172 | a round that removes ids lists mutants twice if and only if somebody is left unnamed and the build named none of the mutants or the files cannot be transformed again |
| VerifyClean.EndsDoubledIff | internal/core/schemata.go:1008-1192 | the rounds can end with a mutant listed twice if and only if some course of them gets to such a round |
| VerifyClean.SecondListedTwice | internal/core/schemata.go:1163-1170 | two mutants and a first build that blames the first beside an error of their file: the second is kept and removed |
| VerifyClean.AbortsListTwice | internal/core/schemata.go:1148-1170 | the two aborting errors list every kept mutant twice: the ids still add up if and only if nothing is kept |
| Pipeline.RecordRejections | internal/core/schemata.go:66-81 | every rejected mutant is changed in the generated list, nobody else is, and gets one entry for the report, in order, with its status and, for an error, the compiler as its killer |
| FinalStatuses.RejectedAs | internal/core/schemata.go:66-81 | a rejected mutant is invalid or an error; the compiler is the culprit of an error, any other keeps its own |
| Pipeline.Execute | internal/core/schemata.go:311-358 | each mutant ends with what the unit results and the suites, in the configured order, make of it alone |
| FinalStatuses.KilledLast | internal/core/schemata.go:697-779 | suites after the unit tests: a mutant ends killed if and only if the unit tests kill it, or leave it neither timed out nor invalid and some binary kills it |
| FinalStatuses.KilledFirst | internal/core/schemata.go:697-779 | suites before the unit tests: it ends killed if and only if a binary or a unit test kills it, timed out or not |
| FinalStatuses.TimeoutStays | internal/core/schemata.go:711-716 | suites after the unit tests leave a mutant that timed out as it was |
| FinalStatuses.SuitesLast | internal/core/schemata.go:311-358 | the whole final status in that mode: what prevails among the unit results, and for a mutant they leave open among unit results and binaries |
| FinalStatuses.SuitesFirst | internal/core/schemata.go:311-358 | the whole final status in the other mode: what prevails among binaries and unit results |
| FinalStatuses.UnitOnly | internal/core/schemata.go:311-358 | the final status when only unit tests count |
| FinalStatuses.SuitesAlone | internal/core/schemata.go:697-833 | with everything cached a binary can only kill a target, or show that one without a result survives |
| FinalStatuses.CulpritOfRun | internal/core/schemata.go:735-829 | a mutant that binaries kill names the culprit of a run that killed it |
| FinalStatuses.ReportedAs | internal/core/schemata.go:311-370 | the report has the kept mutants with the status execution gave them, untested without one, and an error when the packages cannot be mapped |
| FinalStatuses.WithoutWorkspace | internal/core/schemata.go:153-196 | without a workspace every mutant that passed preflight ends as an error and keeps its culprit |
| FinalStatuses.Unheard | internal/core/schemata.go:363-370 | a mutant of which nothing is heard ends untested, or as the cache had it |
| FinalStatuses.NoWorkspaceIff | internal/core/schemata.go:94-196 | a run fails for want of a workspace if and only if one was needed |
| FinalStatuses.ErrorsAre | internal/core/schemata.go:198-370 | which error a run returns after verification, in this order: nobody left after a failure, no map of the packages, unit tests that did not run |
| Pipeline.RunWorkspace | internal/core/schemata.go:198-370 | whoever verification keeps is executed, even after a failure, unless nobody is left or the package map fails; the removed ones join the rejected |
| Pipeline.RunCached | internal/core/schemata.go:94-151 | when all is cached only external suites are run, and only in a module whose workspace can be set up |
| Pipeline.GenerateAndRun | internal/core/schemata.go:61-370 | the run is preflight, record and execution composed; unless verification fails, every generated id is reported exactly once with a status that belongs to a category |
| Pipeline.WholeRunReports | internal/core/schemata.go:61-370 | the same for every outcome of builds, caches and tests, with every other error return included |
| Pipeline.ReportedOnceIff | internal/core/schemata.go:200-214 | every generated id is reported once, unless verification aborts and the run goes on with the mutants it had kept |
| Pipeline.MiscountsIff | internal/core/schemata.go:94-370 | mutants that passed preflight can be reported twice if and only if they are verified in a workspace whose answers may lead to a round that lists its survivors twice |
| Pipeline.ReportedTwice | internal/core/schemata.go:200-214 | two mutants, nothing cached, and a first build that blames the first: the second is reported twice |
| Pipeline.ComputeStats | internal/reporter/reporter.go:220-246 | the counting loop agrees with the tally |
| Pipeline.TallyCounts | internal/reporter/reporter.go:220-246 | each category counts exactly the mutants of its status; errors are divided by who is to blame |
| Pipeline.CategoriesAddUp | internal/reporter/reporter.go:220-246 | the seven categories add up to the list if and only if no status is blank or unknown |
| Pipeline.ReportBalances | internal/core/schemata.go:83-84 | the categories add up to the number of generated mutants |
| Statuses.FoldClimbs | internal/core/schemata.go:480-495 | folding never lowers the rank and never leaves killed or invalid |
| Statuses.FoldAnyOrder | internal/core/schemata.go:490-495 | the final status does not depend on the order of arrival |
| Statuses.FoldIsMax | internal/core/schemata.go:480-495 | the final rank is the greatest seen, and a mutant ends killed exactly if it was or some result kills it |
| FinalStatuses.FoldPrevails | internal/core/schemata.go:478-495 | the fold ends with what prevails of all it saw, its own status included: killed, else timeout, else error, else survived, else untested; an invalid one stays |
| FinalStatuses.ResultsPrevail | internal/core/schemata.go:504-520 | a mutant ends with what prevails among the results that carry its id |
| FinalStatuses.TakenFrom | internal/core/schemata.go:504-520 | status and culprit are those of one result of the mutant, or it is as it was |
| FinalStatuses.CulpritIs | internal/core/schemata.go:490-520 | a killed mutant names the culprit of the first result that kills it, any other that of the last result to give its status |
| Statuses.InvalidWouldDependOnOrder | internal/core/schemata.go:480-495 | with a preflight status among the results the order would matter |
| Statuses.ClassifyVerboseRun | internal/core/classify.go:60-111 | the loop over output lines: first failing test with a name, else crash, else survival, by whether a test ran |
| Statuses.FailLineReadBack | internal/core/classify.go:113-127 | a printed failure line, however deeply indented, is read back with the name of its test |
| Statuses.ReadLineIff | internal/core/classify.go:60-111 | a line reports a started or a failed test if and only if, after any indentation, it begins with the mark of one |
| Statuses.NameWithoutDuration | internal/core/classify.go:113-127 | without a duration the name of a failed test ends at the first blank or with the line |
| Statuses.ClassifiedIff | internal/core/classify.go:60-111 | each of the five statuses and the culprit, said of the lines, the exit and the deadline |
| Statuses.ClassifiedArrives | internal/core/classify.go:60-111 | a run yields one of five statuses, and names a culprit exactly if it is not survived or untested |
| Statuses.CollectResults | internal/core/schemata.go:504-520 | each mutant ends as the fold of its own results; results of unknown ids are ignored |
| Statuses.CollectAnyOrder | internal/core/schemata.go:504-520 | collecting the results in another order ends with the same statuses |
| ExternalSuites.RunExternalPhase | internal/core/schemata.go:697-833 | both phases: targets are chosen once, each is run until killed, nobody else changes, whatever order results come in |
| ExternalSuites.SkippingChangesNothing | internal/core/schemata.go:735-757 | not running killed mutants again equals running every binary on every target |
| ExternalSuites.AnyBinaryOrder | internal/core/schemata.go:728-757 | the final status does not depend on the order of suites and binaries |
| ExternalSuites.KilledExactly | internal/core/schemata.go:749-829 | a mutant ends killed exactly if it was or some binary kills it, save an invalid one when merging by rank |
| KilledSets.SameKilledInEveryRun | internal/core/schemata.go:697-833 | on every mutant that a run feeds to the external phases, both phases agree on whether it is killed, given that neither the generated list nor the cache holds an invalid one |
| KilledSets.SavedNeverInvalid | internal/core/schemata.go:363-370 | what a run leaves to be cached holds no invalid mutant either, so the next run starts as clean |
| Executor.PlanIsExpected | internal/core/executor.go:485-602 | over its early exits and two passes a compile worker plans exactly one result per mutant |
| Executor.ExpectedArrives | internal/core/executor.go:485-602 | only statuses of execution are sent |
| Executor.StepConserves | internal/core/executor.go:413-639 | no step loses or doubles a result |
| Executor.Progress | internal/core/executor.go:413-639 | with at least one slot some step can be taken until the end: no schedule deadlocks |
| Executor.NoSlotsNoProgress | internal/core/executor.go:430-438 | with no slot nothing can ever start |
| Executor.RunKeeps | internal/core/executor.go:413-639 | along every schedule at most `concurrent` mutants and workers run, nothing is lost, and the number of steps is bounded |
| Executor.EveryScheduleCollects | internal/core/executor.go:413-639 | every complete schedule collects exactly the expected results |
| Executor.ScheduleIndependent | internal/core/executor.go:625-639 | exactly one result per mutant id, and the sorted list is the same for every schedule and every limit |
| Verdicts.EveryScheduleExplains | internal/core/executor.go:485-602 | under every schedule and limit each mutant has one result, and it is killed, survived, timed out, untested or an error if and only if the answers about tests, compiler, binary, earlier status and run say so; a compile error names its culprit |
| Verdicts.JobsForRuns | internal/core/executor.go:555-600 | test jobs are started for exactly the mutants that are to be run |
| Composition.ScheduleArrives | internal/core/executor.go:413-639 | with classified test runs, every schedule returns statuses of execution only, which is what the pipeline asks of unit results |
| Composition.AnyScheduleSameMutants | internal/core/schemata.go:317-345 | two runs that differ only in schedule and limit leave every mutant the same |
| BufferedPool.SendNeverBlocks | internal/core/executor.go:936-991 | the buffer always has room, so no send waits although reading starts later |
| BufferedPool.Progress | internal/core/executor.go:959-991 | with at least one slot some step can be taken until the channel is closed |
| BufferedPool.SmallBufferDeadlocks | internal/core/executor.go:936-936 | with room for one result only, two mutants reach a state without a step |
| BufferedPool.ClosedHoldsAll | internal/core/executor.go:959-991 | the closed channel holds one result for every id, after at most 3n + 1 steps |
| BufferedPool.BufferTells | internal/core/executor.go:959-991 | every buffered result is what its run gave, or, for a task that was cancelled, an error without a culprit |
| CompileErrors.PrintedLineRoundTrip | internal/core/utils.go:284-325 | a printed error is read back unchanged if and only if its file name has no colon followed by a space |
| CompileErrors.ParseCompilerErrors | internal/core/utils.go:266-282 | the line loop with its skips agrees with reading line by line |
| CompileErrors.PrintedErrorsRoundTrip | internal/core/utils.go:266-282 | a list of errors printed one to a line is read back whole |
| CompileErrors.InnermostSpan | internal/core/executor.go:225-237 | the loop finds a covering span of greatest start if any span covers the line |
| CompileErrors.InnermostAnyOrder | internal/core/executor.go:225-237 | when starts differ the answer does not depend on the order of the spans |
| CompileErrors.InnermostLiesInside | internal/core/executor.go:225-237 | among nested spans the chosen one lies inside every span that covers the line |
| CompileErrors.Charge | internal/core/executor.go:210-243 | each error is recorded once, under its mutant or as unattributed, in the order of the output |
| CompileErrors.AttributeCompileErrors | internal/core/executor.go:174-261 | a mutant has its own errors exactly if some error is charged to it; anything unattributed fails the whole batch |
| TypeNames.TypeDeclCache.TypeToString | internal/engine/engine.go:203-242 | terminates on ranked declarations and answers as the table did before the call, whatever the call adds; entries are never changed |
| TypeNames.TypeDeclCache.ResolveTypeName | internal/engine/engine.go:244-271 | the same for a name; the entry it adds is the answer the table would have given |
| TypeNames.TypeDeclCache.BuildOnce | internal/engine/engine.go:178-201 | the first file fills the table with exactly its declared names, each with its plain expansion; later files change nothing |
| TypeNames.AnswersPlainlyIffRight | internal/engine/engine.go:203-271 | a table answers every type expression of a file by its plain expansion if and only if each entry is the plain expansion of its name there |
| TypeNames.ExpandAnyRank | internal/engine/engine.go:203-271 | the plain expansion does not depend on the ranks that prove the declarations acyclic |
| TypeText.TextReadBack | internal/engine/engine.go:203-271 | the text of a type is read back as the type with every declared name replaced by its declaration |
| TypeText.SameTextIff | internal/engine/engine.go:203-271 | two types have the same text if and only if they stand for the same type |
| TypeNames.TerminatesIffAcyclic | internal/engine/engine.go:203-271 | the writer comes back from every declared name if and only if the declarations have ranks |
| TypeNames.SliceOfItself | internal/engine/engine.go:217-221 | a slice of itself never ends |
| TypeNames.TypeDeclCache.AnswerInSecond | internal/engine/engine.go:543-561 | type expressions of a second file are answered with the table of the first |
| TypeNames.TableOfAnotherFile | internal/engine/engine.go:543-561 | the table of one file answers another plainly if and only if the two agree on the expansion of every name the first declares |
| TypeNames.TypesOfTwoFiles | internal/engine/engine.go:543-561 | a pair of files on which they do not |
| Suppressions.Engine.SetSuppressEntries | internal/engine/engine.go:65-133 | the loops over entries and items agree with marking cell by cell |
| Suppressions.LoadedIgnore | internal/engine/engine.go:65-133 | after loading, exactly what was ignored before or is said by an entry is ignored |
| Suppressions.ItemMeaning | internal/engine/engine.go:95-133 | what an item of an entry says: an operator at every column, or at one column; no number after the colon means every column |
| SuppressionSync.SyncSuppressions | internal/suppressions/sync.go:60-130 | in any map order, each location is written once with its config items and directives, or for all operators |
| SuppressionSync.SyncKeepsAnswers | internal/suppressions/sync.go:60-130 | a fresh engine answers as before at a place if and only if all was ignored there or nothing there is widened |
| SuppressionSync.CommentMeaning | internal/engine/engine.go:287-330 | what a comment suppresses on the next line: everything, an operator, or one column of it; no number after the colon means every column |
| SuppressionSync.EmptyCommentIff | internal/engine/engine.go:287-330 | a comment leaves its cell empty if and only if a colon comes before any operator name |
| SuppressionSync.EmptyCommentWidens | internal/suppressions/sync.go:60-130 | such a comment ignores nothing, and after synchronisation a fresh engine ignores what was not ignored |
| Collection.ProcessFile | internal/engine/engine.go:571-606 | the loops over nodes and operators add a node once for each operator whose collecting test it passes and that the comments of the file do not suppress |
| Collection.HonouredIff | internal/core/mutants.go:168-176 | a suppression of a mutant that generation would make keeps it away if and only if the comments of the file suppress every operator that reports the node, by the test of collection |
| Collection.ConfigEntryIgnored | internal/engine/engine.go:592-594 | an entry of the config that suppresses everything at a line does not keep the mutant away |
| Collection.OtherOperatorReports | internal/core/mutants.go:168-176 | nor does a comment for one operator at a node that another one reports |
| Collection.OnlyReporterSuppressed | internal/core/mutants.go:273-279 | but a comment for the only reporter does, though generation's test would pass for another operator |
| SuppressionSync.LoadingLoads | internal/runner/runner.go:66-66 | entries loaded first satisfy the condition of the round trip, whatever the engine held |
| SubConfigs.GovernsIffAncestor | internal/subconfig/resolver.go:172-173 | the text test holds exactly for the directory and its ancestors, component by component, the root excepted |
| SubConfigs.LineIsRootToLeaf | internal/subconfig/resolver.go:64-67 | sorting by text length orders the governing directories from root to leaf |
| SubConfigs.AnyDiscoveryOrder | internal/subconfig/resolver.go:46-67 | however entries were found and sorted, repeated ones included, the chain of every mode is the same |
| SubConfigs.FoundTwice | internal/subconfig/resolver.go:46-58 | how often a directory was found makes no difference to replace and isolate mode nor to the threshold |
| SubConfigs.FoundOnceMore | internal/subconfig/resolver.go:238-251 | one more entry, wherever it stands, leaves a list of filters alone if and only if its directory does not govern the file or has no such filters |
| SubConfigs.FoundMoreOften | internal/subconfig/resolver.go:46-67 | finding directories more often leaves a list alone if and only if no governing directory with such filters was found more often |
| SubConfigs.FiltersTwice | internal/subconfig/resolver.go:46-58 | the list of a directory found once is its filters, and found twice its filters twice |
| SubConfigs.Resolver.GetChain | internal/subconfig/resolver.go:136-199 | the loops of the three modes yield the chain of the mode, each config without the settings that the organisation locks |
| SubConfigs.LockedThreshold | internal/orgpolicy/enforce.go:98-140 | a locked threshold leaves the root's, any other lock leaves the threshold alone |
| SubConfigs.LockedFilters | internal/orgpolicy/enforce.go:98-140 | of a locked list nothing but the root's part is left, the other lists are as without a policy |
| SubConfigs.EachSetting | internal/orgpolicy/enforce.go:98-140 | each setting is gone if its own name is locked, and as it was otherwise |
| SubConfigs.ReplaceIsDeepest | internal/subconfig/resolver.go:164-186 | replace mode is the last of the merge chain, the config of the deepest governing directory |
| SubConfigs.IsolateIsOwnDirectory | internal/subconfig/resolver.go:151-162 | isolate mode has the config of the file's own directory or none |
| SubConfigs.ThresholdIsNearest | internal/subconfig/resolver.go:226-234 | the threshold is that of the nearest governing directory that sets one, else the root's |
| SubConfigs.Resolver.EffectiveThreshold | internal/subconfig/resolver.go:226-234 | the backward loop finds the last threshold of the chain, unless thresholds are locked |
| SubConfigs.Resolver.EffectiveFilters | internal/subconfig/resolver.go:238-251 | each filter list is the root's followed, unless it is locked, by those of the levels in order |
| CacheKeys.KeyTextInjective | internal/cache/cache.go:97-117 | key texts tell mutants apart when operators and hashes have no colon, whatever the paths |
| CacheKeys.KeysCollideOnColons | internal/cache/cache.go:97-117 | whatever operator or hash has a colon, some other operator and hash at the same place share its key |
| CacheKeys.ResolveCache | internal/core/mutants.go:182-233 | cached statuses are restored in place; the run list is exactly the blank positions in order, or absent if all were cached |
| CacheKeys.SaveCache | internal/core/mutants.go:235-271 | exactly the mutants with a status and a readable file are stored, later ones overwriting |
| CacheKeys.SaveThenResolve | internal/core/mutants.go:182-271 | saving and resolving the same mutants restores every status that was saved and touches no other |
| DiffParser.Parse | internal/diff/diff.go:55-106 | the scanner loop agrees with reading line by line |
| DiffParser.HeaderRead | internal/diff/diff.go:110-128 | a printed hunk header yields the number of the hunk's first new line |
| DiffParser.DiffRoundTrip | internal/diff/diff.go:55-128 | printing edit scripts of several files with any context and reading them back marks exactly the added lines |
| DiffParser.AddedRecognised | internal/diff/diff.go:83-87 | a printed added line is taken for one if and only if its text does not begin with two plus signs |
| DiffParser.RemovedRecognised | internal/diff/diff.go:90-91 | a printed removed line is passed over if and only if its text does not begin with two minus signs |
| Sites.Engine.Sites | internal/engine/engine.go:756-776 | a sorted permutation of what the workers added |
| Sites.SortedByPlace | internal/engine/engine.go:756-776 | in a sorted list the sites of a file are together, by line, then column, then kind |
| Sites.AnyInterleaving | internal/engine/engine.go:615-619 | however blocks are interleaved and equal sites ordered, deduplication yields the same strictly increasing list and the same mutants |
| Sites.GenerateMutants | internal/core/mutants.go:120-180 | one mutant per first-seen site and applicable operator |
| Sites.IdsCountUp | internal/core/mutants.go:140-176 | ids are 1, 2, 3 and so on without gaps |

## Left out

- Specialise.SpecRunSound: the program never assigns to `activeMutantID`, which the helper file reserves; variables are function-wide, so a shadowing `:=` inside a block is not modelled.
- Visitor.BuildPositionToMutantsMap: sites come with their key; the derived position of a node without one is modelled only for expression statements.
- The tree is a value that is rebuilt, not a tree edited in place through a cursor, so aliasing between nodes is not captured.
- Returns with several results, methods with receivers, function literals of the user, select, go, defer, labels and type switches are not in the syntax; nor are the operators for them and the one that swaps case bodies.
- The type of a wrapper's function literal (`inferExprType`, `buildTypeExpr`); a wrong guess is filtered by type checking.
- Removal of unused imports, positions in the transformed file and the injected helper file.
- Preflight.CheckFileWithSchemata: parse, temporary file, application and formatting of one mutant are one yes-or-no answer.
- VerifyClean.TrackFiles: a source file that itself lies inside the temporary workspace.
- VerifyClean.ByPackagesKeeps: the code's check for an empty set of packages is left out, since the failing file's package is always in it.
- VerifyClean.StepKeepsBooks: build output is reduced to named ids and error files.
- Pipeline.GenerateAndRun: generation itself and the marking of mutants without tests come before, so the list starts with any statuses; saving the cache comes after. The error return of cache resolution, which no code reaches, is left out.
- Executor.Progress: cancellation of the context and the pool's own errors do not occur, as no job returns one.
- Sites.GenerateMutants: effective operators of a file are a parameter; `effectiveOperators` and the sub-config operator override are not modelled.
- DiffParser.HeaderRead: a line number beyond the machine integer is read as 0 here and as the greatest integer in Go; file names that git quotes are not modelled.
- SubConfigs.Resolver.GetChain: of the organisation's policy only the locked settings; operators, tests, suppressions and dir rules are accumulated like the threshold or the filters.
- Suppressions.Engine.SetSuppressEntries: the two outer maps, by file and by line, are one map by place.
- CompileErrors.AttributeCompileErrors: the spans of the transformed files are given; finding them needs the Go parser.
- Standalone mode (`runStandalone`, `runStandalonePackage`), which drops rejected mutants from its return, and the deprecated `bisectBadMutants`.
- Running Go, git and test binaries, temporary directories, timeouts, progress output, JSON, YAML, HTML and SARIF, the score as a floating-point number.

Nothing was executed. What the "Model" table states is proved by the Dafny verifier; what this section says is not
modelled.
