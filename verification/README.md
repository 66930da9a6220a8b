# lnpl in Dafny

Machine-checked models of the parts of `lnpl` where being right takes an argument: the mode B
compiler and its equivalence with the interpreter, the outbox relay, the condition language and the
instant codec, reviewed IR edits, YAML quoting and knowledge-pack layering.

`dafny verify dfyconfig.toml` checks everything.

## What is proved

**Mode B compiler.** A workflow is a flat node table (`Workflow.Table`) that an acyclicity rank
unfolds to a tree. `Interp` is mode A: it walks the tree on a virtual clock, executes effects against
a store of rows, retries a failing step, runs the steps of a `parallel` block in any schedule
(`Blocks`), and records skips. Mode B flattens and unrolls the tree (`Workflow.StepsInOrder`),
numbers the steps and predicts where the run fails (`Ops.LnplOps`), lowers guards to SSA over 64-bit
integers (`GuardEmit`), renders a module (`Render.RenderStd`), spells it out as text whose parameters
are bound by position (`SpelledRun`), builds it with its C shim (`Build`), runs it on the small machine
of `Machine`, and parses the printed trace back (`Trace`) with the skips restored from what was not
printed (`StreamRun.RestoreSkips`).

`Differential.ModesAgree` is the end-to-end theorem: both modes are observed alike (execution order,
effects per step name, status, skip records) for every store, every value of the references, every
retry budget, every schedule of the parallel blocks and either skip flag, when

* the body has the shape that the structure rules leave (`Ownership.WellShaped`; every document that
  keeps the rules has it, `Ownership.PermittedIsWellShaped`),
* every guard is a comparison or a conjunction of comparisons, with alternatives on `when`, over
  references that have 64-bit values, and its evaluation does not fault (`AllGuardsFit`),
* no step of a parallel block fails, and its steps do not touch what another one writes
  (`Events.BlocksCalm`), and the executor leaves no block unfinished (`Interp.Settles`; such
  executors exist, `Interp.ExecutorsSettle`),
* the scan foresees the run: no driver fault before the failure it finds, no assignment to a row that
  was never bound or that brings a deleted row back, no failing guarded step, nothing asked about an
  entity that a guarded step wrote (`Prediction.Predictable`), and no lost row under a step predicted to
  be retried (`Prediction.CutRepeats`),
* the run is on time: on the clock that charges every effect, what is taken ends within the deadline,
  or the attempt predicted to be the failing step's last is the last there is time for
  (`Prediction.OnTime`; every run without a deadline is),
* text and shim build: every reference is ASCII, no word of C and no name of the shim, and no bare one
  is spelled like a name of the emitted function (`Build.Buildable`),
* step names hold no NUL and no line boundary, and effect kinds no space either (`CleanSteps`).

`Differential.PlainIsComparable` gives a class of documents that can be recognised beforehand. The
theorem is assembled from one lemma per stage: the walk plays the events of its tree on the virtual
clock, or both run out of time (`Events.WalkFollows`), a calm block is its steps in written order and
takes their time together, whatever its schedule (`BlockClock.CalmBlockOnClock`), the plan plays the
same events (`SkipGrain.PlanMatchesTree`), the op stream tells that run exactly if it is on time
(`StreamRun.StreamTellsRun`), the text builds (`Build.BuildsExactly`), executing the module prints the
stream (`RenderCorrect.OpsRun`), the text runs as its names do (`SpelledRun.TextRuns`), and reading
the output back gives the run (`Trace.RunReadsBack`, `StreamRun.RestoredIsSkipped`).
`Differential.ObserveModeB` runs the modelled code itself, from the node table to the parsed output, and
its result is stated against a walk over the same table that knows no tree (`TableWalk`): ids in order,
`when` with all its alternatives, `until`, repeat counts.

What the parts mean is fixed apart from the equivalence. `GuardMeaning` gives the truth of a guard's text
in integer arithmetic (comparators, operations, units, truncating division) and the word that compiled
code leaves for it; `StepLaws` gives what each effect asks for and leaves, how long a step takes and how
often it is attempted.

**Where the two modes differ, each with an input and the exact condition.**

* A parallel block one step of which fails: mode A observes every step that started, mode B stops at
  the first failing step in written order. They agree exactly if the pool started nothing written
  after that step (`FailingBlock.FailingBlockObserved`, after any prefix that completes), which every
  schedule keeps only if that step is the block's last (`BlockOrder.EveryScheduleAgreesExactly`).
  `FailingBlock.LaterSiblingIsObserved` is a two-step block.
* A driver fault that the document does not show, and a row that is found, deleted, written back
  through its binding and found again: `Unguarded.FaultyCallIsMissed`, `Unguarded.RevivedRowIsMissed`.
  For plans without guards `Unguarded.UnguardedStreamIsExact` is the exact condition: no fault strikes,
  every assignment has a bound row, nothing asks for a row that only an assignment wrote back, and a
  step that is tried again loses no row. It leaves out plans in which a retried step loses a row after
  the scan has gone wrong, where the traces can agree by accident (`Unguarded.AgreesByAccident`).
* The compile-time clock of `_failure_attempts` charges a step's cost for every planned step before
  the failing one, skipped or not, and no effects; the interpreter's clock charges what has run,
  effects included. A whole run under any deadline, its guards, loops and calm blocks included, is the
  compiled stream exactly when it is on time (`Deadline.DeadlineExactly`). Either side can make the
  other's count wrong: one effect before costs an attempt (`Deadline.OneEffectCostsAnAttempt`), and one
  skipped step before adds one (`Deadline.SkippedStepAddsAnAttempt`). After a run that left no planned
  step out no step is attempted more often than predicted (`Deadline.AttemptsWithinPrediction`); in
  general `AttemptClock.AttemptsExactly` says when. The comment at `impl/lnpl/backend.py:1259` calls it
  the interpreter's loop and nothing more; the model follows the code.
* A condition reference that the text or the shim cannot take, so that there is no binary: one spelled
  like a name of the emitted function (`SsaForm.SkipGuardCollides`, the guard `skip > 3`), like a
  variable or a function of the shim's `main` (`Differential.RcGuardIsNotObserved`, the guard `rc > 3`),
  like a word of C, or outside ASCII. `Build.BuildsExactly` is the exact condition. A reference is
  checked against the document only when it has a dot (`impl/lnpl/lower.py:3743`), so nothing refuses
  these. A qualified reference in ASCII whose identifier is no word of the compiler is safe.

**Other findings.**

* The retried trace is one failing prefix per attempt exactly if there is one attempt or what comes
  before the failing effect loses no row it asks for (`RetryTrace.RetriedTraceExactly`); a delete
  before a rejected validation shortens it (`RetryTrace.DeletedRowShortensTheTrace`). This takes a
  step that owns two accesses, as the splitting agent looks for.
* The compiled guard never divides by zero, but `INT64_MIN / -1` is not guarded against: the guard
  stops exactly when an evaluated division meets it (`GuardCorrect.GuardCompilationPreservesMeaning`,
  `GuardCorrect.LeastByMinusOneStops`).
* An assignment's right-hand side does not survive printing and parsing exactly when its leading
  name is an aggregate function or `format` (`ConditionRoundTrip.RhsRoundTripExactly`), as in
  `count + 1` (`ConditionRoundTrip.CountIsReadAsAggregate`).
* `encode_instant` accepts days a month does not have and second 60, which `decode_instant` does not
  give back: `Instant.CanonicalFixedPoint` is the exact condition, `Instant.February30IsNoFixedPoint`
  an input.
* A reference held through two fields of one node can be laundered past the gate over edits.
  `Laundering.KeptExactly` says which references every approval keeps, the structure check included;
  `Laundering.PolicyIsLaundered` is a service that loses its policy.
* A commit that raises leaves the relay's transaction to the end of its connection
  (`RelayProtocol.StrandedKeepsItsRows`). Commits and rollbacks close every begin that is not open if
  and only if no connection has ended, and every open batch can be rolled back if and only if the
  connection of each commit that raised has (`RelayProtocol.ClosedExactly`); the comment at
  `impl/lnpl/cli.py:1143` promises the first of all batches.
  `RelayProtocol.RaisingCommitLeavesItOpen` is a run of five events.

**Limits of hand-built documents.** The parser (`impl/lnpl/parser.py:115-146`) and the structure
rules (`impl/lnpl/protocol.py:110-123`, `343-391`) refuse nested guards, a repeat next to a guard,
and a node listed twice, so the following need a document that bypasses both: flattening drops a
guard nested in another (`Flattening.FlattenExactly`, `Flattening.NestedGuardIsDropped`); a
zero-round `until` that a `repeat` reaches twice is recorded twice by mode A and once by mode B, and a
`repeat` inside a skipped `when` once by mode A and once per round by mode B
(`SkipGrain.PlanMatchesExactly`, `SkipGrain.RepeatedUntilLosesRecords`,
`SkipGrain.RepeatInsideWhenAddsRecords`); and a step that lists its first access twice loses one of
them when it is split (`Refactor.SplitKeepsEffectsExactly`).

**Outbox relay.** `RelayProtocol` is a state machine of N relays over a row-locking outbox, with any
peer, any interleaving and an exception at any step, the commit included. `RelayPass` is one relay's
code, with its transactions, its stop rule and its termination; `RelayRefines` shows that a batch and a
pass are runs of the protocol, and states what is delivered by what the far side answered.

**Agents.** `Review` is the gate over proposed edits, `Laundering` what its approvals conserve.
`Refactor` is the split of one step, `RefactorRound` one round over a whole document: every workflow
keeps its accesses in order, and fewer remain to be split off (`RefactorRound.RoundKeeps`).

**Conventions.** Text is `seq<char>`; character classification is a parameter (`CharClass`) with the
few facts the grammar relies on, which ASCII has (`ConditionSyntax.AsciiIsSane`). Exceptions are `Option` or `Result` values. Methods are proved
against functions or directly against the property; loops that the original writes as loops are
loops here.

## Model

| member | source | states |
|---|---|---|
| Differential.ModesAgree | impl/lnpl/differential.py:374-488 | compiling, building and running the emitted text and reading back observes the order, per-name effects, status and skips of interpreting the tree, for all reference values, stores, retry budgets, schedules of parallel blocks, deadlines the run keeps, and skip flags; every condition is one of the document, its references or its run |
| Differential.ObserveModeB | impl/lnpl/differential.py:108-200 | the code of mode B, run from the node table and the seeded rows on, with the fields sorted and bound by position, returns exactly what is observed of mode A's walk over that same table, under the conditions of the theorem and the rules on which kinds own which |
| Differential.ObservedIs | impl/lnpl/differential.py:49-105 | mode A's observation: `failed` or `completed`, the names of the spans in order, under each name the effects of all its spans, and the entries of its skip records |
| Differential.EitherObserved | impl/lnpl/differential.py:374-488 | one step under `a > 3 or b > 3` with a = 0 and b = 5: compiled, it is observed to run, to complete and to skip nothing |
| TableWalk.WalkRuns | impl/lnpl/interp.py:443-588 | reading the node table id by id (children in order, repeat counts, `when` taken if any of its condition and alternatives holds, `until` for at most sixteen rounds and to its own deadline, the names of what a guard left out) gives the run of the body that the table unfolds to |
| TableWalk.AlternativeRuns | impl/lnpl/interp.py:497-533 | the same input on the table: the alternative that holds takes the step |
| Workflow.PlannedIsFlat | impl/lnpl/backend.py:432-475 | the list read off the table (a `when`'s entries under its condition and all its alternatives, sixteen rounds of an `until`'s, a repeat's as often as it says) is what the body flattens to, and there is one exactly if no id, kind or mode on the way is unknown |
| Differential.UnbuildableHasNoBinary | impl/lnpl/backend.py:2023-2078 | a stream with a reference that text or shim cannot take gives no binary, so the condition on references is exact |
| Differential.RcGuardIsNotObserved | impl/lnpl/backend.py:2005-2018 | the guard `rc > 3`: mode B observes nothing |
| Differential.PlainIsComparable | impl/lnpl/differential.py:374-488 | a permitted document without driver faults, assignments, failing or writing guarded steps, deletes under a retry, and parallel steps whose effects can fail or write meets the conditions of the theorem |
| Differential.StreamTellsTree | impl/lnpl/backend.py:1378-1583 | what is observed of the interpreter's run is what the compiled op stream tells |
| Differential.StreamRead | impl/lnpl/differential.py:108-200 | for any body, mode B observes what the compiled stream tells: its spans accumulated per name, its status and its skips |
| FailingBlock.FailingBlockObserved | impl/lnpl/interp.py:2945-3029 | a workflow with a failing parallel block after any prefix that completes is observed alike by both modes if and only if the pool started no step written after the first that fails |
| FailingBlock.LaterSiblingIsObserved | impl/lnpl/backend.py:1563-1578 | two steps, the first rejected after the second was started: the observations differ |
| BlockOrder.CalmBlockIsSerial | impl/lnpl/interp.py:2945-3016 | a settled block of steps that do not interfere and do not fail leaves the rows and spans of its steps in written order, whatever its schedule |
| BlockOrder.FailingBlockExactly | impl/lnpl/interp.py:2978-3016 | a settled block with a failing step fails, and its spans are those of the written order if and only if the schedule has no step after the first failing one |
| BlockOrder.EveryScheduleAgreesExactly | impl/lnpl/interp.py:2978-3016 | all schedules that start steps in the order they are written leave those spans if and only if the first failing step is the block's last |
| BlockClock.CalmBlockOnClock | impl/lnpl/interp.py:2945-3048 | under a deadline a settled block of calm steps leaves the rows, the spans and the clock of its steps one after the other, or there is no time for all of them and one fails |
| Interp.InTimeIsUntimed | impl/lnpl/interp.py:1988-2105 | a run whose accumulated virtual clock stays before the deadline is the run without one, loops and blocks included |
| Blocks.CanSettle | impl/lnpl/interp.py:2954-2963 | from any state of a block some order of attempts settles it, since attempts run out |
| Ownership.PermittedIsWellShaped | impl/lnpl/protocol.py:343-391 | every document that keeps the kind and single-owner rules spells out a body without nested guards, without a repeat next to a guard, and with every step once |
| Ownership.WellShapedIsAligned | impl/lnpl/protocol.py:110-123 | such a body flattens to its own steps and records every skip at one grain, whatever its guards turn out to be |
| Workflow.StepsInOrder | impl/lnpl/backend.py:432-475 | appends exactly the list read off the table, which is the flattened, unrolled body the ids unfold to, or raises the first error of reading it, exactly if there is one; ends by a rank of the table |
| Flattening.FlattenExactly | impl/lnpl/backend.py:432-475 | for fixed guard outcomes the flattened list runs the tree's steps if and only if every guard inside a taken guard is taken too |
| Flattening.FlattenPreservesMeaning | impl/lnpl/backend.py:1178-1223 | without nested guards flattening preserves the step sequence whatever the outcomes |
| Flattening.FlattenComparison | impl/lnpl/backend.py:449-475 | the flattened run is never shorter than the walk, and strictly longer when nested guards disagree |
| Flattening.UntilCollapses | impl/lnpl/backend.py:1895-1909 | an `until` loop capped at 16 rounds runs no round or all sixteen when its condition does not change |
| Flattening.NestedGuardIsDropped | impl/lnpl/backend.py:455-468 | a step under two nested guards, in a document built by hand, runs in the flattened list although the inner guard is false |
| Events.WalkFollows | impl/lnpl/interp.py:443-588 | under any deadline the tree walk plays the events of its tree on the virtual clock, skips, early failure, loops and calm parallel blocks included, or walk and events have both run out of time |
| Events.RunsEvents | impl/lnpl/interp.py:443-588 | without a deadline it plays them, for every body whose guards do not fault |
| SkipGrain.PlanMatchesTree | impl/lnpl/backend.py:1626-1670 | the flattened plan plays the tree's events, one skip record per step of a false `when` and one, not sixteen, per step of a zero-round `until` |
| SkipGrain.PlanMatchesExactly | impl/lnpl/backend.py:1626-1670 | for a whole body without nested guards the plan plays the tree's events if and only if every skipped guard is recorded at one grain: its `when` unrolls no step, its `until` owns ids that are new and different |
| Events.OneRecord | impl/lnpl/differential.py:80-105 | a skip record is compared as one entry for every step it names, of its mode, condition and rounds |
| SkipGrain.SkipRecordedExactly | impl/lnpl/differential.py:80-105 | a guard that is not taken is recorded alike by plan and tree if and only if its `when` unrolls no step, or its `until` owns ids that are new and different |
| SkipGrain.PlainAligned | impl/lnpl/backend.py:1652-1660 | distinct ids and no repeat around an `until` or inside a guard suffice for one grain |
| SkipGrain.RepeatedUntilLosesRecords | impl/lnpl/backend.py:1654-1660 | in a document built by hand, every zero-round `until` reached twice by a repeat is recorded less often by the plan than by the tree |
| SkipGrain.RepeatInsideWhenAddsRecords | impl/lnpl/interp.py:594-612 | in a document built by hand, every repeat inside a skipped `when`, but of one round, is recorded at another grain |
| Ops.NumberedMeans | impl/lnpl/backend.py:1407-1441 | op k has index k + 1 and its entry's id, name, guard and effects; its round is the number of entries of its id so far, if its id occurs again |
| Ops.NumberOps | impl/lnpl/backend.py:1407-1441 | ops are numbered from 1 and get their occurrence number as round exactly if their id occurs again |
| Ops.ScanEffects | impl/lnpl/backend.py:1509-1562 | the scan of a step stops at the first effect that the tracked rows say fails; seeded and created entities together are the tracked rows |
| Ops.LnplOps | impl/lnpl/backend.py:1378-1583 | the numbered stream, cut at the first predicted failure with one failing prefix per predicted attempt |
| Prediction.PlanTold | impl/lnpl/backend.py:1466-1581 | while the scan foresees it, the run of a plan is the run the scan tells if and only if it is on time, from any entry on and for any guard outcomes |
| Unguarded.UnguardedScanIsExact | impl/lnpl/backend.py:1507-1581 | from any entry of an unguarded plan on, the scan tells the run if and only if, up to the failure it finds, no driver fault strikes, every assignment has a bound row, nothing asks for a row that only an assignment wrote back, and the failing step, tried again, loses no row it asks for |
| Unguarded.UnguardedStreamIsExact | impl/lnpl/backend.py:1507-1581 | the same of the compiled stream and a whole run |
| Prediction.PlainIsPredictable | impl/lnpl/backend.py:1466-1581 | a plan without faults, assignments, failing or writing guarded steps, and deletes under a retry is foreseen and its failing trace repeats, whatever rows it starts with |
| Unguarded.RevivedRowIsMissed | impl/lnpl/interp.py:2326-2340 | find, delete, set and find one row: mode A completes, mode B's stream fails at the last step |
| Unguarded.FaultyCallIsMissed | impl/lnpl/interp.py:2735-2757 | a network call that fails ends mode A's run, mode B's stream completes |
| Unguarded.AgreesByAccident | impl/lnpl/backend.py:1563-1578 | a retried step that asks for a revived row and loses another leaves the predicted trace although the scan is wrong about both attempts |
| StreamRun.StreamTellsRun | impl/lnpl/backend.py:1378-1583 | the compiled stream's taken ops are the spans of the run of its plan, its absences the skips and its terminal status the status, if and only if the run is on time |
| StreamRun.RestoreSkips | impl/lnpl/backend.py:1626-1670 | returns the records of planned guarded steps not printed, later `until` rounds left out |
| StreamRun.RestoredIsSkipped | impl/lnpl/backend.py:1626-1670 | reading back the absences of a run's printed indices gives the steps whose guard was not taken |
| StreamRun.PlanAccountedFor | impl/lnpl/backend.py:1607-1670 | printed steps, skip records and later rounds of skipped loops add up to the plan |
| RetryTrace.RetriedTraceExactly | impl/lnpl/interp.py:2842-2870 | a failing step's trace is one failing prefix per attempt if and only if it is attempted once or the effects before the failing one lose no row they ask for, driver faults included |
| Retry.FailureAttempts | impl/lnpl/backend.py:1258-1306 | one attempt for a step that creates a row, calls the network or emits an event; otherwise min(retry + 1, 100) without a timeout, and with one more than m attempts exactly if five milliseconds per step before, m misses and the waits between leave time |
| AttemptClock.FailingStepAttempts | impl/lnpl/interp.py:2842-2870 | the same counts, without a timeout, of the interpreter's own attempts at a step that fails |
| StepLaws.RepositoryEffects | impl/lnpl/interp.py:2320-2560 | what a read, a query, a create, an update and a delete ask of the rows and leave of them, and that each is recorded |
| StepLaws.OtherEffects | impl/lnpl/interp.py:2320-2560 | the same of assignments, cache accesses, validations, network calls, events and the rest |
| StepLaws.SeededRows | impl/lnpl/interp.py:129-143 | a run starts with the rows it is given and with nothing bound |
| StepLaws.EffectsInOrder | impl/lnpl/interp.py:2295-2318 | a step's effects run in order up to the first that fails, which is recorded too; what they wrote stays |
| StepLaws.StepTime | impl/lnpl/interp.py:2295-2318 | a millisecond per effect that succeeds, five more for a step, one for a row that is missing |
| StepLaws.LateStep | impl/lnpl/interp.py:2073-2150 | from its deadline on a step runs nothing and fails |
| StepLaws.PausesRun | impl/lnpl/interp.py:2073-2150 | n steps without effects complete under a deadline T exactly if 5n <= T |
| StepLaws.AttemptsInMillis | impl/lnpl/interp.py:2842-2862 | under a deadline a failing step that may be repeated is attempted more than m times exactly if m attempts and the waits 100, 200, 400, 800, 1000, ... between them leave time |
| StepLaws.Waits | impl/lnpl/interp.py:3375-3378 | the backoff after each attempt |
| Retry.AttemptsWithoutTimeout | impl/lnpl/backend.py:1287-1306 | min(retry + 1, 100) without a timeout |
| Retry.AttemptsMonotone | impl/lnpl/backend.py:1287-1306 | attempts rise with retry and timeout and fall with steps before and cost per attempt |
| Retry.BackoffsFitTheDeadline | impl/lnpl/backend.py:1225-1227 | every backoff taken ends before the deadline, so k >= 5 attempts need more than 1500 + 1000(k - 5) ms |
| AttemptClock.TraceOnTime | impl/lnpl/interp.py:2842-2862 | a failing step leaves n copies of its failing prefix if and only if attempt n starts in time and there is no other or no time for it |
| AttemptClock.AttemptsExactly | impl/lnpl/interp.py:2842-2862 | it is attempted at most n times if and only if the policy allows no more or attempt n + 1 would not start in time |
| Deadline.AttemptsWithinPrediction | impl/lnpl/backend.py:1290-1306 | after any run that left no planned step out, the next step is attempted no more often than predicted |
| Deadline.DeadlineExactly | impl/lnpl/interp.py:2073-2150 | under any deadline the run of a well-shaped workflow with calm parallel blocks is what the compiled stream tells, spans, skips, attempts and status, if and only if what it takes ends in time or the attempt predicted to be the last is the last there is time for |
| Deadline.StreamInTime | impl/lnpl/backend.py:1258-1306 | where the deadline cuts no predicted attempt the stream is compiled as if there were none |
| Deadline.OneEffectCostsAnAttempt | impl/lnpl/backend.py:1290-1306 | two reads, one retry and 107 ms: two attempts at the second are predicted, the run fails after one |
| Deadline.SkippedStepAddsAnAttempt | impl/lnpl/backend.py:1271-1292 | a false `when`, a read, one retry and 106 ms: one attempt is predicted, the run makes two |
| GuardEmit.EmitDivision | impl/lnpl/backend.py:303-320 | appends the zero test, the substitute divisor and the division |
| GuardEmit.EmitOperand | impl/lnpl/backend.py:323-344 | appends an operand's arithmetic and returns the name that holds it |
| GuardEmit.EmitCondition | impl/lnpl/backend.py:347-391 | appends the evaluation of a condition or nothing when it has no evaluator |
| GuardEmit.EmitAltCondition | impl/lnpl/backend.py:394-424 | appends every alternative up to the first without an evaluator, and their disjunction if there is none |
| GuardCorrect.OperandRuns | impl/lnpl/backend.py:303-344 | an operand's code computes its wrapped 64-bit meaning for all inputs, never divides by zero and touches only its own names |
| GuardCorrect.GuardCompilationPreservesMeaning | impl/lnpl/backend.py:347-391 | for any conjunction and both `negate` settings the code computes the interpreter's truth value or its negation whenever that does not fault; for any inputs it runs, or stops exactly when an evaluated division divides INT64_MIN by -1 |
| GuardMeaning.QuotientTruncates | impl/lnpl/interp.py:1165-1171 | division gives the one whole number that leaves a remainder smaller than the divisor and of the dividend's sign |
| GuardMeaning.CompiledDivisionTruncates | impl/lnpl/backend.py:303-320 | the code of a division of two references leaves that number in its name, the dividend itself where the divisor is 0 |
| GuardMeaning.OperandLeaves | impl/lnpl/backend.py:303-344 | an operand's code stops at a quotient past 64 bits or leaves the word that integer arithmetic gives, each result but for a multiple of 2^64 |
| GuardMeaning.EvalDenotes | impl/lnpl/interp.py:1093-1176 | evaluation finds a number exactly where integer arithmetic gives one within 64 bits at every operation and no divisor is 0 |
| GuardMeaning.ComparatorsMean | impl/lnpl/interp.py:977-1058 | the texts `a < b`, `a <= b`, `a > b`, `a >= b`, `a == b` and `a != b` hold exactly if the two numbers compare so |
| GuardMeaning.OperationsMean | impl/lnpl/interp.py:1093-1176 | the texts `a + b == c`, `a - b == c`, `a * b == c` and `a / b == c` in integer arithmetic, with their faults |
| GuardMeaning.NumeralSays | impl/lnpl/lexer.py:213-235 | digits are their number, and with `ms`, `s`, `m`, `h` or `d` behind them 1, 1000, 60000, 3600000 or 86400000 milliseconds each |
| GuardMeaning.DurationPrints | impl/lnpl/condition.py:581-594 | a duration is printed in its largest exact unit |
| GuardMeaning.FieldWithoutNumber | impl/lnpl/interp.py:977-1058 | a comparison with a field that has no value is false, one with a field past 64 bits is a fault |
| GuardMeaning.PredicatesMean | impl/lnpl/interp.py:893-940 | `exists`, `missing`, `is-numeric` and `is-not-numeric` |
| GuardMeaning.TermsMean | impl/lnpl/interp.py:893-940 | a conjunction faults exactly if a term does and holds exactly if every term does |
| GuardMeaning.BlankHolds | impl/lnpl/interp.py:882-891 | a blank condition holds, and text that is no condition is a fault |
| GuardMeaning.AndMeans | impl/lnpl/condition.py:612-626 | the text `x < y and y < z` |
| GuardMeaning.ReferencesAre | impl/lnpl/condition.py:733-760 | a reference is one camelCase name or two with a dot, and none of the six words of the grammar |
| GuardCorrect.LeastByMinusOneStops | impl/lnpl/backend.py:303-320 | `a.x / b.y > 0` at INT64_MIN and -1 stops |
| AltGuardCorrect.AltCompilationPreservesMeaning | impl/lnpl/backend.py:394-424 | the same for the disjunction of any list of alternatives, all of them evaluated, with the same exact condition for stopping |
| Render.RenderStd | impl/lnpl/backend.py:1764-1942 | the module of a stream: interned strings, ascending constants of every guard text, each op's code, the return value |
| Render.EmitGuard | impl/lnpl/backend.py:1864-1914 | the evaluation of a step's guard, by mode and alternatives |
| Render.EmitGuarded | impl/lnpl/backend.py:1875-1927 | the guarded body, the skip-flag fallback of `when` and the unconditional fallback of `until` |
| RenderCorrect.OpRuns | impl/lnpl/backend.py:1846-1936 | executing an op's code prints its step and effect lines exactly if its guard is taken |
| RenderCorrect.OpsRun | impl/lnpl/backend.py:1764-1942 | executing the code of the first k ops prints the lines of those taken, in order |
| RenderCorrect.PrintedLines | impl/lnpl/backend.py:1978-1985 | a step prints `step`, its number and its name, and for each effect `effect`, the name and the kind |
| SsaForm.ModuleIsSsa | impl/lnpl/backend.py:1808-1838 | whatever the guards, every emitted name is defined once and before use, constants are declared, references are parameters, the constant true is there when used |
| SsaForm.ApartExactly | impl/lnpl/backend.py:1764-1942 | two names of an emitted function are spelled alike if and only if a bare condition field is spelled like a name that this function defines or takes |
| SsaForm.QualifiedIsApart | impl/lnpl/backend.py:219-233 | with qualified references no two names of an emitted function are spelled alike |
| Build.BuildsExactly | impl/lnpl/backend.py:1989-2078 | text and shim build if and only if every reference is ASCII, no word of C and no name of the shim, and no bare one is spelled like a name that the function makes up |
| Build.RefusedNames | impl/lnpl/backend.py:1989-2018 | a bare field can be declared in the shim exactly if it is no word of C17, no variable of `main`, no function it calls and no further word of the compiler's |
| Build.RcGuardDoesNotBuild | impl/lnpl/backend.py:2005-2018 | the guard `rc > 3` makes `main` declare `rc` twice |
| SsaForm.SkipGuardCollides | impl/lnpl/backend.py:1829-1838 | the guard `skip > 3` gives the function two parameters of one name |
| SpelledRun.TextRuns | impl/lnpl/backend.py:1764-1942 | the emitted text, its parameters bound by position, runs with the output of its names when no two are spelled alike |
| SpelledRun.CollectFields | impl/lnpl/backend.py:515-540 | the references of every guard text of the plan |
| SpelledRun.SortedFields | impl/lnpl/backend.py:515-540 | the fields, each once, in string order |
| SsaNames.SpellingInjective | impl/lnpl/backend.py:303-424 | names the emitter makes up are spelled alike only if they are the same |
| SsaNames.OpSpellings | impl/lnpl/backend.py:1846-1936 | the spellings of a step's pointer, index, result, skip flag and kinds |
| SsaNames.ConstantSpellings | impl/lnpl/backend.py:1808-1838 | the spellings of the skip parameter and the constants |
| SsaNames.OperandSpellings | impl/lnpl/backend.py:303-344 | the spellings of an operand's results, of a guard's own condition and of an alternative |
| SsaNames.TruthSpellings | impl/lnpl/backend.py:347-424 | the spellings of the truth of guards, terms and folds |
| SsaNames.FieldIdentInjective | impl/lnpl/backend.py:219-233 | a condition field's identifier determines the field |
| SsaNames.QualifiedNeverCollides | impl/lnpl/backend.py:219-233 | a qualified reference is never spelled like a made-up name |
| Trace.LinesReadBack | impl/lnpl/backend.py:2094-2124 | splitting the standard output gives the printed lines |
| Trace.ObserveLines | impl/lnpl/differential.py:166-184 | the trace parser's order, effects and status are the fold of its lines |
| Trace.RunReadsBack | impl/lnpl/backend.py:1978-1985 | parsing a printed run recovers its order and mode A's accumulated effects per name, repeated and spaced names included |
| Trace.RanStepIndices | impl/lnpl/backend.py:1607-1623 | the set of indices of the step lines |
| Trace.IndicesReadBack | impl/lnpl/backend.py:1607-1623 | the indices read from a printed run are those of its steps |
| Trace.FoldSpans | impl/lnpl/differential.py:49-77 | mode A's fold gives the names of the spans in order and under each name the effects of all its spans |
| ConditionRoundTrip.ConditionRoundTrip | impl/lnpl/condition.py:542-559 | parsing a printed condition returns it: any number of terms, any 64-bit literal, any duration in its coarsest unit |
| ConditionRoundTrip.ParseThenPrintIsStable | impl/lnpl/condition.py:250-270 | whatever text parses, printing and parsing again gives the same tree |
| ConditionRoundTrip.RhsRoundTripExactly | impl/lnpl/condition.py:497-505 | a right-hand side survives printing and parsing if and only if its leading name is not an aggregate function or `format` |
| ConditionRoundTrip.RhsTexts | impl/lnpl/condition.py:581-610 | how an aggregate and a format call are printed |
| ConditionRoundTrip.CountIsReadAsAggregate | impl/lnpl/condition.py:497-505 | `count + 1` is printed and not read back |
| ConditionRoundTrip.ParsesWellFormed | impl/lnpl/condition.py:612-700 | what parses is well formed: its names are references and its literals are not negative |
| ConditionSyntax.SplitOnAnd | impl/lnpl/condition.py:612-626 | the token groups between the `and`s |
| ConditionSyntax.AsciiIsSane | impl/lnpl/condition.py:612-700 | the facts that the theorems assume of character classes hold of ASCII |
| Instant.EncodeDecode | impl/lnpl/condition.py:458-475 | encoding a decoded instant gives it back for every millisecond of years 0001-9999 |
| InstantText.TextNamesTheInstant | impl/lnpl/condition.py:404-455 | a local time as text, with any fraction of a second, with `Z`, `z`, or an offset of either sign with or without a colon, and with `T`, `t` or a blank in it, encodes to its UTC time: the fraction in whole milliseconds, `+` meaning ahead of UTC |
| InstantText.FractionMillis | impl/lnpl/condition.py:434-436 | a fraction's milliseconds are its whole thousandths, of one digit, two, three or more |
| InstantText.AcceptedExactly | impl/lnpl/condition.py:438-447 | canonical text is accepted exactly if its year is not 0000, its month one of twelve, its day at most 31, its hour at most 23, its minute at most 59 and its second at most 60 |
| InstantText.Epoch | impl/lnpl/condition.py:458-475 | 1970-01-01T00:00:00.000Z is 0, both ways |
| InstantText.LeapDay | impl/lnpl/condition.py:458-475 | 2000-02-29T12:34:56.789Z is 951827696789, both ways |
| InstantText.BeforeEpoch | impl/lnpl/condition.py:458-475 | 1969-12-31T23:59:59.999Z is -1, both ways |
| Instant.CanonicalFixedPoint | impl/lnpl/condition.py:404-455 | canonical text is a fixed point if and only if its day exists in its month and its second is at most 59 |
| Instant.February30IsNoFixedPoint | impl/lnpl/condition.py:430-444 | 2021-02-30T00:00:00.000Z is encoded and decoded to other text |
| Instant.DecodeAscends | impl/lnpl/condition.py:458-475 | decoded instants sort as text the way they sort as numbers |
| Instant.LocalTimeNamesTheInstant | impl/lnpl/condition.py:447-451 | the local time of an instant at any offset encodes to that instant |
| Calendar.DateOfInverse | impl/lnpl/condition.py:458-475 | the Gregorian date of a day number has that day number and is a real date |
| Calendar.MonthStarts | impl/lnpl/condition.py:430-444 | the days before each month of a year |
| Calendar.OrdinalInverse | impl/lnpl/condition.py:430-444 | the day number of a real date determines it |
| RelayProtocol.StepKeepsInvariant | impl/lnpl/cli.py:1132-1156 | every step, a commit that raises and a lost connection included, keeps locks disjoint and on undelivered rows, every begin matched, and confirmations = delivered + pending + undone, per row |
| RelayProtocol.EveryRunIsSafe | impl/lnpl/cli.py:1132-1173 | the invariant holds in every state N relays reach |
| RelayProtocol.DeliveredWasAnswered | impl/lnpl/cli.py:1008-1089 | in every run, a row that ends up delivered was committed in the batch in which the peer had confirmed it or rejected it for good |
| RelayProtocol.DuplicatesComeFromRollbacks | impl/lnpl/cli.py:1132-1156 | a row answered more than once was in a batch that rolled back or lost its connection after the answer |
| RelayProtocol.ClosedExactly | impl/lnpl/cli.py:1143-1156 | in every run commits, rollbacks and open batches account for every begin if and only if no connection ended, and every open batch can be rolled back if and only if the connection of every commit that raised has ended since |
| RelayProtocol.RaisingCommitLeavesItOpen | impl/lnpl/cli.py:1143-1156 | a run of five events after which the one batch begun is neither committed nor rolled back, cannot be, and keeps its row |
| RelayProtocol.StrandedKeepsItsRows | impl/lnpl/cli.py:1150-1156 | a batch whose commit raised keeps its rows from every other drain until its connection ends |
| RelayProtocol.NothingIsLost | impl/lnpl/cli.py:1008-1053 | rows and deliveries never disappear, and between batches confirmations are deliveries and undone answers |
| RelayPass.PostAll | impl/lnpl/cli.py:1026-1050 | exactly the ids of the rows of declared events that the far side answered 200 or 422, in order, unless something raises at a row |
| RelayPass.PublishAll | impl/lnpl/cli.py:1066-1086 | exactly the ids of the rows of declared events whose publishing returned or was rejected for good, in order, unless something raises at a row |
| RelayPass.RelayBatch | impl/lnpl/cli.py:1132-1156 | one begin; an exception in the drain, at a row or in the acknowledgement rolls back to the outbox as it was; a commit that raises leaves the transaction open; otherwise one commit, and what joins the delivered rows is what the far side answered 200 or 422, took or rejected for good in that batch |
| RelayPass.RelayOnePass | impl/lnpl/cli.py:1159-1173 | ends because each continuing batch shrinks the backlog; total, backlog, deliveries and transactions are those of the stop rule, and what a raising commit leaves open falls back to the commits before it |
| RelayRefines.BatchIsRun | impl/lnpl/cli.py:1132-1156 | a batch is a run of the protocol with one relay, event by event, in every case of trouble, and the protocol's rows and deliveries after it are those the code leaves |
| RelayRefines.DeliveredExactly | impl/lnpl/cli.py:1026-1089 | a row joins the delivered ones exactly if its batch was committed and the far side answered 200 or 422 for it in that batch, or took it or rejected it for good |
| RelayRefines.PassIsRun | impl/lnpl/cli.py:1159-1173 | a pass is a run of the protocol, batch after batch |
| RelayRefines.PassIsSafe | impl/lnpl/cli.py:1159-1173 | so the protocol's invariant holds after a pass, and each row it acknowledged was answered in the batch that committed it |
| RelayPass.PassReaches | impl/lnpl/cli.py:1159-1173 | against a peer that answers by row, a pass acknowledges in order exactly the rows it can reach |
| RelayPass.AcknowledgedExactly | impl/lnpl/cli.py:1159-1173 | acknowledgements ascend, and an acknowledgeable row is acknowledged if and only if fewer than `limit` failing rows precede it |
| Refactor.Violations | impl/lnpl/agents.py:710-726 | exactly the steps with two direct accesses or more under a workflow or pipeline, the first in the document first |
| Refactor.NothingToSplit | impl/lnpl/agents.py:710-726 | with distinct ids and single owners nothing violates the rule exactly if no step that a workflow or a pipeline lists has two children that are accesses |
| Refactor.FreshId | impl/lnpl/agents.py:748-754 | the least number whose id is used neither in the document nor by the split |
| Refactor.MintSteps | impl/lnpl/agents.py:728-758 | one fresh, distinct id per moved access, the owner's with `.split.` and a number, or none as soon as a name cannot be derived |
| Refactor.NamesAre | impl/lnpl/agents.py:728-749 | the name of a moved access, and when it has none |
| Refactor.SplitKeepsProgram | impl/lnpl/agents.py:774-807 | a split keeps the owner's access sequence and effects, and their order if and only if the moved accesses come last |
| Refactor.SplitKeepsEffectsExactly | impl/lnpl/agents.py:786-787 | no effect is lost or doubled if and only if the first access is listed once |
| Refactor.SplitLowersExtra | impl/lnpl/agents.py:774-807 | each split lowers the accesses still to be moved by the number it moves |
| RefactorRound.Round | impl/lnpl/agents.py:809-840 | one round splits, in place and under new ids, the first step that needs it; it does so if and only if there is one and all its moved accesses have names; where all have names it does nothing exactly if no step under a workflow or pipeline has two accesses |
| RefactorRound.RoundKeeps | impl/lnpl/agents.py:774-807 | over a sound document every workflow keeps its accesses in order and all its effects, in order if and only if it does not hold the split step or the moved accesses come last; the document stays sound and fewer accesses remain |
| RefactorRound.SplitKeepsWorkflows | impl/lnpl/agents.py:785-807 | the same for one split of a node table, for every node but the split step |
| Review.Assess | impl/lnpl/agents.py:311-371 | approves exactly the edits that keep kinds, declare every drop and land every move anew in the field it left |
| Review.HarmlessIsApproved | impl/lnpl/agents.py:311-371 | edits that change no kind and take no reference away are approved without a declared move |
| Review.OneMoveApproved | impl/lnpl/agents.py:333-371 | two edits that move one reference are approved exactly if the move is declared and the reference was not held there |
| Review.ApprovalKeepsReferences | impl/lnpl/agents.py:320-371 | after an approval every reference through a field is still held through that field, where no node holds one id through two |
| Review.ApprovedMovesAreNew | impl/lnpl/agents.py:351-371 | a declared move lands in a node that did not hold the reference before |
| Review.ApprovalKeepsNodes | impl/lnpl/agents.py:311-325 | no id disappears and none changes its kind |
| Laundering.KeptExactly | impl/lnpl/agents.py:311-382 | every approval keeps a reference in its field if and only if some holder holds it through no later field, or it is the ownership of a node that may not be unowned; the structure check is part of the gate |
| Laundering.PolicyIsLaundered | impl/lnpl/agents.py:333-343 | a service that names its policy under `constraints` and `requires`: an approval leaves no node with the policy under `constraints` |
| Quoting.YamlQuote | impl/lnpl/deploy_gen.py:140-166 | the quoted text, character by character |
| Quoting.EscapesAre | impl/lnpl/deploy_gen.py:140-166 | printable ASCII but the quote and the backslash stays as it is, line feed and tab have their own escapes, and every other code point is two, four or eight lower-case hexadecimal digits |
| Quoting.QuotedReadsBack | impl/lnpl/deploy_gen.py:140-166 | a YAML 1.2.2 reader returns the quoted string for every code-point sequence; the output is printable ASCII closed at its end only |
| Quoting.ComposeReadsBack | impl/lnpl/deploy_gen.py:169-173 | reading and interpolating returns the string in any environment, substituting no variable |
| KnowledgeBase.Base.AddPacks | impl/lnpl/kb.py:237-252 | accepts packs exactly if of no two of them one's prefix begins the other's |
| KnowledgeBase.Base.Load | impl/lnpl/kb.py:255-286 | the merged index, computed once, or the error for an empty core or a foreign document |
| KnowledgeBase.IndexHolds | impl/lnpl/kb.py:255-286 | the merged index holds the core's documents as they are and those of the packs under their pack's name and root, and nothing else |
| KnowledgeBase.LayeringIsOrderIndependent | impl/lnpl/kb.py:225-286 | every permutation of the packs is accepted or refused alike and gives the same index, the core's entries in it |

## Left out

- TableWalk.WalkRuns: documents whose guards own one item; the record that a taken guard leaves of an `otherwise` item is not part of this model.
- Toolchain and text: MLIR and C text layout, building and running processes. The module is a list of instructions over spelled names.
- Presence and numeric-shape guards and the run-level skip flag: rendered as the code does, but outside the equivalence.
- Constructs mode B refuses (Money, lookup keys, optional fields, Text equality, fill sources, `fail`, aggregates, `otherwise`, cached reads): not in the compiled fragment. A guard owns one item.
- Parallel blocks: an attempt runs whole under the block's lock, although a network call releases it (`impl/lnpl/interp.py:2735-2765`), so siblings never interleave within an attempt; cancelling takes effect at a moment the schedule chooses; wall-clock span times and the cap on threads are not modelled.
- Driver faults: a fault is a property of an effect, not of one occurrence or attempt of it, so one that passes on a retry is not modelled.
- Bindings: references have fixed values during a run, so the values that a read binds and the projection of the seed are parameters; which rows a run has bound is modelled, but not the rows that `create` and network calls bind to a name of their own. An assignment writes its row back with no value.
- Differential.ModesAgree: with a guarded step that fails, or an entity asked about after a guarded write, nothing is claimed; the scan does not follow guards.
- Deadline.DeadlineExactly: a parallel block one step of which fails on its own is outside it, as is a failing step that is predicted to be retried and loses a row; the latter's trace differs even without a deadline.
- FailingBlock.FailingBlockObserved: no deadline, and the steps of the block do not interfere.
- Unguarded.UnguardedScanIsExact: where a retried step loses a row after the scan has gone wrong nothing is claimed; `AgreesByAccident` shows why.
- Build.BuildsExactly: the words that a compiler's dialect and headers take besides the keywords of C17 are a parameter.
- GuardCorrect.GuardCompilationPreservesMeaning: says nothing about the value computed when the interpreter faults, which the original leaves to mode A alone.
- RelayProtocol.EveryRunIsSafe: liveness under a stuck peer is not claimed; a commit that raises after it took effect is a commit.
- RelayPass.RelayOnePass: rows that other processes add or lock during a pass are in `RelayProtocol` only.
- Review.Assess: the rights, provenance and schema gates are one flag that can only refuse; the structure check joins in `Laundering`, on sets of references, without the loop that finds a cycle.
- Refactor.MintSteps: provenance and names of the new steps and the proposal protocol are not part of this model.
- KnowledgeBase.Base.Load: scanning directories and manifests is not part of this model; a pack's documents are given.
- KnowledgeBase.Base.AddPacks: the reserved core prefix and the manifest checks are not part of this model.
- Instant.EncodeDecode: digits are ASCII; the other decimal digits `\d` accepts are not modelled.
- Formats of assignment targets and placeholder counts of `format` are not modelled.
- The masking class of the comparison, and the refusal walkers: single checks without structure.
