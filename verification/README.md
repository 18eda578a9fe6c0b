# Verified model of the QEMU self-test harness

The harness boots virtual machines under QEMU, watches their serial output, migrates them between processes and reports
the results. This project models the parts of it where a mistake would be quiet: the text formats it reads and writes,
the expansion of annotated tests, the pollers, the life of QEMU processes and tap devices under concurrency, and the two
bare-metal programs that act as oracles over the emulator. `dafny verify dfyconfig.toml` checks everything.

| files | model |
|---|---|
| `Regex`, `FilterToken`, `TestFilter` | the filter language: token grammar, parser, composition, display, matching |
| `Escaping`, `Junit`, `JunitFormats`, `XmlEvents`, `JunitReader`, `JunitRoundTrip` | the report writer, its lines, and a reference reader that undoes it |
| `TestMatrix`, `TestLabel` | annotation expansion as mixed-radix numbering; bindings, properties, labels |
| `Selection` | selection, results and exit status |
| `Serial` | the serial line assembler and its pollers |
| `Teardown`, `TapPool` | ending a process; the pool of tap pairs |
| `Suite`, `SuiteSafety`, `SuiteTaps`, `SuiteResults`, `SuiteOutcomes` | workers, pool, processes and shutdown flag as an interleaved state machine |
| `MmioOracle` | the MMIO payload over an emulator with arbitrary load and store mappings |
| `PagingMemory`, `PagingPayload` | the paging payload over byte memory with real page tables |
| `Text`, `Decimal`, `Counting`, `Words`, `Wrappers` | strings, numbers, counts, machine words and result types the others share |

Code that updates state in place is modelled by classes and methods (`TestFilter.Parse`, `Serial.SerialReader`,
`Teardown.QemuProcess`, `TapPool.Pool`, the two `Machine` classes, the loops of the macro and the writer); what they
promise is proved about the functions and predicates their contracts name.

## What is assumed

- A read that reports `WouldBlock` or `TimedOut` has consumed no bytes; `read_until` hands over nothing past a newline.
  A read may return any number of bytes, none included.
- Clocks, reads, answers of child processes, test outcomes, the shuffle and the existence of tap devices are parameters.
  A shuffle is any permutation. Each sleep advances the clock by at least its length.
- A kill is effective, every QMP request ends, and test functions end without a panic.
- Process numbers are unique. A child is live from `Command::spawn` until it is reaped or exits.
- Durations in reports are opaque text of digits and dots.
- The port 0xCF8 keeps a 32-bit word and clears its two low bits.
- The interrupt controller reads as some value below 2^24 for each selected register; its selector echoes what was
  written.

## Where the code does less than one may expect

- **Leaks.** A spawn that fails after the child exists does not end the child, and the drop of a process gives up when
  `try_wait` fails; in both cases the tap pair still returns to the pool, and two live processes can then share a tap
  (`SuiteTaps.AbandonedSpawnCanShareTap`, `SuiteTaps.GivenUpDropCanShareTap`). Nothing else leaks a process
  (`SuiteTaps.LeaksHaveACause`). Exactly a child created on the tap of a leaked process makes two share it, whether or
  not its spawn succeeds (`SuiteTaps.SpawnSharesOnlyWithLeaked`, `SuiteTaps.SharingBeginsWithSpawn`), so a run without
  the two events shares no tap (`SuiteTaps.LeakFreeRunsShareNoTap`).
- **Allocation** of a tap pair can fail. It never does exactly when there are at least as many valid pairs as workers or
  as scheduled tap tests (`SuiteTaps.AllocationNeverFails`). `TEST_JOBS=0` is accepted; it starts a default number of
  workers over an empty pool, and every allocation fails (`SuiteTaps.ZeroJobsNeverAllocate`).
- **A poll that gives up**, by a timeout, a shutdown request or a read error, loses the bytes of an unfinished line: the
  next poll sees other lines exactly when bytes were held and their line completes (`Serial.GivenUpPollLosesLine`), and
  can miss a line that a longer poll would have matched (`Serial.SplitLineIsMissed`, `Serial.BrokenLineIsMissed`).
- **Labels** of two combinations of one annotation can coincide. A value can be read as two parameters exactly when it
  contains a comma, a blank, a name and "=" in a row (`TestLabel.ValueReadsAsTwo`); every such value collides in some
  annotation where the name comes later (`TestLabel.GluedValueCollides`), and when no value contains this for the name
  of a later parameter, all labels of the annotation differ (`TestLabel.LabelsDiffer`). Across stacked annotations the
  same label may arise on purpose.
- **The MMIO payload's comment** (`src/asm/boot_mmio.asm:21`) credits T2 with catching symmetric mapping errors. T2 alone
  accepts every symmetric permutation that leaves EAX in place (`MmioOracle.SymmetricSwapPassesPreservation`); T3 rules
  them out on the data registers, and T4 then always passes. On the base registers only T1 can see them: a symmetric swap
  of EDI and EBP passes exactly when the register selected before reads plausibly or EBP held the selector's address
  (`MmioOracle.BaseSwapDetects`). From a state in which only the version register reads plausibly, the payload passes
  exactly the identity (`MmioOracle.FirstReadDetects`).
- **The paging payload** cannot tell an exchange of the two `D` bytes or of the two `C` bytes of the first word, nor the
  two low bits of the first byte of the second, which the port clears. `PagingPayload.Machine.Run` states the exact set
  of emulators that pass.
- **A prefixed filter** widens: the CI action runs `migration_os,<user filter>`, and an include token of the user adds
  tests instead of narrowing the selection (`TestFilter.PrefixedFilterSelects`).

## Model

| member | source | states |
|---|---|---|
| Regex.DerivativeDenotes | src/util.rs:18 | The derivative of a regular expression by a character denotes exactly the rests of the words starting with that character. |
| FilterToken.ScanDenotes | src/util.rs:18 | From every state of the scanner, a string is accepted exactly when it is in the language still expected in that state. |
| FilterToken.IsTokenDenotesPattern | src/util.rs:42-44 | The one-pass scan accepts exactly the language of the filter-token pattern, for all strings. |
| FilterToken.TokenIsWords | src/util.rs:18 | A token is a word, or two words around one equals sign; a word is non-empty runs of lower-case letters and digits between underscores. |
| FilterToken.TokenShape | src/util.rs:18 | A token is not empty, starts with a letter or digit, and contains none of the characters reserved by the filter syntax and its display. |
| TestFilter.Parse | src/util.rs:31-49 | Splits at commas; the first malformed token is the error; otherwise includes and excludes keep their order and lose the dash. |
| TestFilter.FirstMalformedAt | src/util.rs:42-44 | The error is the first token that breaks the grammar, with its dash. |
| TestFilter.ParsedOfSingle | src/util.rs:34-49 | A text without a comma is included if it is a token, excluded if it is a dash and a token, and otherwise the error. |
| TestFilter.ParsedOfGlued | src/util.rs:31-49 | Parsing `a,b` succeeds exactly when both parse and yields both lists concatenated; the left error comes first. |
| TestFilter.PrefixedFilterSelects | action.yml:102 | With one include token in front, the filter parses exactly when the rest does, and selects by that token or the includes of the rest, minus its excludes. |
| TestFilter.RenderedParses | src/util.rs:31-49 | Every filter made of tokens, written back as comma-joined tokens, parses to itself. |
| TestFilter.ParsedIsParsed | src/util.rs:31-49 | Every accepted text yields a non-empty filter of tokens, and writing it back parses to the same filter. |
| TestFilter.RenderedIsRaw | src/util.rs:31-49 | Writing an accepted text's filter back gives the text itself exactly when no include token follows an exclusion. |
| TestFilter.DisplayIs | src/util.rs:64-77 | The display is `include: ` and `exclude: ` with the values joined by bars, either alone or both with a comma and a blank between. |
| TestFilter.UndisplayOfDisplay | src/util.rs:64-77 | A reader recovers both lists of a parsed filter from its one-line display. |
| TestFilter.DisplayIsInjective | src/util.rs:64-77 | Two parsed filters display alike exactly when they are equal. |
| Escaping.EscapeIsOnePass | src/junit.rs:105-111 | The five sequential replacements equal one substitution per character. |
| Escaping.PredefinedEntities | src/junit.rs:105-111 | The five reserved characters become their entities of section 4.6 of XML 1.0, and every other character stays. |
| Escaping.DecodeOfEscape | src/junit.rs:105-111 | Entity decoding restores every input. |
| Escaping.EscapeIsClean | src/junit.rs:105-111 | The escaped text has no raw bracket or quote, and every ampersand starts one of the five predefined entities (section 4.6 of XML 1.0). |
| Escaping.AmpersandMustBeFirst | src/junit.rs:106 | With the ampersand replaced last, decoding restores a text exactly when it contains no bracket and no quote. |
| Junit.FormatJunit | src/junit.rs:22-103 | Appending line by line in nested loops produces the whole document, header counts included. |
| Junit.FailuresAreCounted | src/junit.rs:23-27 | The failures attribute is the number of positions with a failed result. |
| Junit.SkipsAreCounted | src/junit.rs:28-31 | The skipped attribute is the number of positions with a skipped result. |
| JunitFormats.DocumentIsText | src/junit.rs:33-102 | The document is the writer's format strings, filled in with the escaped texts and counts, in order. |
| XmlEvents.ScanOfPrinted | src/junit.rs:22-103 | The reference scanner recovers every list of events with legal names from its printed text. |
| XmlEvents.NoneOpenIsForest | src/junit.rs:33-102 | Scanning events with a stack of open elements ends empty exactly when they are a forest: each start tag is followed by a forest and its own end tag. |
| JunitReader.DocumentIsPrinted | src/junit.rs:33-102 | The written document is the printed text of its event list, whatever the labels, properties and messages contain. |
| JunitRoundTrip.ReadReportOfDocument | src/junit.rs:22-103 | Reading a written report gives back all results in order (label, properties, outcome, message, time) and the three counts. |
| JunitRoundTrip.DocumentNests | src/junit.rs:22-103 | The events of a written report are a forest: every element is closed, and elements do not overlap. |
| TestMatrix.CartesianProduct | test-macro/src/lib.rs:227-247 | There are as many combinations as the product of the radices, and combination i is the mixed-radix decoding of i. |
| TestMatrix.DigitsNumberChoices | test-macro/src/lib.rs:231-243 | The digits of a parameter number its choices in order: None first if it is optional, then the values as written. |
| TestMatrix.IndexOfDigits | test-macro/src/lib.rs:227-247 | Encoding the digits of a combination number gives the number back. |
| TestMatrix.DigitsOfIndex | test-macro/src/lib.rs:227-247 | Every choice of value positions occurs, at the number it encodes. |
| TestMatrix.NumberingIsLexicographic | test-macro/src/lib.rs:227-247 | Combinations come in lexicographic order, the first parameter most significant and None first. |
| TestMatrix.ExpandAll | test-macro/src/lib.rs:100-108 | Stacked annotations contribute their combinations one annotation after the other; an annotation without parameters contributes one. |
| TestMatrix.ExpansionOfFirst | test-macro/src/lib.rs:100-108 | The first annotation's product comes first, and what follows is the expansion of the remaining annotations. |
| TestMatrix.NumberDecodesUniquely | test-macro/src/lib.rs:138-168 | Every generated number stands for exactly one annotation and one choice of positions in it. |
| TestMatrix.ExtractSkip | test-macro/src/lib.rs:179-198 | Fails exactly when a skip value is not a string literal; otherwise returns the other parameters, and the reason of the last spec named "skip", none exactly without such a spec. |
| TestMatrix.SkipReasonIs | test-macro/src/lib.rs:179-198 | With legal skips, the reason is the literal of the last spec named "skip", and None exactly when there is none. |
| TestMatrix.ParametersKeepOrder | test-macro/src/lib.rs:193-195 | The parameters are the specs not named "skip", all of them, at increasing positions. |
| TestMatrix.SharedSkipIs | test-macro/src/lib.rs:70-86 | The shared reason is that of the last annotation with one, and None exactly when no annotation has one. |
| TestMatrix.ExpandTests | test-macro/src/lib.rs:66-175 | Fails exactly on an illegal skip; otherwise generates one numbered test per combination, all with the reason of the last annotation that has one. |
| TestMatrix.FunctionNameIs | test-macro/src/lib.rs:110-141 | A function keeps the name of the test exactly when the test is not parameterised at all; otherwise it ends in its number. |
| TestMatrix.FunctionNamesDiffer | test-macro/src/lib.rs:138-141 | No two generated functions of one test share a name. |
| TestLabel.BindingsSucceed | test-macro/src/lib.rs:249-283 | Every parameter is bound without a panic exactly when the combination names each parameter. |
| TestLabel.FindIsFirst | test-macro/src/lib.rs:265-270 | A parameter takes the first choice with its name. |
| TestLabel.BindingsAre | test-macro/src/lib.rs:249-283 | The bindings are one per parameter in order: a plain value, or for an optional parameter Some of its value or None. |
| TestLabel.BindingsAndPropertiesAgree | test-macro/src/lib.rs:285-309 | With distinct names equal to the parameters, the property function shows exactly the bound values without the Nones, in spec order. |
| TestLabel.VisibleOfConcat | test-macro/src/lib.rs:285-309 | The reported values of two lists of choices are those of the first and then those of the second. |
| TestLabel.CombinationAgrees | test-macro/src/lib.rs:138-168 | The same for every combination of every annotation that names the parameters. |
| TestLabel.ReadLabelOfLabel | src/main.rs:29-37 | A label gives back the test name and the properties when no value contains a comma. |
| TestLabel.LabelOfTwo | src/main.rs:29-37 | The label of two properties is the name and, in parentheses, both as `name=value` with a comma and a blank between. |
| TestLabel.EqualLabelsEqualProperties | src/main.rs:29-37 | Two labels of one test are equal exactly when the properties are, as long as these come in parameter order and no value contains ", name=" for a later parameter. |
| TestLabel.LabelsDiffer | src/main.rs:29-37 | Distinct combinations of one annotation have distinct labels when values render injectively and none contains ", name=" for a later parameter of the annotation. |
| TestLabel.ValueReadsAsTwo | src/main.rs:34-35 | A value can be read as two parameters in a label exactly when it contains ", name=" for the second one. |
| TestLabel.GluedValueCollides | src/main.rs:34-35 | For every `u`, `n` and `w`, an annotation with the values `u` and `u, n=w` and an optional `n` with the value `w` has two combinations with one label. |
| TestLabel.CommasCollide | src/main.rs:34-35 | A concrete such annotation. |
| Selection.Select | src/main.rs:114-151 | The chosen tests and the reported skips are, in order, those with that verdict; skips are collected only for a report. |
| Selection.Judge | src/main.rs:118-150 | Without a filter the closure keeps exactly the tests without annotation; with one, exactly those not excluded and either included by name or, without includes, not annotated. The skip result is pushed exactly when that is the verdict and a report is wanted. |
| Selection.RunsWithoutFilter | src/main.rs:120-134 | Without a filter a test runs exactly when it has no annotation, and is reported as skipped exactly when it has one. |
| Selection.RunsUnderFilter | src/util.rs:51-61 | Under a filter a test runs exactly when no exclude is mentioned and either an include is mentioned or there are no includes and no annotation. |
| Selection.ReportedReason | src/main.rs:121-147 | A reported reason is that of the annotation. |
| Selection.VerdictsPartition | src/main.rs:116-151 | Every registered test is exactly one of run, reported as skipped, or dropped. |
| Selection.ChosenKeepsOrder | src/main.rs:116-151 | The chosen tests are those at increasing positions of the registered ones, all of them. |
| Selection.SkippedKeepsOrder | src/main.rs:116-151 | The reported skips come from increasing positions of the registered tests, all of those with that verdict, each with the test's label, properties and annotated reason. |
| Selection.NoFilterIsEmptyFilter | src/main.rs:120-134 | No filter behaves as the filter with both lists empty. |
| Selection.ReportedSkips | src/main.rs:136-148 | A test is reported as skipped exactly when annotated, not excluded, and the include list is empty. |
| Selection.ComposedRuns | src/util.rs:31-61 | Whether a test runs under `a,b` follows from whether it runs under `a` and under `b` and from their excludes, in four cases of which side has includes. |
| Selection.ComposedSelection | src/util.rs:31-61 | Filters that only exclude compose to the intersection of their selections, filters that only include to the union. |
| Selection.Worker.RunTest | src/main.rs:58-96 | Sets the thread's label and invokes the test function exactly when no shutdown was requested; the result passes exactly when it was invoked and returned Ok, and otherwise carries the error or "interrupted". |
| Selection.ResultOfIs | src/main.rs:58-96 | A result is a pass exactly without a shutdown request and with an Ok, and otherwise a failure with its message; title, properties and time are those of the test. |
| Selection.RepeatCounts | src/main.rs:153 | Repeating schedules every chosen test exactly that many times. |
| Selection.FailureListIs | src/main.rs:172-178 | The list of failures names exactly the failed results, with their messages. |
| Selection.RunSuite | src/main.rs:109-205 | One result per scheduled test, in position; failure exit exactly when some result failed; reading the written report gives the skips and then the results, repeat times the run set plus the skips as total, and the failure count of the exit. |
| Selection.ReportAgreesWithExit | src/main.rs:172-198 | Reading the report back gives repeat times the run set plus the reported skips as total, and the failure count that decided the exit status. |
| Serial.SerialReader.ReadChunk | src/process.rs:506-530 | Each kind of read gives the chunk and the held bytes the assembler specifies. |
| Serial.ChunkKinds | src/process.rs:506-530 | A read completes a line exactly when its last byte is a newline; an empty or postponed read holds what was held; only a failed read is an error. |
| Serial.SerialReader.PollLineMatch | src/process.rs:536-569 | The polling loop ends as specified for every sequence of reads, clock values and shutdown flags; a match returns the decoded line, which contains the expected text or satisfies the pattern. |
| Serial.SubStringMatches | src/process.rs:33-40 | A text matches exactly the lines that contain it; a pattern decides by itself. |
| Serial.PollIsExplained | src/process.rs:544-568 | When a poll ends and why, for all reads, clock values and flags: every earlier look found no shutdown and time left, every earlier completed line did not match, and the ending is that of the last look or read. |
| Serial.ShutdownStopsPoll | src/process.rs:544-547 | A shutdown request seen at a look allows no further read, and a poll that reaches this look neither times out nor waits on; only such a request interrupts. |
| Serial.LinesAreUnique | src/process.rs:506-530 | Lines and tail are the only way to cut a byte stream at its newlines. |
| Serial.LinesRebuild | src/process.rs:506-530 | Lines and tail together are the stream, and the tail is newline-free. |
| Serial.ChunkingIsInvisible | src/process.rs:506-530 | However the bytes are split into reads, the lines are the newline-terminated segments and the held bytes are the unterminated tail. |
| Serial.SplitsAgree | src/process.rs:506-530 | Two splits of the same bytes give the same lines and the same tail. |
| Serial.PollReturnsFirstMatch | src/process.rs:536-569 | Without shutdown, timeout or error, a poll returns the first matching line and leaves exactly the later lines. |
| Serial.GreedyPollingIsComplete | src/process.rs:536-569 | Consecutive polls all succeed exactly when the stream has matching lines in increasing order, and return the leftmost choice. |
| Serial.RebootNeedsTwoPrompts | src/tests/full_os.rs:111-144 | Waiting twice for the same prompt succeeds exactly when two different lines match it. |
| Serial.GivenUpPollLosesLine | src/process.rs:528-552 | However a poll ends, read errors included, the next one sees other lines than with the held bytes exactly when bytes were held and later bytes complete a line. |
| Serial.SplitLineIsMissed | src/process.rs:541-550 | Every line that matches only as a whole is missed by two polls when the deadline of the first falls inside it, though one longer poll matches it. |
| Serial.BrokenLineIsMissed | src/process.rs:528 | A read error inside such a line has the same effect. |
| Serial.PollIsBounded | src/process.rs:544-566 | When every empty read is followed by a sleep of 100 ms, a poll makes at most one empty read per 100 ms of its timeout, plus one. |
| Serial.EmptyReadsAreCounted | src/process.rs:563-566 | The number of empty reads is that of the positions of empty reads in the input. |
| Teardown.QemuProcess.Drop | src/process.rs:622-667 | Polls until the first of exit, error or timeout, at most 102 times, leaves the child reaped unless `try_wait` fails, and signals it at once unless quit was answered, or at the end if it was found alive. |
| Teardown.QemuProcess.QuitAndWait | src/process.rs:573-598 | Succeeds exactly when quit is answered and the poll that ends the loop finds the child ended, and then without a signal; a late child is killed and reaped. |
| Teardown.QemuProcess.Quit | src/process.rs:571-598 | Succeeds under the same exact condition, and then the drop that follows signals no process. |
| Teardown.DropBoundIsTight | src/process.rs:26 | The bound of 102 polls is reached. |
| TapPool.PairIs | src/util.rs:109-120 | A pair keeps its index; its devices are `tap-qemu-` and twice the index or one more, its address ends in two plus the index. |
| Decimal.ShowIsCanonical | src/util.rs:109-120 | The numbers in device names and addresses have no leading zeros. |
| TapPool.PairsShareNothing | src/util.rs:109-120 | Pairs of different indices share no tap device and no guest address, and the two taps of a pair differ. |
| TapPool.ValidPairsAre | src/util.rs:83-97 | The pool starts with exactly the indices below the job count whose two taps exist. |
| TapPool.ValidPairsIncrease | src/util.rs:83-97 | The valid indices are in increasing order. |
| TapPool.Pool.Allocate | src/util.rs:153-158 | Initialises once, then pops the last index and returns its pair, whose two taps exist if the pool came from the valid pairs; fails exactly when none is free. |
| TapPool.Pool.Release | src/util.rs:143-150 | The drop of a pair appends the index stored in it. |
| TapPool.Pool.AllocateAndDrop | src/util.rs:143-158 | Dropping an allocated pair gives back the pool that the allocation started from. |
| SuiteSafety.ApplyKeepsInv | src/tests/migration.rs:132-224 | Every step of every participant keeps pool conservation, process ownership and one worker per test. |
| SuiteTaps.OwnedProcessesShareNoTap | src/tests/migration.rs:138-209 | In every interleaving, two live processes on one tap include a leaked one. |
| SuiteTaps.LeakFreeRunsShareNoTap | src/tests/migration.rs:138-209 | When no spawn fails late and no drop gives up, no two live processes ever use the same tap, early exits included. |
| SuiteTaps.SpawnSharesOnlyWithLeaked | src/process.rs:419-439 | Creating a child, whether its spawn then succeeds or not, puts a second process on a tap exactly when a leaked process is alive there. |
| SuiteTaps.SharingBeginsWithSpawn | src/process.rs:419-439 | Two processes begin to share a tap only in the step that creates one of them. |
| SuiteTaps.SharingHasACause | src/process.rs:419-439 | Every run that ends with two processes on one tap has created a child on the tap of a leaked process. |
| SuiteTaps.AbandonedSpawnCanShareTap | src/process.rs:419-439 | A run in which a spawn that fails late makes two live processes share a tap. |
| SuiteTaps.GivenUpDropCanShareTap | src/process.rs:660-663 | A run in which a drop that gives up makes two live processes share a tap. |
| SuiteTaps.LeaksHaveACause | src/process.rs:419-439 | A run that leads to a leaked process contains a late spawn failure or a drop that gives up. |
| SuiteTaps.HeldPairsShareNothing | src/util.rs:109-120 | Two workers never hold pairs with a common tap or guest address. |
| SuiteTaps.FreePairsAreUnused | src/util.rs:143-150 | While an index is in the pool, no live process is on its taps, other than leaked ones. |
| SuiteTaps.PoolConservation | src/util.rs:143-158 | Free and held indices are duplicate-free, disjoint, and together the initial valid set, in every reachable state. |
| SuiteTaps.AllocationSucceeds | src/util.rs:83-97 | With at least as many valid pairs as workers or as scheduled tap tests, an allocation never fails, whatever taps are missing. |
| SuiteTaps.AllocationCanFail | src/util.rs:153-158 | With fewer valid pairs than workers and than tap tests, some schedule makes an allocation fail. |
| SuiteTaps.AllocationNeverFails | src/main.rs:162-169 | Allocation never fails exactly when there is a valid pair for each worker or for each tap test. |
| SuiteTaps.ZeroJobsNeverAllocate | src/config.rs:45-52 | With `TEST_JOBS=0` every allocation fails. |
| SuiteResults.ResultsAreFinal | src/main.rs:168-169 | Once a scheduled test has its result, no later step changes it. |
| SuiteResults.SchedulesAreBounded | src/main.rs:162-169 | No schedule holds more than twelve worker steps per scheduled test, however many signals and exits lie between. |
| SuiteResults.FinishedSchedulesAreComplete | src/main.rs:168-169 | A schedule in which no worker can go on has one result for every scheduled test, in its position. |
| SuiteResults.InvokedAtMostOnce | src/main.rs:58-96 | No schedule invokes the function of one scheduled test twice. |
| SuiteResults.UninvokedAreInterrupted | src/main.rs:63-71 | A test that ends without having been invoked reports "interrupted", and only after a shutdown request. |
| SuiteResults.ShutdownIsMonotone | src/main.rs:51-56 | The shutdown flag stays set. |
| SuiteResults.ShutdownBoundsInvocations | src/main.rs:63-75 | After a shutdown request only tests already past the check are invoked, at most one per worker. |
| SuiteOutcomes.DecidedByEvents | src/main.rs:58-96 | One step decides the outcome of a test exactly when it is one of these, each with its outcome: the shutdown check, the return of the body, an error, an allocation without a pair, a failing spawn; a decided outcome is never changed. |
| SuiteOutcomes.ResultsHaveCauses | src/tests/migration.rs:138-209 | In every schedule, a test that has a result has this one exactly when the run passed through an event that causes it. |
| SuiteOutcomes.TestCanPass | src/tests/migration.rs:132-224 | From every state with an idle worker and without a shutdown request, a scheduled test can be taken to a pass, if a tap test finds a pair; it leaves no process and gives the pair back. |
| SuiteOutcomes.ShutdownIsRequested | src/main.rs:51-56 | The flag is set exactly when a signal came on the way. |
| SuiteOutcomes.SpawnedOnPair | src/tests/migration.rs:183-202 | The first child of a test is on the first tap of its pair, the second on the second. |
| SuiteOutcomes.AllocationTakesLast | src/util.rs:153-158 | In the interleaved run too, an allocation takes the last free index, or leaves an empty pool empty. |
| MmioOracle.PreservationDetects | src/asm/boot_mmio.asm:92-114 | With distinct values in six registers, all survive a read into EAX exactly when the load and store maps agree and fix EAX. |
| MmioOracle.MagicsDetect | src/asm/boot_mmio.asm:51-56 | The payload's constants are distinct enough for that, for every version value below 2^24. |
| MmioOracle.DestinationDetects | src/asm/boot_mmio.asm:134-147 | With agreeing maps, a read arrives in its destination exactly when the maps fix that register, and then changes nothing else. |
| MmioOracle.SymmetricSwapPassesPreservation | src/asm/boot_mmio.asm:17-21 | A symmetric swap of two data registers passes T2. |
| MmioOracle.SwapExchanges | src/asm/boot_mmio.asm:18-21 | A symmetric swap exchanges the two registers and leaves the others in place. |
| MmioOracle.BaseSwapDetects | src/asm/boot_mmio.asm:63-80 | A symmetric swap of EDI and EBP transfers the data registers; the first read then gives the version register exactly if EBP held the selector's address, and otherwise the register selected before. |
| MmioOracle.FirstReadDetects | src/asm/boot_mmio.asm:63-80 | From a state in which only the version register reads plausibly, the emulators that transfer the data registers pass T1 exactly when they fix every register. |
| MmioOracle.Machine.BasicAccess | src/asm/boot_mmio.asm:60-86 | With agreeing maps that fix EAX, T1 prints `A` exactly when bits 0-7 and 16-23 of what its read meets are not zero: the version register if EDI reached the selector, the register selected before if not, or whatever ESI was mapped to. |
| MmioOracle.Machine.Preservation | src/asm/boot_mmio.asm:88-120 | T2 prints `B` exactly when both maps agree and fix EAX. |
| MmioOracle.Machine.Destinations | src/asm/boot_mmio.asm:122-156 | After a passed T2, T3 prints `C` exactly when the four data registers are transferred faithfully; the stack pointer is restored on both branches. |
| MmioOracle.Machine.Sources | src/asm/boot_mmio.asm:158-180 | T4 always passes on a faithful transfer; with agreeing maps and unrelated register contents it prints `D` exactly when EBX and ECX are loaded from themselves. |
| MmioOracle.Machine.Flags | src/asm/boot_mmio.asm:182-207 | T5 prints `E` exactly when a set carry flag survives an access. |
| MmioOracle.Machine.Run | src/asm/boot_mmio.asm:58-216 | T2, T3 and T4 print upper case exactly when the maps agree and fix EAX, EBX, ECX and EDX; the expected line appears exactly when also the carry flag survives and T1's read is plausible. |
| PagingMemory.TranslateIs | src/asm/boot_pio_str.asm:53-72 | With the tables in place exactly the first 4 MB are mapped, each page to its frame. |
| PagingMemory.EntryChanges | src/asm/boot_pio_str.asm:81-88 | Rewriting one entry changes one frame and keeps the rest of the mapping. |
| PagingPayload.BufferIsSafe | src/asm/boot_pio_str.asm:32-44 | The 12 KB buffer is mapped injectively to memory disjoint from directory, table, code and stack. |
| PagingPayload.InsdDetects | src/asm/boot_pio_str.asm:103-112 | The first 33 bytes of the line are as expected exactly when the first word arrived, up to an exchange of equal bytes. |
| PagingPayload.ReadbackDetects | src/asm/boot_pio_str.asm:132-137 | The four readback bytes are as expected exactly when the port holds the second word. |
| PagingPayload.OutsdDetects | src/asm/boot_pio_str.asm:122-130 | The port holds the second word exactly when the four bytes read are "XXYY", up to the bits it clears. |
| PagingPayload.PatternDetects | src/tests/basic.rs:67-82 | The line matches the test's pattern exactly when both accesses touched the right bytes; a faithful emulator passes. |
| PagingPayload.LineEnds | src/asm/boot_pio_str.asm:169-170 | The line ends in a carriage return and a newline, and a matching line holds no other newline. |
| PagingPayload.MarkerSpells | src/asm/boot_pio_str.asm:169 | The marker is the text HELLO VIA OUTSB with a line end. |
| PagingPayload.MisplacedByteIsSeen | src/asm/boot_pio_str.asm:103-112 | The fourth byte of the first word at any other physical address spoils the line. |
| PagingPayload.MisreadBytesAreSeen | src/asm/boot_pio_str.asm:122-130 | Reading the last two bytes elsewhere spoils the line exactly when they are not already "YY". |
| PagingPayload.Machine.FillTable | src/asm/boot_pio_str.asm:60-69 | The loop writes entry p as page p, present and writable, for all 1024 pages, and touches nothing but the tables. |
| PagingPayload.Machine.BuildTables | src/asm/boot_pio_str.asm:53-79 | From any memory, the first 4 MB are mapped to themselves and nothing else is mapped. |
| PagingPayload.Machine.Remap | src/asm/boot_pio_str.asm:81-88 | Writing an entry through the live mapping moves exactly that page. |
| PagingPayload.Machine.FillBuffer | src/asm/boot_pio_str.asm:90-96 | All three frames behind the buffer are filled, and nothing else changes. |
| PagingPayload.Machine.Boot | src/asm/boot_pio_str.asm:53-96 | Afterwards the walk finds pages 0x11 and 0x12 at frames 0x31 and 0x30, every other page below 4 MB at itself, and nothing else. |
| PagingPayload.Machine.Exchange | src/asm/boot_pio_str.asm:98-145 | Both transfers, the readback and the marker leave memory as specified for every choice of emulator addresses outside tables and code. |
| PagingPayload.Machine.Pass | src/asm/boot_pio_str.asm:147-160 | One pass prints the bytes of the output region and the marker, in order. |
| PagingPayload.Machine.MainLoop | src/asm/boot_pio_str.asm:147-167 | The output grows by exactly one line per pass, and the bytes of each pass are the line held in memory. |
| PagingPayload.Machine.Run | src/asm/boot_pio_str.asm:46-167 | From any memory that holds the payload, every pass prints the same line and nothing else is printed; the line matches exactly when the emulator is one of the faithful ones. |

## Left out

- QMP transport, SSH, cloud-init disks, external commands, saving of serial logs and file copying.
- QEMU's migration engine and the ordering inside `do_migration`.
- The vmport payload and the inline-assembly register tests in `src/mmio_regs.c`.
- Parsing of macro tokens, rayon's scheduler and the regex engine beyond the filter-token pattern; matching of serial lines by a pattern is a parameter.
- Random MAC addresses, QEMU arguments and cloud-init templates.
- XML attribute-value normalisation (section 3.3.3 of XML 1.0) and characters outside section 2.2: the writer does not address them; decoding is at the level of entities.
- Rounding of durations: times in reports are opaque text. Only the digits and dots they are made of matter.
- Console lines, warnings and the log output of the runner and the pollers.
- The octet of the guest address is not bounded: with a pair index above 253 the address would not be valid.
- Selection.RunSuite: runs the scheduled tests one after the other; their interleaving is the subject of the `Suite` modules, where a result is only a verdict with its message.
- Suite: a worker's body is the script of the operating-system migration or a test without taps; what the script does between allocation, the two spawns and its return can fail anywhere but is not modelled further.
- Teardown.QemuProcess.Drop: the pause of 200 ms before the fallback kill lies before the measured time and is not modelled.
- Serial.PollOf: the environment may end before the poll does; such a poll is `Waiting`.
- MmioOracle.Machine: a write to the window or to an unmapped address is ignored, and a read elsewhere returns any word.
- MmioOracle.Machine.BasicAccess: what T1 prints under disagreeing maps is not stated; T2 then prints lower case.
- PagingPayload.Machine: translation is by the tables in memory at each access, so a stale translation cache is not modelled; `serial_out`'s use of the stack, the delay loop and the mode switch are not either. The output loop is run a given number of times instead of forever.
- PagingPayload.Matches: one pass is one line, as the pattern contains no line end.
