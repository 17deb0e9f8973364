# Replay engine of the algorithm visualiser, in Dafny

The visualiser replays a recorded sequence of operations (read, write, swap, remove, message)
against a registry of named data structures. `ExecutionModel` owns the replay state:
- a cursor `index`;
- the *mixed* list of operations as recorded;
- the *atomic* list, in which each composite operation is replaced by its expansion;
- the current list, which is one of the two;
- the operations executed by the latest step.

It steps forward one operation at a time (linear mode) or one run of operations sharing a
non-negative group at a time (parallel mode). It goes back and jumps by resetting the
registry. It re-derives the cursor when the granularity is switched. `Tools.stripQualifiers`
shortens a variable name for display.

The project consists of these modules:

- `Wrappers` (`wrappers.dfy`): `Option`, `Result` and the two Java exceptions the engine can
  raise, `NullPointer` and `IndexOutOfBounds`.
- `Operations` (`operations.dfy`): operations, locators, and the atomic view of a recording.
  A composite operation is one whose `numAtomicOperations` exceeds 1 and whose expansion has
  that length.
- `Replay` (`replay.dfy`): the registry and the execution of one operation.
  - A data structure is seen only through `applyOperation` and `clear`. It is therefore
    represented by the history of operations applied to it since its last clear.
  - `ApplyOp` is `execute(Operation)`. `Play` executes a list of operations in order and stops
    at the first exception. `Play` is the specification the stepping methods are proved
    against.
- `Cursor` (`cursor.dfy`): index normalisation, the can-step tests, and `Batch`, which gives
  the operations one `executeNext` executes.
- `Granularity` (`granularity.dfy`): the index translation loop of `setAtomicExecution`, as a
  function, with lemmas on what it computes.
- `Execution` (`execution_model.dfy`): the class `ExecutionModel`.
  - Its fields are updated in place by methods whose contracts tie the new state to the
    functions above.
  - The do-while loop of `executeParallel`, the loop of `execute(int)` and the translation
    loop of `setAtomicExecution` are `while`/`for` loops with invariants.
- `Tools` (`tools.dfy`): `stripQualifiers`, with Java's `split(" ")` written out. It is proved
  equal to an independent description: the last run of non-spaces after trailing spaces are
  removed.

The model follows the code as written. Several of its consequences are stated as lemmas or
postconditions.

- `setIndex` clamps a value above the list size to the size, not to the size minus 1.
  - On a non-empty list it raises -1 to 0. So after a recording is loaded into a new or
    cleared model the index is 0, not -1. Operation 0 is then never executed by a step,
    because a step executes the operation after the index.
  - Loading over a recording that is already there keeps the old index, capped at the new
    size (`SetOperations`).
- `tryExecuteNext` requires `index >= 0`. On a normalised index that test is implied by the
  size test (`Cursor.StepFlags`).
- A parallel step whose next operation has a negative group executes nothing.
- `execute(int)` clamps a negative target to 0. It returns at once when the index equals the
  target. It resets only when the target lies ahead.
  - Its loop only calls `tryExecuteNext` and `nextOperation`, which do not move the index. The
    jump therefore executes nothing.
  - As a result, `executePrevious` ends at index 0 with every structure cleared. A jump ahead
    does the same (or ends at -1 on an empty list). A jump back only clears the list of
    executed operations.
  - Every call clears the list of executed operations first, even when the index already
    equals the target.
- In `execute(Operation)`:
  - a swap whose first or second locator is absent, or names no registered structure, throws
    a `NullPointerException`, and so does a remove without a target locator;
  - the half-applied swap stays applied;
  - a kind the switch does not handle returns `null` and records nothing.
- `setAtomicExecution` translates the index over the mixed list in both directions.
  - When entering atomic mode, the loop grows its own bound, and the offset is added a second
    time after the loop.
  - The loop can read past the end of the mixed list and throw. When it does, the flag is
    already flipped and the current list is not switched.
  - Otherwise the translated index is passed to `execute(int)` after a reset. So the index
    ends at 0 (or -1 on an empty list) with every structure cleared.
- `stripQualifiers` computes a split on punctuation and overwrites it with a split on spaces.
  - The documented example `"package.subpackage.class:var"` is therefore returned whole.
  - A non-empty string of spaces only splits into an empty array, so indexing its last
    element throws.
  - With trailing spaces, the result is not a suffix of the input. It is a suffix of the input
    with its trailing spaces removed.

## Model

| member | source | states |
|---|---|---|
| Cursor.Normalize | src/main/java/model/ExecutionModel.java:594-605 | the index after `setIndex` is -1 on an empty list and in 0..size otherwise; values already there are kept; a value above size becomes size; a negative value becomes 0 |
| Cursor.NormalizeIdempotent | src/main/java/model/ExecutionModel.java:639-644 | normalising an already normalised index (as `updateProperties` does) changes nothing |
| Execution.ExecutionModel.SetIndex | src/main/java/model/ExecutionModel.java:594-605 | the new index is the normalised argument |
| Execution.ExecutionModel.UpdateProperties | src/main/java/model/ExecutionModel.java:639-644 | the index is renormalised and nothing else changes |
| Cursor.StepFlags | src/main/java/model/ExecutionModel.java:220-240 | on a normalised index, stepping forward is possible exactly when the index is before the last position, and stepping back exactly when the index exceeds 1 |
| Execution.ExecutionModel.NextOperation | src/main/java/model/ExecutionModel.java:346-354 | the operation at index+1 exactly when index+1 < size; present exactly when `tryExecuteNext` holds; reads state only |
| Cursor.RunFrom | src/main/java/model/ExecutionModel.java:316-319 | the end of the maximal run of operations with one group starting at a position |
| Cursor.Batch | src/main/java/model/ExecutionModel.java:305-330 | the operations one step sets out to execute form a slice starting right after the index; linear: one operation exactly when there is a next one; parallel: non-empty exactly when a next operation with non-negative group exists, all of one group, and the run is maximal |
| Cursor.LinearStep | src/main/java/model/ExecutionModel.java:325-339 | a linear step executes exactly the operation after the index when there is one, and nothing otherwise |
| Cursor.NegativeGroupStep | src/main/java/model/ExecutionModel.java:311-314 | a parallel step whose next operation has a negative group executes nothing |
| Cursor.ParallelStepEndsRun | src/main/java/model/ExecutionModel.java:316-319 | after a parallel step without exception the index is on the last operation of the run and the next pending operation has another group |
| Replay.ApplyTo | src/main/java/model/ExecutionModel.java:388-398 | `applyOperation` on one registered structure extends its history by the operation and leaves every other structure and the set of identifiers unchanged |
| Replay.ClearAll | src/main/java/model/ExecutionModel.java:277-279 | `clear` on every structure keeps the identifiers and empties every history |
| Replay.ApplyOp | src/main/java/model/ExecutionModel.java:362-432 | an unhandled kind is rejected; an executable kind throws exactly when a swap locator is absent or names no registered structure, or a remove has no target locator (a remove target that names no registered structure is skipped); otherwise it succeeds; the identifiers never change |
| Replay.ApplyOpEffect | src/main/java/model/ExecutionModel.java:379-425 | a successful execution applies the operation once per locator of its kind that names a structure, and nowhere else |
| Replay.SwapHalfApplied | src/main/java/model/ExecutionModel.java:408-412 | a swap whose second operand does not resolve throws after applying to the first structure |
| Replay.PlayStopsAtFault | src/main/java/model/ExecutionModel.java:316-319 | once an exception has escaped, no later operation of the step is executed |
| Replay.PlayCounts | src/main/java/model/ExecutionModel.java:316-339 | a run moves the index over every operation when nothing throws, and over at least one and at most all otherwise; the identifiers never change |
| Replay.PlayRecordsExecutable | src/main/java/model/ExecutionModel.java:426-431 | a run without exception records exactly the operations of executable kind, in order |
| Execution.ExecutionModel.ExecuteOperation | src/main/java/model/ExecutionModel.java:362-432 | the registry and the executed list after `execute(Operation)` are those of `PlayOne`; the result is the exception, the operation, or null for an unhandled kind |
| Execution.ExecutionModel.ExecuteReadWrite | src/main/java/model/ExecutionModel.java:379-401 | read and write apply to the source structure, then to the target structure, each skipped when its locator does not resolve |
| Execution.ExecutionModel.ExecuteCurrent | src/main/java/model/ExecutionModel.java:335-339 | `execute()` moves the index by one and extends the run by the operation at the new index |
| Execution.ExecutionModel.ExecuteLinear | src/main/java/model/ExecutionModel.java:325-330 | the new state is the old one played through the linear batch, and the index moves by the number of operations moved over |
| Execution.ExecutionModel.ExecuteParallel | src/main/java/model/ExecutionModel.java:305-320 | the new state is the old one played through the parallel batch, and the index moves by the number of operations moved over |
| Execution.ExecutionModel.ExecuteGroup | src/main/java/model/ExecutionModel.java:316-319 | the do-while loop plays the run of the group from the next operation to its end, stopping at an exception |
| Execution.ExecutionModel.ExecuteRestOfGroup | src/main/java/model/ExecutionModel.java:316-319 | the loop's later passes extend the run to the end of the group, keeping the run invariant |
| Execution.ExecutionModel.ExecuteNext | src/main/java/model/ExecutionModel.java:176-188 | the executed list is cleared and the step plays its batch; the result is that list, or the exception when one escaped |
| Execution.ExecutionModel.Reset | src/main/java/model/ExecutionModel.java:277-281 | every structure is cleared and the index is 0 normalised; the lists are untouched |
| Execution.ExecutionModel.ExecuteTo | src/main/java/model/ExecutionModel.java:251-272 | the executed list is cleared; a negative target counts as 0; the state is reset exactly when the target lies ahead and is otherwise unchanged; the loop never moves the index |
| Execution.ExecutionModel.ExecutePrevious | src/main/java/model/ExecutionModel.java:195-205 | when stepping back is possible the model ends at index 0 with every structure cleared and nothing executed; otherwise nothing changes |
| Execution.ExecutionModel.Clear | src/main/java/model/ExecutionModel.java:286-292 | the registry and the current list are empty, the index is -1 and the model is clear |
| Execution.ExecutionModel.SetDataStructures | src/main/java/model/ExecutionModel.java:464-470 | the registry becomes the given one; the index is unchanged |
| Execution.ExecutionModel.SetOperations | src/main/java/model/ExecutionModel.java:477-491 | the mixed list is the recording, the atomic list is its atomic view, the current list is the one of the current mode, and the index is the old one normalised |
| Execution.ExecutionModel.SetParallelExecution | src/main/java/model/ExecutionModel.java:516-522 | the flag takes the given value |
| Execution.ExecutionModel.constructor | src/main/java/model/ExecutionModel.java:115-132 | a model in mixed mode with nothing loaded, no structures and index -1 |
| Operations.Expand | src/main/java/model/ExecutionModel.java:480 | an operation stands for one atomic operation exactly when it is not a well-formed composite |
| Operations.ExtraStepsMonotone | src/main/java/model/ExecutionModel.java:550-555 | the offset summed over a prefix of the mixed list grows with the prefix |
| Operations.AtomicListLength | src/main/java/model/ExecutionModel.java:480 | the atomic view of a well-formed recording has one slot per operation plus the extra slots of its composites |
| Operations.AtomicListNotShorter | src/main/java/model/ExecutionModel.java:480-481 | the atomic view is never shorter than the mixed list, and it has the same length exactly when nothing is expanded |
| Operations.AtomicPositionOfMixed | src/main/java/model/ExecutionModel.java:549-564 | mixed position k and atomic position k plus the extra slots of the first k+1 operations denote the same point of the algorithm |
| Operations.AtomicListPrefix | src/main/java/model/ExecutionModel.java:480 | the atomic view of a prefix is a prefix of the atomic view |
| Granularity.TranslateFromLeaving | src/main/java/model/ExecutionModel.java:550-567 | from any iteration on, the loop in the leaving direction gives the index minus the extra slots of the first index+1 mixed operations, or throws |
| Granularity.LeavingAtomicMode | src/main/java/model/ExecutionModel.java:545-567 | leaving atomic mode subtracts the extra slots of the first index+1 mixed operations, and throws exactly when the index is at or past the end of the mixed list (an index of -1 comes back as -1) |
| Granularity.TranslateFromEntering | src/main/java/model/ExecutionModel.java:550-564 | from any iteration on, the loop in the entering direction throws exactly when every remaining mixed position stays within the grown bound; otherwise it stops at the first position k past the grown bound and gives the index plus twice the extra slots of the first k operations |
| Granularity.EnteringAtomicMode | src/main/java/model/ExecutionModel.java:545-564 | entering atomic mode throws exactly when every mixed position up to the end stays within the grown bound; otherwise the index is before the end of the mixed list, the loop stops at the first position k past the grown bound, the result is the index plus twice the extra slots of the first k operations, and it is at least the index plus twice the extra slots of the first index+1 operations |
| Granularity.EnteringAtLastOperationThrows | src/main/java/model/ExecutionModel.java:550-557 | a concrete recording on which entering atomic mode reads past the mixed list |
| Granularity.EnteringCountsOffsetTwice | src/main/java/model/ExecutionModel.java:557-564 | a concrete recording on which entering atomic mode gives 4 where the same point is at atomic position 2 |
| Granularity.CreatingInAtomicModeThrows | src/main/java/model/ExecutionModel.java:115-132 | the constructor asked for atomic mode translates index 0 over an empty mixed list, which throws |
| Execution.ExecutionModel.TranslatedIndex | src/main/java/model/ExecutionModel.java:545-568 | the translation loop computes the translated index, or the exception, of `TranslateIndex` |
| Execution.ExecutionModel.SetAtomicExecution | src/main/java/model/ExecutionModel.java:539-574 | an unchanged value changes nothing; otherwise the flag is set, and either the translation throws and nothing else changes, or the current list becomes the new mode's list, every structure is cleared, nothing is executed and the index is 0 normalised |
| Replay.ThrowsOn | src/main/java/model/ExecutionModel.java:402-424 | the cases of `execute(Operation)` that dereference a missing structure: a swap with a first or second locator that is absent or names no registered structure, a remove without a target locator; `ApplyOp` throws exactly in these cases |
| Replay.ApplyIfResolved | src/main/java/model/ExecutionModel.java:386-400 | the `if` around each read, write and remove operand: the operation is applied to the structure the locator names, and skipped when the locator is absent or names no registered structure; its effect is stated by `ApplyOpEffect` |
| Replay.ApplyOpFault | src/main/java/model/ExecutionModel.java:402-424 | when `execute(Operation)` throws, the registry holds exactly the first half of a swap whose first operand resolved, and is otherwise unchanged |
| Replay.Play | src/main/java/model/ExecutionModel.java:316-339 | a run of `execute()` calls over a slice, stopping at the first exception; `PlaySnoc`, `PlayStopsAtFault`, `PlayCounts` and `PlayRecordsExecutable` characterise it |
| Operations.ExtraSteps | src/main/java/model/ExecutionModel.java:546-555 | the offset the translation loop accumulates over a prefix of the mixed list; `ExtraStepsMonotone` and `AtomicListLength` characterise it |
| Granularity.TranslateFrom | src/main/java/model/ExecutionModel.java:550-564 | the translation loop from a given iteration on; `TranslateFromLeaving` and `TranslateFromEntering` characterise it |
| Granularity.TranslateIndex | src/main/java/model/ExecutionModel.java:545-568 | the whole translation of `setAtomicExecution`; `LeavingAtomicMode` and `EnteringAtomicMode` characterise it in the two directions |
| Cursor.CanStepForward | src/main/java/model/ExecutionModel.java:233-240 | the forward test of `tryExecuteNext`: the index is not negative and a later operation exists |
| Cursor.CanStepBack | src/main/java/model/ExecutionModel.java:220-226 | the backward test of `tryExecutePrevious`: the index exceeds 1 and index-1 is a position of the list |
| Execution.ExecutionModel.TryExecuteNext | src/main/java/model/ExecutionModel.java:233-240 | `tryExecuteNext` on the model's state; `NextOperation` is present exactly when it holds |
| Execution.ExecutionModel.TryExecutePrevious | src/main/java/model/ExecutionModel.java:220-226 | `tryExecutePrevious` on the model's state; `ExecutePrevious` resets exactly when it holds |
| Execution.ExecutionModel.IsClear | src/main/java/model/ExecutionModel.java:651-655 | the model is clear when it has no structures and no current operations; `Clear` establishes it |
| Replay.PlayOne | src/main/java/model/ExecutionModel.java:335-339 | one `execute()`: the index moves over one operation; it throws exactly when the operation is executable and a needed locator is missing; the operation is recorded exactly when it is executable and does not throw; the identifiers never change |
| Operations.AsAtomicList | src/main/java/model/ExecutionModel.java:480 | the atomic view, each operation replaced in place by `Expand`; its length and prefix properties are `AtomicListLength`, `AtomicListNotShorter` and `AtomicListPrefix` |
| Tools.SplitOnSpace | src/main/java/assets/Tools.java:53 | Java's `split(" ")`: a string without a space is its own only piece; no piece contains a space; with a space, the last piece kept is not empty |
| Tools.StripQualifiers | src/main/java/assets/Tools.java:51-55 | `stripQualifiers`: the last piece of the space split, or `IndexOutOfBounds` when the split is empty; `StripQualifiersResult` and `StripQualifiersShape` characterise it |
| Tools.FieldsLast | src/main/java/assets/Tools.java:53 | the last piece of the split on single spaces, before trailing empty pieces are dropped, is the last run of non-spaces |
| Tools.SplitFieldsEmpty | src/main/java/assets/Tools.java:53 | the split of a string that contains a space is empty exactly when the string is all spaces |
| Tools.SplitFieldsLast | src/main/java/assets/Tools.java:53 | otherwise its last piece is the last run of non-spaces after trailing spaces are removed |
| Tools.StripQualifiersResult | src/main/java/assets/Tools.java:51-55 | `stripQualifiers` throws exactly on a non-empty string of spaces only; otherwise it returns the last run of non-spaces after trailing spaces are removed |
| Tools.StripQualifiersShape | src/main/java/assets/Tools.java:53-54 | the result has no space, is a suffix of the input once trailing spaces are removed, is preceded by a space or the start, and is empty exactly when the input is all spaces |
| Tools.StripQualifiersNoSpace | src/main/java/assets/Tools.java:52-54 | a string without a space is returned unchanged, punctuation included |
| Tools.StripQualifiersKeepsPunctuation | src/main/java/assets/Tools.java:44-55 | the documented example is returned whole, not shortened to `var` |

## Left out

- Execution.ExecutionModel.SetDataStructures: when the given map is the model's own map (`setDataStructures(model.getDataStructures())`), the source clears it before copying from it and ends with no structures. The model's registry is a value, so it ends with the given structures; that self-aliasing is not captured.
- Listener notification (`notifyExecutedOperationsListeners`, `addOperationsExecutedListener`) and the JavaFX observable properties. The flags are plain functions of the state (`TryExecuteNext`, `TryExecutePrevious`, `IsClear`).
- The registry assumes that distinct identifiers name distinct `DataStructure` objects. The Java map may hold one object under two identifiers. The model does not capture that aliasing: applying an operation through one identifier would then also change what the other identifier sees, and `reset` would clear that object twice.
- The structure-specific effect of `DataStructure.applyOperation` and `clear`. A structure is its history of applied operations since its last clear, and every concrete state is a function of that history.
- `OpUtil.asAtomicList` and `OpUtil.getLocator` are not part of this model. The atomic view replaces each well-formed composite by its expansion. Locators are optional fields of the operation.
- `numAtomicOperations` is a field of the operation. The source reads it from the operation's kind.
- `set(dataStructures, operations)` is the composition of `SetDataStructures` and `SetOperations`. Its `null` arguments, and the `null` checks in those setters, are not modelled. Neither are `null` operations or a `null` argument to `stripQualifiers`.
- The constructor with `atomicExecution` true is not modelled as a method, because it throws. `Granularity.CreatingInAtomicModeThrows` states why.
- The convenience constructors without a name are not modelled, because they build the name from a random number. The constructor that takes only a name is the modelled constructor with `parallelExecution` true.
- The getters are not modelled.
- The debug printing, the console output of message operations and the error print of an unhandled kind are not modelled.
- Execution.ExecutionModel.ExecuteNext: an exception that escapes a step is returned as a `Failure` value rather than thrown. The state keeps the partial effects.
- Execution.ExecutionModel.SetAtomicExecution: the `IndexOutOfBoundsException` of the translation loop is returned as a value, with the flag already flipped.
- Tools.StripQualifiers: the split on punctuation is left out, because its result is overwritten before use.
- `ModelController`, the `render` and `gui` packages, and the remaining context classes are not modelled. They are timing, layout and user interface.
