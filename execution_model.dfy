/**
 * The replay engine: a cursor over the mixed or the atomic list of a recording, the steps
 * that execute operations against the registry, and the resets and jumps that go back.
 */
module Execution {

  import opened Wrappers
  import opened Operations
  import opened Replay
  import opened Cursor
  import opened Granularity

  class ExecutionModel {

    const name: string

    /** The registered data structures. */
    var dataStructures: Registry
    /** The list operations are currently executed from. */
    var currentExecutionList: seq<Operation>
    /** The current operation index. */
    var index: int
    /** The recording as given, composite operations included. */
    var mixedOperations: seq<Operation>
    /** The recording with composite operations expanded. */
    var atomicOperations: seq<Operation>
    var atomicExecution: bool
    /** When set, one step executes every consecutive operation of one non-negative group. */
    var parallelExecution: bool
    /** The operations executed by the latest step. */
    var executedOperations: seq<Operation>

    /** The index is normalised and the atomic list is derived from the mixed one. */
    ghost predicate Valid()
      reads this
    {
      InRange(index, |currentExecutionList|) && atomicOperations == AsAtomicList(mixedOperations)
    }

    /** A model in mixed (non-atomic) mode with nothing loaded. */
    constructor (name: string, parallelExecution: bool)
      ensures Valid()
      ensures this.name == name && this.parallelExecution == parallelExecution && !atomicExecution
      ensures index == -1 && currentExecutionList == [] && mixedOperations == [] && atomicOperations == []
      ensures dataStructures == map[] && executedOperations == []
    {
      this.name := name;
      dataStructures := map[];
      currentExecutionList := [];
      atomicOperations := [];
      mixedOperations := [];
      executedOperations := [];
      this.parallelExecution := parallelExecution;
      atomicExecution := false;
      index := -1;
    }

    /** `tryExecuteNext`. */
    function TryExecuteNext(): bool
      reads this
    {
      CanStepForward(index, |currentExecutionList|)
    }

    /** `tryExecutePrevious`. */
    function TryExecutePrevious(): bool
      reads this
    {
      CanStepBack(index, |currentExecutionList|)
    }

    /** `isClear`: no structures and no operations. */
    function IsClear(): bool
      reads this
    {
      |dataStructures| == 0 && |currentExecutionList| == 0
    }

    /** The operation after the current index, if there is one; nothing changes. */
    function NextOperation(): (r: Option<Operation>)
      requires Valid()
      reads this
      ensures r.Some? <==> index + 1 < |currentExecutionList|
      ensures r.Some? ==> r.value == currentExecutionList[index + 1]
      ensures r.Some? <==> TryExecuteNext()
    {
      if index + 1 < |currentExecutionList| then Some(currentExecutionList[index + 1]) else None
    }

    method SetIndex(i: int)
      modifies this`index
      ensures index == Normalize(i, |currentExecutionList|)
    {
      if |currentExecutionList| == 0 {
        index := -1;
      } else if i > |currentExecutionList| {
        index := |currentExecutionList|;
      } else if i < 0 {
        index := 0;
      } else {
        index := i;
      }
    }

    /** Recomputes the derived flags, which here only normalises the index. */
    method UpdateProperties()
      modifies this`index
      ensures index == Normalize(old(index), |currentExecutionList|)
    {
      SetIndex(index);
    }

    /** `execute(Operation)`: dispatch on the kind and apply to the structures it names. */
    method ExecuteOperation(op: Operation, ghost consumed: nat) returns (r: Result<Option<Operation>, Exception>)
      modifies this`dataStructures, this`executedOperations
      ensures var q := PlayOne(Progress(old(dataStructures), old(executedOperations), consumed, false), op);
        dataStructures == q.reg && executedOperations == q.executed && q.consumed == consumed + 1 &&
        r == (if q.faulted then Failure(NullPointer)
              else if IsExecutableKind(op.kind) then Success(Some(op)) else Success(None))
    {
      match op.kind {
        case Message =>
        case Read =>
          ExecuteReadWrite(op);
        case Write =>
          ExecuteReadWrite(op);
        case Swap =>
          if op.var1.None? || op.var1.value.identifier !in dataStructures {
            return Failure(NullPointer);
          }
          dataStructures := ApplyTo(dataStructures, op.var1.value.identifier, op);
          if op.var2.None? || op.var2.value.identifier !in dataStructures {
            return Failure(NullPointer);
          }
          dataStructures := ApplyTo(dataStructures, op.var2.value.identifier, op);
        case Remove =>
          if op.target.None? {
            return Failure(NullPointer);
          }
          if op.target.value.identifier in dataStructures {
            dataStructures := ApplyTo(dataStructures, op.target.value.identifier, op);
          }
        case Other(_) =>
          return Success(None);
      }
      executedOperations := executedOperations + [op];
      r := Success(Some(op));
    }

    /** The read and write branch: source, then target, each skipped when it does not resolve. */
    method ExecuteReadWrite(op: Operation)
      modifies this`dataStructures
      ensures dataStructures == ApplyIfResolved(ApplyIfResolved(old(dataStructures), op.source, op), op.target, op)
    {
      if op.source.Some? && op.source.value.identifier in dataStructures {
        dataStructures := ApplyTo(dataStructures, op.source.value.identifier, op);
      }
      if op.target.Some? && op.target.value.identifier in dataStructures {
        dataStructures := ApplyTo(dataStructures, op.target.value.identifier, op);
      }
    }

    /**
     * `execute()`: move the index forward by one and execute the operation found there. In
     * terms of a run of executions that started at position `start` from `p0`, the run grows
     * by the operation at the new index.
     */
    method ExecuteCurrent(ghost p0: Progress, ghost start: nat) returns (thrown: bool)
      requires Valid() && start <= index + 1 < |currentExecutionList|
      requires Play(p0, currentExecutionList[start..index + 1]) ==
        Progress(dataStructures, executedOperations, index + 1 - start, false)
      modifies this`index, this`dataStructures, this`executedOperations
      ensures Valid() && index == old(index) + 1
      ensures Play(p0, currentExecutionList[start..index + 1]) ==
        Progress(dataStructures, executedOperations, index + 1 - start, thrown)
    {
      var k := index + 1;
      ghost var before := Progress(dataStructures, executedOperations, k - start, false);
      PlaySliceSnoc(p0, currentExecutionList, start, k);
      assert Play(p0, currentExecutionList[start..k + 1]) == PlayOne(before, currentExecutionList[k]);
      SetIndex(k);
      assert index == k;
      var op := currentExecutionList[index];
      var r := ExecuteOperation(op, index - start);
      thrown := r.Failure?;
      assert Progress(dataStructures, executedOperations, index + 1 - start, thrown) == PlayOne(before, op);
      assert currentExecutionList[start..index + 1] == currentExecutionList[start..k + 1];
    }

    /** `executeLinear`: execute the next operation, if there is one. */
    method ExecuteLinear() returns (thrown: bool)
      requires Valid()
      modifies this`index, this`dataStructures, this`executedOperations
      ensures Valid()
      ensures var q := Play(Progress(old(dataStructures), old(executedOperations), 0, false),
                            Batch(currentExecutionList, old(index), false));
        index == old(index) + q.consumed && dataStructures == q.reg &&
        executedOperations == q.executed && thrown == q.faulted
    {
      thrown := false;
      var op := NextOperation();
      ghost var p0 := Progress(dataStructures, executedOperations, 0, false);
      LinearStep(currentExecutionList, index, p0);
      if op.Some? {
        assert currentExecutionList[index + 1..index + 1] == [];
        thrown := ExecuteCurrent(p0, index + 1);
        assert currentExecutionList[index..index + 1] == [currentExecutionList[index]];
        PlaySnoc(p0, [], currentExecutionList[index]);
        assert [] + [currentExecutionList[index]] == [currentExecutionList[index]];
      }
    }

    /**
     * `executeParallel`: when the next operation has a non-negative group, execute it and every
     * following operation of the same group; a negative group executes nothing.
     */
    method ExecuteParallel() returns (thrown: bool)
      requires Valid()
      modifies this`index, this`dataStructures, this`executedOperations
      ensures Valid()
      ensures var q := Play(Progress(old(dataStructures), old(executedOperations), 0, false),
                            Batch(currentExecutionList, old(index), true));
        index == old(index) + q.consumed && dataStructures == q.reg &&
        executedOperations == q.executed && thrown == q.faulted
    {
      thrown := false;
      var operation := NextOperation();
      if operation.None? {
        return;
      }
      var group := operation.value.group;
      if group < 0 {
        return;
      }
      ghost var end := RunFrom(currentExecutionList, index + 1, group);
      assert Batch(currentExecutionList, index, true) == currentExecutionList[index + 1..end];
      thrown := ExecuteGroup(group, end);
    }

    /**
     * The do-while loop of `executeParallel`: execute operations while the next one belongs to
     * `group`, that is, up to the end of the run of that group.
     */
    method ExecuteGroup(group: int, ghost end: nat) returns (thrown: bool)
      requires Valid() && index + 1 < |currentExecutionList|
      requires currentExecutionList[index + 1].group == group
      requires end == RunFrom(currentExecutionList, index + 1, group)
      modifies this`index, this`dataStructures, this`executedOperations
      ensures Valid() && old(index) < index
      ensures Play(Progress(old(dataStructures), old(executedOperations), 0, false),
                   currentExecutionList[old(index) + 1..end]) ==
        Progress(dataStructures, executedOperations, index - old(index), thrown)
    {
      ghost var ops := currentExecutionList;
      ghost var start := index + 1;
      ghost var p0 := Progress(dataStructures, executedOperations, 0, false);
      assert ops[start..start] == [];
      // the first pass of the do-while loop runs unconditionally
      thrown := ExecuteCurrent(p0, start);
      if thrown {
        PlaySliceStops(p0, ops, start, index + 1, end);
      } else {
        thrown := ExecuteRestOfGroup(group, p0, start, end);
      }
      assert currentExecutionList[old(index) + 1..end] == ops[start..end];
    }

    /**
     * The remaining passes of the do-while loop of `executeParallel`, once the operations
     * `start..index` of the run have been executed without an exception.
     */
    method ExecuteRestOfGroup(group: int, ghost p0: Progress, ghost start: nat, ghost end: nat) returns (thrown: bool)
      requires Valid() && start <= index < end
      requires start < |currentExecutionList| && end == RunFrom(currentExecutionList, start, group)
      requires Play(p0, currentExecutionList[start..index + 1]) ==
        Progress(dataStructures, executedOperations, index + 1 - start, false)
      modifies this`index, this`dataStructures, this`executedOperations
      ensures Valid() && start <= index
      ensures Play(p0, currentExecutionList[start..end]) ==
        Progress(dataStructures, executedOperations, index + 1 - start, thrown)
    {
      assert end == |currentExecutionList| || currentExecutionList[end].group != group;
      thrown := false;
      var operation := NextOperation();
      while !thrown && operation.Some? && operation.value.group == group
        invariant Valid() && start <= index < end
        invariant operation == NextOperation()
        invariant Play(p0, currentExecutionList[start..index + 1]) ==
          Progress(dataStructures, executedOperations, index + 1 - start, thrown)
        decreases |currentExecutionList| - index
      {
        assert index + 1 < end;
        thrown := ExecuteCurrent(p0, start);
        operation := NextOperation();
      }
      if thrown {
        PlaySliceStops(p0, currentExecutionList, start, index + 1, end);
      } else {
        assert index + 1 == end;
      }
    }

    /**
     * `executeNext`: clear the list of executed operations and take one linear or parallel
     * step. Returns the executed operations, or the exception that escaped.
     */
    method ExecuteNext() returns (r: Result<seq<Operation>, Exception>)
      requires Valid()
      modifies this`index, this`dataStructures, this`executedOperations
      ensures Valid()
      ensures var q := Play(Progress(old(dataStructures), [], 0, false),
                            Batch(currentExecutionList, old(index), parallelExecution));
        index == old(index) + q.consumed && dataStructures == q.reg &&
        executedOperations == q.executed &&
        r == (if q.faulted then Failure(NullPointer) else Success(q.executed))
    {
      executedOperations := [];
      var thrown;
      if parallelExecution {
        thrown := ExecuteParallel();
      } else {
        thrown := ExecuteLinear();
      }
      r := if thrown then Failure(NullPointer) else Success(executedOperations);
    }

    /** `reset`: clear every structure and move the index to 0 (normalised). */
    method Reset()
      modifies this`dataStructures, this`index
      ensures dataStructures == ClearAll(old(dataStructures))
      ensures index == Normalize(0, |currentExecutionList|)
    {
      dataStructures := ClearAll(dataStructures);
      index := 0;
      UpdateProperties();
    }

    /**
     * `execute(int)`: clamps a negative target to 0, does nothing when the index is already
     * there, and resets only when the target lies ahead. Its loop then only tests and peeks,
     * so the index is never moved forward and no operation is executed.
     */
    method ExecuteTo(toIndex: int) returns (batch: seq<Operation>)
      requires Valid()
      modifies this`index, this`dataStructures, this`executedOperations
      ensures Valid() && batch == [] && executedOperations == []
      ensures var target := if toIndex < 0 then 0 else toIndex;
        if old(index) < target
        then dataStructures == ClearAll(old(dataStructures)) && index == Normalize(0, |currentExecutionList|)
        else dataStructures == old(dataStructures) && index == old(index)
    {
      executedOperations := [];
      var target := if toIndex < 0 then 0 else toIndex;
      if index == target {
        return executedOperations;
      }
      if index < target {
        Reset();
      }
      var targetIndex := if target < |currentExecutionList| then target else |currentExecutionList| - 1;
      ghost var indexBefore := index;
      // the loop only tests and peeks, so it never moves the index past the last operation
      for i := 0 to targetIndex + 1
        invariant index == indexBefore
      {
        if TryExecuteNext() {
          var upcoming := NextOperation();
        }
      }
      batch := executedOperations;
    }

    /**
     * `executePrevious`: when stepping back is possible, reset and jump to two before the
     * current index; the jump executes nothing, so the model ends at index 0 with every
     * structure cleared. Otherwise nothing changes.
     */
    method ExecutePrevious() returns (batch: seq<Operation>)
      requires Valid()
      modifies this`index, this`dataStructures, this`executedOperations
      ensures Valid() && batch == executedOperations
      ensures if old(TryExecutePrevious())
        then index == 0 && dataStructures == ClearAll(old(dataStructures)) && executedOperations == []
        else index == old(index) && dataStructures == old(dataStructures) &&
             executedOperations == old(executedOperations)
    {
      if TryExecutePrevious() {
        var previousIndex := index - 2;
        Reset();
        ghost var cleared := dataStructures;
        var ignored := ExecuteTo(previousIndex);
        assert ClearAll(cleared) == cleared;
      }
      batch := executedOperations;
    }

    /** `clear`: drop every structure and the current list; the stored recording stays. */
    method Clear()
      requires Valid()
      modifies this`dataStructures, this`currentExecutionList, this`index
      ensures Valid()
      ensures dataStructures == map[] && currentExecutionList == [] && index == -1 && IsClear()
    {
      dataStructures := map[];
      currentExecutionList := [];
      index := -1;
      UpdateProperties();
    }

    /** `setDataStructures`: replace the registered structures. */
    method SetDataStructures(structures: Registry)
      requires Valid()
      modifies this`dataStructures, this`index
      ensures Valid() && dataStructures == structures && index == old(index)
    {
      dataStructures := structures;
      UpdateProperties();
    }

    /**
     * `setOperations`: store the recording and its atomic view and make the one of the current
     * mode the current list. The index is kept, only normalised to the new list.
     */
    method SetOperations(operations: seq<Operation>)
      requires Valid()
      modifies this`atomicOperations, this`mixedOperations, this`currentExecutionList, this`index
      ensures Valid()
      ensures mixedOperations == operations && atomicOperations == AsAtomicList(operations)
      ensures currentExecutionList == if atomicExecution then atomicOperations else mixedOperations
      ensures index == Normalize(old(index), |currentExecutionList|)
    {
      atomicOperations := AsAtomicList(operations);
      mixedOperations := operations;
      if atomicExecution {
        currentExecutionList := atomicOperations;
      } else {
        currentExecutionList := mixedOperations;
      }
      UpdateProperties();
    }

    /** `setParallelExecution`. */
    method SetParallelExecution(parallelExecution: bool)
      modifies this`parallelExecution
      ensures this.parallelExecution == parallelExecution
    {
      if this.parallelExecution != parallelExecution {
        this.parallelExecution := parallelExecution;
      }
    }

    /**
     * The translation loop of `setAtomicExecution`: walks the mixed operations up to the
     * (growing) bound, summing the extra steps of the expanded ones, and produces the index in
     * the list being switched to; running off the end of the mixed list is the exception.
     */
    method TranslatedIndex(atomicExecution: bool) returns (r: Option<int>)
      requires Valid()
      ensures r == TranslateIndex(mixedOperations, index, atomicExecution)
    {
      var numAtomic: int;
      var offset := 0;
      var index := this.index;
      var i := 0;
      while i <= index
        invariant 0 <= i <= |mixedOperations|
        invariant offset == ExtraSteps(mixedOperations[..i])
        invariant index == if atomicExecution then this.index + offset else this.index
        invariant TranslateFrom(mixedOperations, this.index, atomicExecution, i) ==
                  TranslateIndex(mixedOperations, this.index, atomicExecution)
        decreases |mixedOperations| - i
      {
        if i >= |mixedOperations| {
          return None;
        }
        numAtomic := mixedOperations[i].numAtomicOperations;
        assert mixedOperations[..i + 1][..i] == mixedOperations[..i];
        if numAtomic > 1 {
          offset := offset + numAtomic - 1;
          if atomicExecution {
            index := index + numAtomic - 1;
          }
        }
        i := i + 1;
      }
      r := Some(if atomicExecution then index + offset else index - offset);
    }

    /**
     * `setAtomicExecution`: with an unchanged value nothing happens. Otherwise the flag is set,
     * the index is translated over the mixed list (which may throw, leaving the list as it
     * was), the list of the new mode becomes current, and the model is reset and jumped to the
     * translated index; since the jump executes nothing, the index ends at 0 (or -1 when the
     * list is empty) with every structure cleared.
     */
    method SetAtomicExecution(atomicExecution: bool) returns (thrown: Option<Exception>)
      requires Valid()
      modifies this`atomicExecution, this`currentExecutionList, this`index, this`dataStructures,
        this`executedOperations
      ensures Valid()
      ensures this.atomicExecution == atomicExecution
      ensures old(this.atomicExecution) == atomicExecution ==>
        thrown == None && currentExecutionList == old(currentExecutionList) && index == old(index) &&
        dataStructures == old(dataStructures) && executedOperations == old(executedOperations)
      ensures old(this.atomicExecution) != atomicExecution ==>
        match TranslateIndex(mixedOperations, old(index), atomicExecution)
        case None =>
          thrown == Some(IndexOutOfBounds) && currentExecutionList == old(currentExecutionList) &&
          index == old(index) && dataStructures == old(dataStructures) &&
          executedOperations == old(executedOperations)
        case Some(_) =>
          thrown == None &&
          currentExecutionList == (if atomicExecution then atomicOperations else mixedOperations) &&
          index == Normalize(0, |currentExecutionList|) &&
          dataStructures == ClearAll(old(dataStructures)) && executedOperations == []
    {
      thrown := None;
      if this.atomicExecution != atomicExecution {
        this.atomicExecution := atomicExecution;

        var translated := TranslatedIndex(atomicExecution);
        if translated.None? {
          return Some(IndexOutOfBounds);
        }
        currentExecutionList := if atomicExecution then atomicOperations else mixedOperations;
        var index := translated.value;

        Reset();
        ghost var cleared := dataStructures;
        var ignored := ExecuteTo(index);
        assert ClearAll(cleared) == cleared;
        UpdateProperties();
      }
    }
  }
}
