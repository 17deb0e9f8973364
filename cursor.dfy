/**
 * The execution cursor: how the index is normalised, when a step forward or backward is
 * possible, and which operations one step forward executes.
 */
module Cursor {

  import opened Operations
  import opened Replay

  /** The values the index keeps between calls: -1 on an empty list, otherwise 0..size. */
  predicate InRange(i: int, size: nat) {
    if size == 0 then i == -1 else 0 <= i <= size
  }

  /** `setIndex`: -1 on an empty list, otherwise the value clamped to 0..size. */
  function Normalize(i: int, size: nat): (r: int)
    ensures InRange(r, size)
    ensures InRange(i, size) ==> r == i
    ensures size > 0 && i > size ==> r == size
    ensures size > 0 && i < 0 ==> r == 0
  {
    if size == 0 then -1
    else if i > size then size
    else if i < 0 then 0
    else i
  }

  /** Normalising twice is normalising once. */
  lemma NormalizeIdempotent(i: int, size: nat)
    ensures Normalize(Normalize(i, size), size) == Normalize(i, size)
  {
  }

  /** `tryExecuteNext`. */
  predicate CanStepForward(i: int, size: nat) {
    i >= 0 && i + 1 < size
  }

  /** `tryExecutePrevious`. */
  predicate CanStepBack(i: int, size: nat) {
    i > 1 && i - 1 < size
  }

  /**
   * On a normalised index, stepping forward is disabled exactly when the list is empty or the
   * index is at its last position or one past it, and stepping backward is enabled exactly
   * when the index exceeds 1: the other conjunct of each test is implied.
   */
  lemma StepFlags(i: int, size: nat)
    requires InRange(i, size)
    ensures !CanStepForward(i, size) <==> size == 0 || i >= size - 1
    ensures CanStepForward(i, size) <==> i + 1 < size
    ensures CanStepBack(i, size) <==> i > 1
  {
  }

  /**
   * The end (exclusive) of the longest run of operations starting at `k` whose group is `g`.
   */
  function RunFrom(ops: seq<Operation>, k: nat, g: int): (e: nat)
    requires k <= |ops|
    ensures k <= e <= |ops|
    ensures forall j :: k <= j < e ==> ops[j].group == g
    ensures e == |ops| || ops[e].group != g
    decreases |ops| - k
  {
    if k < |ops| && ops[k].group == g then RunFrom(ops, k + 1, g) else k
  }

  /**
   * The operations one `executeNext` sets out to execute from index `i`: the next operation in
   * linear mode; in parallel mode the maximal run of operations sharing the next operation's
   * group, or nothing when that group is negative.
   */
  function Batch(ops: seq<Operation>, i: int, parallel: bool): (b: seq<Operation>)
    requires i >= -1
    ensures b == [] || (i + 1 + |b| <= |ops| && b == ops[i + 1 .. i + 1 + |b|])
    ensures !parallel ==> |b| == (if i + 1 < |ops| then 1 else 0)
    ensures parallel ==> (b != [] <==> i + 1 < |ops| && ops[i + 1].group >= 0)
    ensures parallel && b != [] ==>
      (forall j :: 0 <= j < |b| ==> b[j].group == b[0].group) &&
      (i + 1 + |b| == |ops| || ops[i + 1 + |b|].group != b[0].group)
  {
    if i + 1 >= |ops| then []
    else if !parallel then [ops[i + 1]]
    else if ops[i + 1].group < 0 then []
    else ops[i + 1 .. RunFrom(ops, i + 1, ops[i + 1].group)]
  }

  /**
   * A linear step executes the operation after the cursor when there is one, moving the
   * cursor by one, and does nothing otherwise.
   */
  lemma LinearStep(ops: seq<Operation>, i: int, p: Progress)
    requires i >= -1 && !p.faulted
    ensures Play(p, Batch(ops, i, false)) == if i + 1 < |ops| then PlayOne(p, ops[i + 1]) else p
  {
    if i + 1 < |ops| {
      PlaySnoc(p, [], ops[i + 1]);
      assert [] + [ops[i + 1]] == [ops[i + 1]];
    }
  }

  /** A parallel step whose next operation has a negative group executes nothing. */
  lemma NegativeGroupStep(ops: seq<Operation>, i: int, p: Progress)
    requires i >= -1 && i + 1 < |ops| && ops[i + 1].group < 0
    ensures Play(p, Batch(ops, i, true)) == p
  {
  }

  /**
   * After a parallel step in which no exception escaped, the cursor sits on the last operation
   * of the run, so the next pending operation, if any, belongs to another group.
   */
  lemma ParallelStepEndsRun(ops: seq<Operation>, i: int, reg: Registry)
    requires i >= -1
    requires Batch(ops, i, true) != []
    requires !Play(Progress(reg, [], 0, false), Batch(ops, i, true)).faulted
    ensures var b := Batch(ops, i, true);
      var j := i + Play(Progress(reg, [], 0, false), b).consumed;
      j < |ops| && ops[j].group == b[0].group &&
      (j + 1 == |ops| || ops[j + 1].group != b[0].group)
  {
    var b := Batch(ops, i, true);
    PlayCounts(Progress(reg, [], 0, false), b);
    assert ops[i + |b|] == b[|b| - 1];
  }
}
