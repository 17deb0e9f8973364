/**
 * Operations as recorded by the visualised program, and the atomic view of a
 * recording, in which every composite operation is replaced by its expansion.
 */
module Operations {

  import opened Wrappers

  type Identifier = string

  /** The kind of an operation. `Other` stands for every kind that the replay engine does not dispatch on. */
  datatype Kind = Message | Read | Write | Swap | Remove | Other(name: string)

  /** A reference to a position inside one named data structure. */
  datatype Locator = Locator(identifier: Identifier, position: seq<int>)

  /**
   * One recorded operation. `group` ties operations that are applied in one parallel step;
   * `numAtomicOperations` is how many atomic operations the kind stands for, and
   * `expansion` holds them when the operation is composite.
   */
  datatype Operation = Operation(
    kind: Kind,
    group: int,
    source: Option<Locator>,
    target: Option<Locator>,
    var1: Option<Locator>,
    var2: Option<Locator>,
    numAtomicOperations: int,
    expansion: seq<Operation>)

  /** The kinds the replay engine knows how to execute. */
  predicate IsExecutableKind(k: Kind) {
    k.Message? || k.Read? || k.Write? || k.Swap? || k.Remove?
  }

  /** A composite operation whose expansion has the promised length. */
  predicate IsExpanded(op: Operation) {
    op.numAtomicOperations > 1 && |op.expansion| == op.numAtomicOperations
  }

  /** Every composite operation carries an expansion of the promised length. */
  predicate WellFormed(ops: seq<Operation>) {
    forall j :: 0 <= j < |ops| ==> (ops[j].numAtomicOperations > 1 ==> IsExpanded(ops[j]))
  }

  /** The atomic operations that stand for `op` (the operation itself when it is not expanded). */
  function Expand(op: Operation): (r: seq<Operation>)
    ensures 1 <= |r|
    ensures |r| == 1 <==> !IsExpanded(op)
  {
    if IsExpanded(op) then op.expansion else [op]
  }

  /** The number of extra slots a composite operation occupies in the atomic view. */
  function Extra(op: Operation): nat {
    if op.numAtomicOperations > 1 then op.numAtomicOperations - 1 else 0
  }

  /** Sum of `Extra` over a recording. */
  function ExtraSteps(ops: seq<Operation>): nat {
    if ops == [] then 0 else ExtraSteps(ops[..|ops| - 1]) + Extra(ops[|ops| - 1])
  }

  /** The atomic view of a recording: each operation replaced in place by its expansion. */
  function AsAtomicList(ops: seq<Operation>): seq<Operation> {
    if ops == [] then [] else AsAtomicList(ops[..|ops| - 1]) + Expand(ops[|ops| - 1])
  }

  /** `ExtraSteps` of a prefix grows with the prefix. */
  lemma {:induction false} ExtraStepsMonotone(ops: seq<Operation>, i: nat, j: nat)
    requires i <= j <= |ops|
    ensures ExtraSteps(ops[..i]) <= ExtraSteps(ops[..j])
    decreases j - i
  {
    if i < j {
      ExtraStepsMonotone(ops, i, j - 1);
      assert ops[..j][..j - 1] == ops[..j - 1];
    }
  }

  /**
   * The atomic view of a well-formed recording has one slot per atomic step:
   * one per operation plus the extra slots of its composite operations.
   */
  lemma {:induction false} AtomicListLength(ops: seq<Operation>)
    requires WellFormed(ops)
    ensures |AsAtomicList(ops)| == |ops| + ExtraSteps(ops)
  {
    if ops != [] {
      var init := ops[..|ops| - 1];
      assert WellFormed(init) by {
        forall j | 0 <= j < |init| ensures (init[j].numAtomicOperations > 1 ==> IsExpanded(init[j])) {
          assert init[j] == ops[j];
        }
      }
      AtomicListLength(init);
    }
  }

  /**
   * The atomic view is never shorter than the recording, and it has the same length exactly
   * when no operation is replaced by an expansion.
   */
  lemma {:induction false} AtomicListNotShorter(ops: seq<Operation>)
    ensures |AsAtomicList(ops)| >= |ops|
    ensures |AsAtomicList(ops)| == |ops| <==> forall j :: 0 <= j < |ops| ==> !IsExpanded(ops[j])
  {
    if ops != [] {
      var init := ops[..|ops| - 1];
      AtomicListNotShorter(init);
      assert (forall j :: 0 <= j < |ops| ==> !IsExpanded(ops[j])) <==>
             (forall j :: 0 <= j < |init| ==> !IsExpanded(init[j])) && !IsExpanded(ops[|ops| - 1]) by {
        assert forall j :: 0 <= j < |init| ==> init[j] == ops[j];
      }
    }
  }

  /**
   * In the atomic view of a well-formed recording, the last atomic step of mixed operation `k`
   * sits at `k + ExtraSteps(ops[..k+1])`: this is the index that stands for the same point of
   * the algorithm in both views.
   */
  lemma {:induction false} AtomicPositionOfMixed(ops: seq<Operation>, k: nat)
    requires WellFormed(ops) && k < |ops|
    ensures |AsAtomicList(ops[..k + 1])| - 1 == k + ExtraSteps(ops[..k + 1])
    ensures AsAtomicList(ops[..k + 1]) <= AsAtomicList(ops)
  {
    var pre := ops[..k + 1];
    assert WellFormed(pre) by {
      forall j | 0 <= j < |pre| ensures (pre[j].numAtomicOperations > 1 ==> IsExpanded(pre[j])) {
        assert pre[j] == ops[j];
      }
    }
    AtomicListLength(pre);
    AtomicListPrefix(ops, k + 1);
  }

  /** The atomic view of a prefix is a prefix of the atomic view. */
  lemma {:induction false} AtomicListPrefix(ops: seq<Operation>, i: nat)
    requires i <= |ops|
    ensures AsAtomicList(ops[..i]) <= AsAtomicList(ops)
    decreases |ops| - i
  {
    if i < |ops| {
      AtomicListPrefix(ops, i + 1);
      assert ops[..i + 1][..i] == ops[..i];
    } else {
      assert ops[..i] == ops;
    }
  }
}
