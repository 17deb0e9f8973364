/**
 * Translation of the cursor when the model switches between the mixed and the atomic list.
 */
module Granularity {

  import opened Wrappers
  import opened Operations

  /**
   * The translation loop of `setAtomicExecution` from its `i`-th iteration on. The loop walks
   * the mixed list from 0 to a bound that starts at `index`; each composite operation adds its
   * extra slots to `offset` and, when entering atomic mode, to the bound as well. At the end the
   * offset is added (entering) or subtracted (leaving) once more. Reading past the end of the
   * mixed list throws, which is `None`.
   */
  function TranslateFrom(mixed: seq<Operation>, index: int, toAtomic: bool, i: nat): Option<int>
    requires i <= |mixed|
    decreases |mixed| - i
  {
    var offset := ExtraSteps(mixed[..i]);
    var bound := if toAtomic then index + offset else index;
    if i > bound then Some(if toAtomic then bound + offset else bound - offset)
    else if i == |mixed| then None
    else TranslateFrom(mixed, index, toAtomic, i + 1)
  }

  /** The translated index, or `None` when the translation throws. */
  function TranslateIndex(mixed: seq<Operation>, index: int, toAtomic: bool): Option<int> {
    TranslateFrom(mixed, index, toAtomic, 0)
  }

  lemma {:induction false} TranslateFromLeaving(mixed: seq<Operation>, index: int, i: nat)
    requires index >= -1 && i <= |mixed| && i <= index + 1
    ensures TranslateFrom(mixed, index, false, i) ==
      if index < |mixed| then Some(index - ExtraSteps(mixed[..index + 1])) else None
    decreases |mixed| - i
  {
    if i <= index && i < |mixed| {
      TranslateFromLeaving(mixed, index, i + 1);
    }
  }

  /**
   * Leaving atomic mode subtracts the extra slots of the composite operations among the first
   * `index + 1` entries of the MIXED list, although `index` is a position in the atomic list;
   * it throws exactly when the index is at or past the end of the mixed list. An index of -1
   * (an empty list) comes back unchanged.
   */
  lemma LeavingAtomicMode(mixed: seq<Operation>, index: int)
    requires index >= -1
    ensures TranslateIndex(mixed, index, false) ==
      if index < |mixed| then Some(index - ExtraSteps(mixed[..index + 1])) else None
  {
    TranslateFromLeaving(mixed, index, 0);
  }

  /**
   * Whether, when entering atomic mode, mixed position `j` is still within the loop bound
   * grown by the extra slots of the first `j` operations; the loop stops at the first `j`
   * that is not, and reads `mixed[j]` for every `j` that is.
   */
  predicate WithinBound(mixed: seq<Operation>, index: int, j: nat)
    requires j <= |mixed|
  {
    j <= index + ExtraSteps(mixed[..j])
  }

  lemma {:induction false} TranslateFromEntering(mixed: seq<Operation>, index: int, i: nat)
    requires i <= |mixed|
    ensures TranslateFrom(mixed, index, true, i).None? <==>
      forall k :: i <= k <= |mixed| ==> WithinBound(mixed, index, k)
    ensures TranslateFrom(mixed, index, true, i).Some? ==>
      exists k :: (i <= k <= |mixed| && !WithinBound(mixed, index, k) &&
                   (forall j :: i <= j < k ==> WithinBound(mixed, index, j)) &&
                   TranslateFrom(mixed, index, true, i).value == index + 2 * ExtraSteps(mixed[..k]))
    decreases |mixed| - i
  {
    if WithinBound(mixed, index, i) && i < |mixed| {
      TranslateFromEntering(mixed, index, i + 1);
      assert TranslateFrom(mixed, index, true, i) == TranslateFrom(mixed, index, true, i + 1);
      if TranslateFrom(mixed, index, true, i).Some? {
        var k :| i + 1 <= k <= |mixed| && !WithinBound(mixed, index, k) &&
          (forall j :: i + 1 <= j < k ==> WithinBound(mixed, index, j)) &&
          TranslateFrom(mixed, index, true, i + 1).value == index + 2 * ExtraSteps(mixed[..k]);
        assert forall j :: i <= j < k ==> WithinBound(mixed, index, j);
      }
    } else if !WithinBound(mixed, index, i) {
      assert TranslateFrom(mixed, index, true, i) == Some(index + 2 * ExtraSteps(mixed[..i]));
    }
  }

  /**
   * Entering atomic mode throws exactly when every mixed position up to the end of the list
   * stays within the grown bound. Otherwise it stops at the FIRST mixed position `k` beyond
   * the grown bound and yields `index` plus TWICE the extra slots of the first `k` mixed
   * operations. Since `k` exceeds `index`, the result is at least `index` plus twice the extra
   * slots of the first `index + 1` operations, while the position of the same point in the
   * atomic list is `index` plus those extra slots once.
   */
  lemma EnteringAtomicMode(mixed: seq<Operation>, index: int)
    requires index >= -1
    ensures TranslateIndex(mixed, index, true).None? <==>
      forall k :: 0 <= k <= |mixed| ==> WithinBound(mixed, index, k)
    ensures TranslateIndex(mixed, index, true).Some? ==>
      index < |mixed| &&
      (exists k :: (index < k <= |mixed| && !WithinBound(mixed, index, k) &&
                    (forall j :: 0 <= j < k ==> WithinBound(mixed, index, j)) &&
                    TranslateIndex(mixed, index, true).value == index + 2 * ExtraSteps(mixed[..k]))) &&
      TranslateIndex(mixed, index, true).value >= index + 2 * ExtraSteps(mixed[..index + 1])
  {
    TranslateFromEntering(mixed, index, 0);
    if TranslateIndex(mixed, index, true).Some? {
      var k :| 0 <= k <= |mixed| && !WithinBound(mixed, index, k) &&
        (forall j :: 0 <= j < k ==> WithinBound(mixed, index, j)) &&
        TranslateIndex(mixed, index, true).value == index + 2 * ExtraSteps(mixed[..k]);
      ExtraStepsMonotone(mixed, index + 1, k);
    }
  }

  /**
   * Entering atomic mode with the cursor on the last operation, right after a composite
   * operation of three atomic steps, throws: the grown bound runs past the mixed list.
   */
  lemma EnteringAtLastOperationThrows(c: Operation, a: Operation)
    requires c.numAtomicOperations == 3 && a.numAtomicOperations == 1
    ensures TranslateIndex([c, a], 1, true) == None
  {
    var m := [c, a];
    assert m[..0] == [] && m[..1] == [c] && m[..2] == m && m[..1][..0] == [];
    assert ExtraSteps(m[..1]) == 2;
    assert ExtraSteps(m[..2]) == 2;
    assert TranslateFrom(m, 1, true, 2) == None;
    assert TranslateFrom(m, 1, true, 1) == None;
  }

  /**
   * With the cursor on a composite operation of three atomic steps at mixed index 0, entering
   * atomic mode yields 4, while that operation's last atomic step sits at atomic index 2.
   */
  lemma EnteringCountsOffsetTwice(c: Operation, a: Operation)
    requires c.numAtomicOperations == 3 && a.numAtomicOperations == 1
    ensures TranslateIndex([c, a, a, a, a], 0, true) == Some(4)
  {
    var m := [c, a, a, a, a];
    assert m[..1] == [c] && m[..1][..0] == [];
    assert m[..2][..1] == m[..1] && m[..3][..2] == m[..2];
    assert ExtraSteps(m[..1]) == 2;
    assert ExtraSteps(m[..2]) == 2;
    assert ExtraSteps(m[..3]) == 2;
    assert TranslateFrom(m, 0, true, 3) == Some(4);
    assert TranslateFrom(m, 0, true, 2) == Some(4);
    assert TranslateFrom(m, 0, true, 1) == Some(4);
  }

  /**
   * A model created directly in atomic mode translates index 0 over an empty mixed list,
   * which throws.
   */
  lemma CreatingInAtomicModeThrows()
    ensures TranslateIndex([], 0, true) == None
  {
  }
}
