/**
 * The data-structure registry and the execution of one operation against it.
 *
 * A data structure is observed here only through `applyOperation` and `clear`, whose
 * structure-specific code is not part of this model. Each structure is therefore represented
 * by the operations applied to it since it was last cleared: any concrete structure state is
 * a function of that history.
 */
module Replay {

  import opened Wrappers
  import opened Operations

  /** Identifier -> history of the operations applied to that structure since its last clear. */
  type Registry = map<Identifier, seq<Operation>>

  /** `applyOperation` on the structure registered under `id`. */
  function ApplyTo(reg: Registry, id: Identifier, op: Operation): (r: Registry)
    requires id in reg
    ensures r.Keys == reg.Keys
    ensures r[id] == reg[id] + [op]
    ensures forall other :: other in reg && other != id ==> r[other] == reg[other]
  {
    reg[id := reg[id] + [op]]
  }

  /** `clear` on every registered structure: identifiers stay, contents return to the initial state. */
  function ClearAll(reg: Registry): (r: Registry)
    ensures r.Keys == reg.Keys
    ensures forall id :: id in r ==> r[id] == []
  {
    map id | id in reg :: []
  }

  /** The locator is present and names a registered structure. */
  predicate Resolves(reg: Registry, loc: Option<Locator>) {
    loc.Some? && loc.value.identifier in reg
  }

  /** Apply to the structure behind an optional locator, skipping it when it does not resolve. */
  function ApplyIfResolved(reg: Registry, loc: Option<Locator>, op: Operation): Registry {
    if Resolves(reg, loc) then ApplyTo(reg, loc.value.identifier, op) else reg
  }

  /** What executing one operation does: the three ways the source's `execute(Operation)` ends. */
  datatype OpOutcome =
    | Applied(reg: Registry)            // the operation is returned and recorded as executed
    | BadType                           // an unknown kind: null is returned and nothing changes
    | NullPointerThrown(reg: Registry)  // a NullPointerException escapes, after the changes in reg

  /** The cases in which the source dereferences a missing locator or structure. */
  predicate ThrowsOn(reg: Registry, op: Operation) {
    (op.kind.Swap? && (!Resolves(reg, op.var1) || !Resolves(reg, op.var2)))
    || (op.kind.Remove? && op.target.None?)
  }

  /** Executes one operation against the registry. */
  function ApplyOp(reg: Registry, op: Operation): (r: OpOutcome)
    ensures r.BadType? <==> !IsExecutableKind(op.kind)
    ensures r.NullPointerThrown? <==> IsExecutableKind(op.kind) && ThrowsOn(reg, op)
    ensures r.Applied? <==> IsExecutableKind(op.kind) && !ThrowsOn(reg, op)
    ensures !r.BadType? ==> r.reg.Keys == reg.Keys
  {
    match op.kind
    case Message => Applied(reg)
    case Read => Applied(ApplyIfResolved(ApplyIfResolved(reg, op.source, op), op.target, op))
    case Write => Applied(ApplyIfResolved(ApplyIfResolved(reg, op.source, op), op.target, op))
    case Swap =>
      if !Resolves(reg, op.var1) then NullPointerThrown(reg)
      else
        var reg1 := ApplyTo(reg, op.var1.value.identifier, op);
        if !Resolves(reg1, op.var2) then NullPointerThrown(reg1)
        else Applied(ApplyTo(reg1, op.var2.value.identifier, op))
    case Remove =>
      if op.target.None? then NullPointerThrown(reg)
      else Applied(ApplyIfResolved(reg, op.target, op))
    case Other(_) => BadType
  }

  /** 1 when the locator names `id`, else 0. */
  function NamesCount(loc: Option<Locator>, id: Identifier): nat {
    if loc.Some? && loc.value.identifier == id then 1 else 0
  }

  /** How many times the locators that `op`'s kind acts on name `id`. */
  function Hits(op: Operation, id: Identifier): nat {
    match op.kind
    case Read => NamesCount(op.source, id) + NamesCount(op.target, id)
    case Write => NamesCount(op.source, id) + NamesCount(op.target, id)
    case Swap => NamesCount(op.var1, id) + NamesCount(op.var2, id)
    case Remove => NamesCount(op.target, id)
    case Message => 0
    case Other(_) => 0
  }

  /** `n` copies of `op`. */
  function Repeat(op: Operation, n: nat): (r: seq<Operation>)
    ensures |r| == n && forall j :: 0 <= j < n ==> r[j] == op
  {
    if n == 0 then [] else Repeat(op, n - 1) + [op]
  }

  /**
   * A successful execution applies the operation once to the structure behind every locator
   * its kind acts on and touches no other structure; locators of read, write and remove that
   * name no registered structure are skipped.
   */
  lemma ApplyOpEffect(reg: Registry, op: Operation, id: Identifier)
    requires ApplyOp(reg, op).Applied? && id in reg
    ensures ApplyOp(reg, op).reg[id] == reg[id] + Repeat(op, Hits(op, id))
  {
    assert Repeat(op, 1) == [op];
    assert Repeat(op, 2) == [op, op];
  }

  /**
   * A swap whose first operand resolves but whose second does not has already been applied
   * to the first structure when the exception escapes.
   */
  lemma SwapHalfApplied(reg: Registry, op: Operation)
    requires op.kind.Swap? && Resolves(reg, op.var1) && !Resolves(reg, op.var2)
    ensures ApplyOp(reg, op) == NullPointerThrown(ApplyTo(reg, op.var1.value.identifier, op))
  {
  }

  /**
   * When an exception escapes, the only change left behind is the first half of a swap whose
   * first operand resolved: a swap with an unresolved first operand and a remove without a
   * target throw before touching any structure.
   */
  lemma ApplyOpFault(reg: Registry, op: Operation)
    requires ApplyOp(reg, op).NullPointerThrown?
    ensures ApplyOp(reg, op).reg ==
      if op.kind.Swap? && Resolves(reg, op.var1) then ApplyTo(reg, op.var1.value.identifier, op) else reg
  {
  }

  /**
   * The state of a run of executions: the registry, the operations recorded as executed,
   * how many operations the cursor has moved over, and whether an exception escaped.
   */
  datatype Progress = Progress(reg: Registry, executed: seq<Operation>, consumed: nat, faulted: bool)

  /** One `execute()`: move over the next operation and execute it. */
  function PlayOne(p: Progress, op: Operation): (r: Progress)
    ensures r.consumed == p.consumed + 1 && r.reg.Keys == p.reg.Keys
    ensures r.faulted <==> IsExecutableKind(op.kind) && ThrowsOn(p.reg, op)
    ensures r.executed ==
      if IsExecutableKind(op.kind) && !ThrowsOn(p.reg, op) then p.executed + [op] else p.executed
  {
    match ApplyOp(p.reg, op)
    case Applied(reg) => Progress(reg, p.executed + [op], p.consumed + 1, false)
    case BadType => Progress(p.reg, p.executed, p.consumed + 1, false)
    case NullPointerThrown(reg) => Progress(reg, p.executed, p.consumed + 1, true)
  }

  /** Executes `ops` in order, stopping at the first exception. */
  function Play(p: Progress, ops: seq<Operation>): Progress {
    if ops == [] then p
    else
      var q := Play(p, ops[..|ops| - 1]);
      if q.faulted then q else PlayOne(q, ops[|ops| - 1])
  }

  /** The operations of a recording whose kind is executable, in order. */
  function ExecutableOps(ops: seq<Operation>): seq<Operation> {
    if ops == [] then []
    else ExecutableOps(ops[..|ops| - 1]) + (if IsExecutableKind(ops[|ops| - 1].kind) then [ops[|ops| - 1]] else [])
  }

  /** Playing one more operation. */
  lemma PlaySnoc(p: Progress, s: seq<Operation>, op: Operation)
    ensures Play(p, s + [op]) == if Play(p, s).faulted then Play(p, s) else PlayOne(Play(p, s), op)
  {
    assert (s + [op])[..|s|] == s;
  }

  /** Playing one more operation of a slice. */
  lemma PlaySliceSnoc(p: Progress, ops: seq<Operation>, start: nat, k: nat)
    requires start <= k < |ops|
    ensures Play(p, ops[start..k + 1]) ==
      if Play(p, ops[start..k]).faulted then Play(p, ops[start..k]) else PlayOne(Play(p, ops[start..k]), ops[k])
  {
    assert ops[start..k + 1] == ops[start..k] + [ops[k]];
    PlaySnoc(p, ops[start..k], ops[k]);
  }

  /** Once an exception has escaped, later operations are not executed. */
  lemma {:induction false} PlayStopsAtFault(p: Progress, s: seq<Operation>, t: seq<Operation>)
    requires Play(p, s).faulted
    ensures Play(p, s + t) == Play(p, s)
  {
    if t != [] {
      var t' := t[..|t| - 1];
      PlayStopsAtFault(p, s, t');
      assert s + t == (s + t') + [t[|t| - 1]];
      PlaySnoc(p, s + t', t[|t| - 1]);
    } else {
      assert s + t == s;
    }
  }

  /** A slice that extends a faulted slice plays to the same result. */
  lemma PlaySliceStops(p: Progress, ops: seq<Operation>, start: nat, k: nat, end: nat)
    requires start <= k <= end <= |ops| && Play(p, ops[start..k]).faulted
    ensures Play(p, ops[start..end]) == Play(p, ops[start..k])
  {
    assert ops[start..end] == ops[start..k] + ops[k..end];
    PlayStopsAtFault(p, ops[start..k], ops[k..end]);
  }

  /**
   * A run moves the cursor over every operation when no exception escapes, and over the
   * operations up to and including the one that threw otherwise; the set of registered
   * identifiers never changes.
   */
  lemma {:induction false} PlayCounts(p: Progress, ops: seq<Operation>)
    requires !p.faulted
    ensures var q := Play(p, ops);
      p.consumed <= q.consumed <= p.consumed + |ops| &&
      (!q.faulted ==> q.consumed == p.consumed + |ops|) &&
      (q.faulted ==> q.consumed > p.consumed) &&
      q.reg.Keys == p.reg.Keys
  {
    if ops != [] {
      PlayCounts(p, ops[..|ops| - 1]);
    }
  }

  /**
   * A run in which no exception escapes records exactly the operations of executable kind,
   * in order, after those recorded before it.
   */
  lemma {:induction false} PlayRecordsExecutable(p: Progress, ops: seq<Operation>)
    requires !p.faulted && !Play(p, ops).faulted
    ensures Play(p, ops).executed == p.executed + ExecutableOps(ops)
  {
    if ops != [] {
      var init := ops[..|ops| - 1];
      assert !Play(p, init).faulted;
      PlayRecordsExecutable(p, init);
    }
  }
}
