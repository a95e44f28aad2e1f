/**
 * The state-stack controller: the read-only queries over the stack and the three
 * operations that change it, each as a transition from the old stack to the new stack
 * and the lifecycle calls it makes. Index 0 is the bottom, the last index the top.
 */
module StateStack {
  import opened Wrappers
  import opened States
  import opened Calls

  /** The exceptions the .NET collection methods throw on an empty list. */
  datatype Exception = ArgumentOutOfRange | InvalidOperation

  /** List.IndexOf: the first index holding `s`, or -1. */
  function IndexOf(st: seq<State>, s: State): (r: int)
    ensures -1 <= r < |st|
    ensures r == -1 <==> s !in st
    ensures 0 <= r ==> st[r] == s && s !in st[..r]
  {
    if st == [] then -1
    else if st[0] == s then 0
    else
      var k := IndexOf(st[1..], s);
      if k == -1 then -1 else k + 1
  }

  /** PeekState: the top entry; Enumerable.Last throws on an empty stack. */
  function PeekState(st: seq<State>): (r: Result<State, Exception>)
    ensures r.Ok? <==> st != []
    ensures r.Ok? ==> r.value == st[|st| - 1]
    ensures r.Err? ==> r.error == InvalidOperation
  {
    if st == [] then Err(InvalidOperation) else Ok(st[|st| - 1])
  }

  /** PeekFirstState: the bottom entry; Enumerable.First throws on an empty stack. */
  function PeekFirstState(st: seq<State>): (r: Result<State, Exception>)
    ensures r.Ok? <==> st != []
    ensures r.Ok? ==> r.value == st[0]
    ensures r.Err? ==> r.error == InvalidOperation
  {
    if st == [] then Err(InvalidOperation) else Ok(st[0])
  }

  /**
   * IsActive: `states.IndexOf(state) == states.Count - 1`. It holds when `s` is the top
   * and occurs nowhere below it, and also, since -1 == 0 - 1, for every state on an
   * empty stack.
   */
  function IsActive(st: seq<State>, s: State): (r: bool)
    ensures r <==> st == [] || (st[|st| - 1] == s && s !in st[..|st| - 1])
  {
    var k := IndexOf(st, s);
    assert st != [] && k < |st| - 1 && k >= 0 ==> s in st[..|st| - 1] by {
      if st != [] && 0 <= k < |st| - 1 {
        assert st[..|st| - 1][k] == s;
      }
    }
    k == |st| - 1
  }

  /** A call of PushState, PopState or SetState. */
  datatype StackOp = Push(state: State) | Pop | Set(state: State)

  /** Whether an operation returned normally or threw (before changing anything). */
  datatype Outcome = Completed | Thrown(exception: Exception)

  /** The stack after an operation, the lifecycle calls it made, and how it ended. */
  datatype Transition = Transition(stack: seq<State>, calls: seq<Call>, outcome: Outcome)

  /**
   * One stack operation.
   * - Push(s) appends `s` as the new top, keeps every earlier entry in place and then
   *   calls s.Enter() once.
   * - Pop with one entry does nothing; with two or more it calls Leave on the top only
   *   and removes only the top; on an empty stack the indexer `states[-1]` throws.
   * - Set(s) calls Leave once on every held entry, bottom to top, then leaves exactly
   *   [s] and calls s.Enter() after all of those Leave calls.
   */
  function Perform(st: seq<State>, op: StackOp): (r: Transition)
    ensures op.Push? ==>
      && |r.stack| == |st| + 1 && r.stack[..|st|] == st && r.stack[|st|] == op.state
      && r.calls == [Enter(op.state)] && r.outcome == Completed
    ensures op.Pop? && |st| == 0 ==> r == Transition(st, [], Thrown(ArgumentOutOfRange))
    ensures op.Pop? && |st| == 1 ==> r == Transition(st, [], Completed)
    ensures op.Pop? && |st| >= 2 ==>
      && r.stack + [st[|st| - 1]] == st
      && r.calls == [Leave(st[|st| - 1])] && r.outcome == Completed
    ensures op.Set? ==>
      && r.stack == [op.state] && r.outcome == Completed
      && |r.calls| == |st| + 1
      && (forall i :: 0 <= i < |st| ==> r.calls[i] == Leave(st[i]))
      && r.calls[|st|] == Enter(op.state)
    decreases if op.Set? then 1 else 0
  {
    match op
    case Push(s) => Transition(st + [s], [Enter(s)], Completed)
    case Pop =>
      if |st| == 1 then Transition(st, [], Completed)
      else if |st| == 0 then Transition(st, [], Thrown(ArgumentOutOfRange))
      else
        var last := |st| - 1;
        assert st[..last] + [st[last]] == st;
        Transition(st[..last], [Leave(st[last])], Completed)
    case Set(s) =>
      // foreach Leave, states.Clear(), then PushState(s) on the emptied stack
      var pushed := Perform([], Push(s));
      Transition(pushed.stack, Leaves(st) + pushed.calls, pushed.outcome)
  }

  /**
   * A sequence of stack operations run one after another; an exception propagates out
   * of the caller, so the operations after it do not run.
   */
  function PerformAll(st: seq<State>, ops: seq<StackOp>): Transition
    decreases |ops|
  {
    if ops == [] then Transition(st, [], Completed)
    else
      var t := Perform(st, ops[0]);
      if t.outcome.Thrown? then t
      else
        var rest := PerformAll(t.stack, ops[1..]);
        Transition(rest.stack, t.calls + rest.calls, rest.outcome)
  }

  /** No sequence of Push, Pop and Set empties a non-empty stack, and none of them throws. */
  lemma {:induction false} StackNeverEmpties(st: seq<State>, ops: seq<StackOp>)
    requires st != []
    ensures PerformAll(st, ops).stack != []
    ensures PerformAll(st, ops).outcome == Completed
    decreases |ops|
  {
    if ops != [] {
      var t := Perform(st, ops[0]);
      assert t.stack != [] && t.outcome == Completed by {
        if ops[0].Pop? && |st| >= 2 {
          assert |t.stack| + 1 == |st|;
        }
      }
      StackNeverEmpties(t.stack, ops[1..]);
    }
  }

  /**
   * Lifecycle balance over any sequence of operations: the states held at the start
   * plus those entered equal those left plus those held at the end. From an empty
   * stack, then, every Leave is matched by an earlier Enter of the same state and
   * every held state has been entered once more than it has left.
   */
  lemma {:induction false} LifecycleBalance(st: seq<State>, ops: seq<StackOp>)
    ensures var r := PerformAll(st, ops);
      multiset(st) + Entered(r.calls) == multiset(r.stack) + Left(r.calls)
    decreases |ops|
  {
    if ops != [] {
      var t := Perform(st, ops[0]);
      StepBalance(st, ops[0]);
      if t.outcome.Completed? {
        var rest := PerformAll(t.stack, ops[1..]);
        LifecycleBalance(t.stack, ops[1..]);
        EnteredLeftAppend(t.calls, rest.calls);
        var r := PerformAll(st, ops);
        assert r.stack == rest.stack && r.calls == t.calls + rest.calls;
        BalanceCompose(multiset(st), multiset(t.stack), multiset(rest.stack),
          Entered(t.calls), Left(t.calls), Entered(rest.calls), Left(rest.calls));
      }
    }
  }

  /** Two balanced stretches compose: the middle stack cancels out. */
  lemma BalanceCompose(a: multiset<State>, b: multiset<State>, c: multiset<State>,
                       e1: multiset<State>, l1: multiset<State>, e2: multiset<State>, l2: multiset<State>)
    requires a + e1 == b + l1
    requires b + e2 == c + l2
    ensures a + (e1 + e2) == c + (l1 + l2)
  {
    forall x ensures (a + (e1 + e2))[x] == (c + (l1 + l2))[x] {
      assert (a + e1)[x] == (b + l1)[x];
      assert (b + e2)[x] == (c + l2)[x];
    }
  }

  /** One operation keeps the lifecycle balance. */
  lemma StepBalance(st: seq<State>, op: StackOp)
    ensures var r := Perform(st, op);
      multiset(st) + Entered(r.calls) == multiset(r.stack) + Left(r.calls)
  {
    match op
    case Push(s) => PushBalance(st, s);
    case Pop => PopBalance(st);
    case Set(s) => SetBalance(st, s);
  }

  lemma PushBalance(st: seq<State>, s: State)
    ensures var r := Perform(st, Push(s));
      multiset(st) + Entered(r.calls) == multiset(r.stack) + Left(r.calls)
  {
    var r := Perform(st, Push(s));
    assert r.calls[..0] == [];
    assert Entered(r.calls) == multiset{s} && Left(r.calls) == multiset{};
    assert r.stack == st + [s];
  }

  lemma PopBalance(st: seq<State>)
    ensures var r := Perform(st, Pop);
      multiset(st) + Entered(r.calls) == multiset(r.stack) + Left(r.calls)
  {
    var r := Perform(st, Pop);
    if |st| >= 2 {
      var top := st[|st| - 1];
      assert r.calls[..0] == [];
      assert Left(r.calls) == multiset{top} && Entered(r.calls) == multiset{};
      assert multiset(st) == multiset(r.stack) + multiset{top} by {
        assert st == r.stack + [top];
      }
    }
  }

  lemma SetBalance(st: seq<State>, s: State)
    ensures var r := Perform(st, Set(s));
      multiset(st) + Entered(r.calls) == multiset(r.stack) + Left(r.calls)
  {
    var r := Perform(st, Set(s));
    LeavesLeaveEachOnce(st);
    assert r.calls == Leaves(st) + [Enter(s)];
    EnteredLeftAppend(Leaves(st), [Enter(s)]);
    assert [Enter(s)][..0] == [];
    assert Entered([Enter(s)]) == multiset{s} && Left([Enter(s)]) == multiset{};
    assert Entered(r.calls) == multiset{s} && Left(r.calls) == multiset(st);
  }

  /** A pushed state is on top, and it is active exactly when it was not already held. */
  lemma PushedStateOnTop(st: seq<State>, s: State)
    ensures PeekState(Perform(st, Push(s)).stack) == Ok(s)
    ensures IsActive(Perform(st, Push(s)).stack, s) <==> s !in st
  {
  }

  /** After SetState(s), `s` is the top, the bottom and the active state. */
  lemma SetLeavesOnlyState(st: seq<State>, s: State)
    ensures var after := Perform(st, Set(s)).stack;
      PeekState(after) == Ok(s) && PeekFirstState(after) == Ok(s) && IsActive(after, s)
  {
  }

  /** An active state of a non-empty stack is the state PeekState returns. */
  lemma ActiveIsTop(st: seq<State>, s: State)
    requires st != [] && IsActive(st, s)
    ensures PeekState(st) == Ok(s)
  {
  }

  /**
   * The converse fails: with `a` pushed twice, `a` is the top but IsActive(a) is false,
   * because IndexOf finds the lower copy.
   */
  lemma TopNotActiveWhenHeldTwice(a: State, b: State)
    ensures PeekState([a, b, a]) == Ok(a)
    ensures !IsActive([a, b, a], a)
  {
  }
}
