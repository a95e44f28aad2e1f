/**
 * The calls the game loop makes into the states and the window, recorded as a trace.
 * Each constructor stands for one callback: State.Enter, State.Leave,
 * State.UpdateInternal, State.Draw, Window.Clear, State.ProcessEvent and
 * State.InitializeCamera.
 */
module Calls {
  import opened States
  import opened Events

  datatype Call =
    | Enter(state: State)
    | Leave(state: State)
    | UpdateInternal(state: State)
    | Draw(state: State)
    | Clear(color: Color)
    | ProcessEvent(state: State, args: InputArgs)
    | InitializeCamera(state: State)

  /** One Leave per entry, bottom to top: the calls of `foreach (var s in states) s.Leave()`. */
  function Leaves(xs: seq<State>): (r: seq<Call>)
    ensures |r| == |xs|
    ensures forall i :: 0 <= i < |xs| ==> r[i] == Leave(xs[i])
  {
    if xs == [] then [] else Leaves(xs[..|xs| - 1]) + [Leave(xs[|xs| - 1])]
  }

  /** One InitializeCamera per entry, bottom to top, whatever the entry's flags. */
  function InitializeCameras(xs: seq<State>): (r: seq<Call>)
    ensures |r| == |xs|
    ensures forall i :: 0 <= i < |xs| ==> r[i] == InitializeCamera(xs[i])
  {
    if xs == [] then [] else InitializeCameras(xs[..|xs| - 1]) + [InitializeCamera(xs[|xs| - 1])]
  }

  /** The states a trace enters, with multiplicity. */
  function Entered(t: seq<Call>): multiset<State>
  {
    if t == [] then multiset{}
    else Entered(t[..|t| - 1]) + (if t[|t| - 1].Enter? then multiset{t[|t| - 1].state} else multiset{})
  }

  /** The states a trace leaves, with multiplicity. */
  function Left(t: seq<Call>): multiset<State>
  {
    if t == [] then multiset{}
    else Left(t[..|t| - 1]) + (if t[|t| - 1].Leave? then multiset{t[|t| - 1].state} else multiset{})
  }

  lemma {:induction false} EnteredLeftAppend(a: seq<Call>, b: seq<Call>)
    ensures Entered(a + b) == Entered(a) + Entered(b)
    ensures Left(a + b) == Left(a) + Left(b)
    decreases |b|
  {
    if b != [] {
      var b' := b[..|b| - 1];
      assert (a + b)[..|a + b| - 1] == a + b';
      EnteredLeftAppend(a, b');
    } else {
      assert a + b == a;
    }
  }

  /** The calls of a SetState loop leave every held state once and enter none. */
  lemma {:induction false} LeavesLeaveEachOnce(xs: seq<State>)
    ensures Left(Leaves(xs)) == multiset(xs)
    ensures Entered(Leaves(xs)) == multiset{}
  {
    if xs != [] {
      var xs', last := xs[..|xs| - 1], xs[|xs| - 1];
      assert xs == xs' + [last];
      assert Leaves(xs) == Leaves(xs') + [Leave(last)];
      LeavesLeaveEachOnce(xs');
      EnteredLeftAppend(Leaves(xs'), [Leave(last)]);
      SingleLeave(last);
      assert multiset(xs) == multiset(xs') + multiset{last};
    }
  }

  lemma SingleLeave(x: State)
    ensures Left([Leave(x)]) == multiset{x}
    ensures Entered([Leave(x)]) == multiset{}
  {
    assert [Leave(x)][..0] == [];
  }
}
