/**
 * Californium.Game: the static game-loop controller, as one object. Its fields are the
 * state stack, the table of keys held down and the window size; `trace` records, in
 * order, every call the controller makes into the states and the window.
 */
module Californium {
  import opened Wrappers
  import opened States
  import opened Events
  import opened Calls
  import opened StateStack
  import opened FrameLoop
  import opened Dispatch

  /** The calls of `steps` simulation steps in a row. */
  function Repeat(calls: seq<Call>, steps: nat): (r: seq<Call>)
    ensures |r| == |calls| * steps
  {
    if steps == 0 then [] else Repeat(calls, steps - 1) + calls
  }

  class Game {
    var states: seq<State>
    var keyStates: array<bool>
    var size: Size
    var trace: seq<Call>

    ghost predicate Valid()
      reads this
    {
      keyStates.Length == KeyCount
    }

    /** The static constructor: an empty stack and no key held down. */
    constructor ()
      ensures Valid() && fresh(keyStates)
      ensures states == [] && trace == [] && size == Size(0.0, 0.0)
      ensures forall k :: 0 <= k < KeyCount ==> !keyStates[k]
    {
      states := [];
      keyStates := new bool[KeyCount](_ => false);
      size := Size(0.0, 0.0);
      trace := [];
    }

    method SetState(state: State)
      modifies this`states, this`trace
      ensures var t := Perform(old(states), Set(state));
        states == t.stack && trace == old(trace) + t.calls
    {
      for i := 0 to |states|
        invariant states == old(states)
        invariant trace == old(trace) + Leaves(states[..i])
      {
        assert states[..i + 1][..i] == states[..i];
        trace := trace + [Leave(states[i])];
      }
      assert states[..|states|] == states;
      states := [];
      PushState(state);
    }

    method PushState(state: State)
      modifies this`states, this`trace
      ensures var t := Perform(old(states), Push(state));
        states == t.stack && trace == old(trace) + t.calls
    {
      states := states + [state];
      trace := trace + [Enter(state)];
    }

    method PopState() returns (outcome: Outcome)
      modifies this`states, this`trace
      ensures var t := Perform(old(states), Pop);
        states == t.stack && trace == old(trace) + t.calls && outcome == t.outcome
    {
      if |states| == 1 {
        return Completed;
      }
      var last := |states| - 1;
      if last < 0 {
        // states[-1] on the empty list
        return Thrown(ArgumentOutOfRange);
      }
      trace := trace + [Leave(states[last])];
      states := states[..last];
      outcome := Completed;
    }

    /** DispatchEvent: offer `args` to the entries from the top down until one consumes it. */
    method DispatchEvent(args: InputArgs, processEvent: (State, InputArgs) -> bool)
      modifies this`trace
      ensures trace == old(trace) + DispatchCalls(states, args, processEvent, |states|)
    {
      var st := states;
      ghost var all := DispatchCalls(st, args, processEvent, |st|);
      ghost var done: seq<Call> := [];
      var i := |st| - 1;
      while i >= 0
        invariant -1 <= i < |st|
        invariant trace == old(trace) + done
        invariant all == done + DispatchCalls(st, args, processEvent, i + 1)
      {
        var state := st[i];
        var offered := Stamped(args, state);
        var consumed := processEvent(state, offered);
        ghost var before := done;
        trace := trace + [ProcessEvent(state, offered)];
        done := done + [ProcessEvent(state, offered)];
        if consumed {
          DispatchStops(st, args, processEvent, i + 1);
          return;
        }
        DispatchGoesOn(st, args, processEvent, i + 1);
        assert all == before + [ProcessEvent(state, offered)] + DispatchCalls(st, args, processEvent, i);
        i := i - 1;
      }
    }

    /** The KeyPressed handler: repeated presses and presses of Unknown are dropped. */
    method KeyPressed(code: KeyCode, control: bool, shift: bool, processEvent: (State, InputArgs) -> bool)
      requires Valid()
      modifies this`trace, keyStates
      ensures var f := OnKeyPressed(old(keyStates[..]), code);
        && keyStates[..] == f.keys
        && trace == old(trace) + (if f.forward then DispatchCalls(states, InputArgs(Key(code, true, control, shift), None), processEvent, |states|) else [])
    {
      if code == Unknown || keyStates[code] {
        return;
      }
      keyStates[code] := true;
      DispatchEvent(InputArgs(Key(code, true, control, shift), None), processEvent);
    }

    /** The KeyReleased handler: the key is marked up and the release always dispatched. */
    method KeyReleased(code: KeyCode, control: bool, shift: bool, processEvent: (State, InputArgs) -> bool)
      requires Valid()
      modifies this`trace, keyStates
      ensures var f := OnKeyReleased(old(keyStates[..]), code);
        && keyStates[..] == f.keys
        && trace == old(trace) + DispatchCalls(states, InputArgs(Key(code, false, control, shift), None), processEvent, |states|)
    {
      if code != Unknown {
        keyStates[code] := false;
      }
      DispatchEvent(InputArgs(Key(code, false, control, shift), None), processEvent);
    }

    /** Resize: record the new size, then re-initialise every entry's camera. */
    method Resize(newSize: Size)
      modifies this`size, this`trace
      ensures size == newSize
      ensures trace == old(trace) + InitializeCameras(states)
    {
      size := newSize;
      for i := 0 to |states|
        invariant size == newSize
        invariant trace == old(trace) + InitializeCameras(states[..i])
      {
        assert states[..i + 1][..i] == states[..i];
        trace := trace + [InitializeCamera(states[i])];
      }
      assert states[..|states|] == states;
    }

    /** One simulation step: the update loop inside Run. */
    method SimulationStep()
      modifies this`trace
      ensures trace == old(trace) + StepCalls(states, |states|)
    {
      for i := 0 to |states|
        invariant trace == old(trace) + StepCalls(states, i)
      {
        var state := states[i];
        if i == |states| - 1 || state.HasFlag(UpdateMode.Update) {
          trace := trace + [UpdateInternal(state)];
        }
      }
    }

    /** One draw pass: the draw loop inside Run, with the single clear at the clear index. */
    method DrawPass()
      modifies this`trace
      ensures trace == old(trace) + DrawPassCalls(states, ClearStateIndex(states), |states|)
    {
      var clearState := ClearStateIndex(states);
      for i := 0 to |states|
        invariant trace == old(trace) + DrawPassCalls(states, clearState, i)
      {
        var state := states[i];
        if i == clearState {
          trace := trace + [Clear(state.clearColor)];
        }
        if i != |states| - 1 && !state.HasFlag(UpdateMode.Draw) {
          continue;
        }
        trace := trace + [Call.Draw(state)];
      }
    }

    /**
     * One iteration of Run's outer loop, with time counted in whole ticks: the elapsed
     * time is added to the accumulator, a simulation step runs for every whole timestep
     * it holds, and then one draw pass runs. What is left is less than one timestep.
     */
    method RunFrame(accumulator: nat, elapsed: nat, timestep: nat) returns (remaining: nat, steps: nat)
      requires timestep > 0
      modifies this`trace
      ensures remaining < timestep
      ensures remaining + steps * timestep == accumulator + elapsed
      ensures trace == old(trace) + Repeat(StepCalls(states, |states|), steps)
                                  + DrawPassCalls(states, ClearStateIndex(states), |states|)
    {
      remaining := accumulator + elapsed;
      steps := 0;
      while remaining >= timestep
        invariant remaining + steps * timestep == accumulator + elapsed
        invariant trace == old(trace) + Repeat(StepCalls(states, |states|), steps)
        decreases remaining
      {
        SimulationStep();
        remaining := remaining - timestep;
        steps := steps + 1;
      }
      DrawPass();
    }
  }
}
