# Californium game loop: state stack, frame passes and input dispatch

This project models the orchestration core of `Californium/Game.cs`, the static
controller at the centre of the Californium game framework. It holds a stack of
application states, such as a menu, the gameplay and a pause overlay:

- The stack controller changes the stack with `PushState`, `PopState` and `SetState`,
  and reads it with `PeekState`, `PeekFirstState` and `IsActive`.
- Each simulation step updates the entries that are eligible.
- Each frame draws the visible entries, with at most one clear of the window.
- Input events go from the top entry down, until one entry consumes them.
- A key-repeat filter sits in front of the keyboard events.
- A resize re-initialises the camera of every entry.

The entries are numbered from 0 (the bottom, pushed first) to the top (pushed last).

Modules:

- `Wrappers`: Option and Result.
- `States`: a state as the loop sees it. That is its identity, its inactive-mode flags
  (`Update`, `Draw`), its clear colour and its camera's view. Views and colours are
  opaque handles.
- `Events`: the events the window handlers build and the `View` stamp on them. Also
  the key-repeat filter, written as functions over the key table.
- `Calls`: every call the controller makes into a state or the window. These are
  `Enter`, `Leave`, `UpdateInternal`, `Draw`, `Clear`, `ProcessEvent` and
  `InitializeCamera`, recorded as entries of a trace.
- `StateStack`: the stack queries, and each stack operation as a transition. A
  transition is the new stack, the lifecycle calls made and whether an exception
  was thrown.
- `FrameLoop`: which entries a simulation step updates; which entries a draw pass
  draws; where the pass clears.
- `Dispatch`: the top-down offer of one event, until a handler consumes it.
- `Californium`: class `Game`, with fields `states`, `keyStates` (an `array<bool>`),
  `size` and `trace`. Its methods are the source's operations. Each is proved to
  leave the stack and the trace that the functions above prescribe.

External collaborators are handled as follows:

- The callbacks into the states are entries of `trace`.
- The answer of `State.ProcessEvent` is a function parameter `processEvent`.
- The window is left out; only its `Clear` call is kept, as a trace entry.

Three edges of the code are easy to misread:

- If no entry has the `Draw` flag, `FindIndex` returns -1. The draw pass then clears
  nothing at all; it does not fall back to clearing with the top state's colour.
  `NoDrawFlagDrawsOnlyTop` states this.
- `IsActive(s)` compares the FIRST index of `s` with the top index. So a state that is
  on top and also lower in the stack is not active. On an empty stack, every state is
  active, because -1 == 0 - 1.
- `PopState` on an empty stack is not a no-op: the indexer `states[-1]` throws
  `ArgumentOutOfRangeException` before anything changes. `PeekState` and
  `PeekFirstState` on an empty stack throw `InvalidOperationException`. These
  exceptions are modelled as results.

`KeyCount` is 101. That is the value of `Keyboard.Key.KeyCount` in SFML.Net, whose
codes run from `A` (0) to `Pause` (100), with `Unknown` at -1. The enum is not part of
this model's sources.

## Model

| member | source | states |
|---|---|---|
| `Events.Stamped` | Californium/Game.cs:174 | stamping keeps the event's input and sets its view to the state's camera view |
| `Events.OnKeyPressed` | Californium/Game.cs:59-65 | a press is forwarded iff the key is not Unknown and not already down; only that key changes; a dropped press changes nothing |
| `Events.OnKeyReleased` | Californium/Game.cs:67-72 | a release is always forwarded and marks its key up unless it is Unknown; no other key changes |
| `Events.RepeatedPressSuppressed` | Californium/Game.cs:59-65 | of two presses of one key in a row, the second is suppressed and changes nothing |
| `Events.PressAfterReleaseForwarded` | Californium/Game.cs:59-72 | after a release, the next press of that key is forwarded again |
| `Calls.Leaves` | Californium/Game.cs:133-136 | one Leave per held entry, bottom to top, in stack order |
| `Calls.InitializeCameras` | Californium/Game.cs:184-187 | one InitializeCamera per entry, bottom to top, whatever the entry's flags |
| `Calls.LeavesLeaveEachOnce` | Californium/Game.cs:133-136 | the SetState loop leaves each held state exactly as often as it is held, and enters none |
| `StateStack.IndexOf` | Californium/Game.cs:192 | -1 iff the state is absent; otherwise the index of its first occurrence |
| `StateStack.PeekState` | Californium/Game.cs:158-161 | the top entry, or InvalidOperation on an empty stack |
| `StateStack.PeekFirstState` | Californium/Game.cs:163-166 | the bottom entry, or InvalidOperation on an empty stack |
| `StateStack.IsActive` | Californium/Game.cs:190-193 | true iff the stack is empty, or the state is the top and occurs nowhere below it |
| `StateStack.Perform` | Californium/Game.cs:131-156 | Push: appends as the new top, keeps the rest, one Enter. Pop: on one entry no change and no call; on two or more, one Leave on the top only and the rest kept in order; on none, it throws with no change. Set: one Leave per held entry, bottom to top, then the stack is exactly [s] and Enter(s) comes last |
| `StateStack.StackNeverEmpties` | Californium/Game.cs:148-156 | no sequence of Push, Pop and Set empties a non-empty stack, and none of them throws |
| `StateStack.LifecycleBalance` | Californium/Game.cs:131-156 | over any sequence of operations, held-before plus entered equals held-after plus left, as multisets |
| `StateStack.PushedStateOnTop` | Californium/Game.cs:142-146 | after PushState(s), PeekState is s; s is active iff it was not already on the stack |
| `StateStack.SetLeavesOnlyState` | Californium/Game.cs:131-140 | after SetState(s), s is the top, the bottom and the active state |
| `StateStack.ActiveIsTop` | Californium/Game.cs:190-193 | an active state of a non-empty stack is what PeekState returns |
| `StateStack.TopNotActiveWhenHeldTwice` | Californium/Game.cs:190-193 | for the stack [a, b, a], `a` is the top but not active |
| `FrameLoop.UpdatedIndices` | Californium/Game.cs:93-99 | ascending, each index once, and i is included iff it is the top or has the Update flag |
| `FrameLoop.StepUpdatesSelected` | Californium/Game.cs:93-99 | a step calls UpdateInternal on exactly the updated indices, in ascending order |
| `FrameLoop.TopAlwaysUpdated` | Californium/Game.cs:97 | the top entry is updated in every step |
| `FrameLoop.ClearStateIndex` | Californium/Game.cs:106 | -1 iff no entry has the Draw flag; otherwise the lowest entry with the flag |
| `FrameLoop.ClearCalls` | Californium/Game.cs:106-112 | at most one Clear; there is one iff some entry has the Draw flag, with the clear-state entry's colour |
| `FrameLoop.DrawnIndices` | Californium/Game.cs:114-117 | ascending, each index once, and i is included iff it is the top or has the Draw flag |
| `FrameLoop.DrawPassShape` | Californium/Game.cs:106-118 | a pass is its Clear (if any) before every Draw, then Draw on exactly the drawn indices in ascending order |
| `FrameLoop.NoDrawFlagDrawsOnlyTop` | Californium/Game.cs:106-118 | with no Draw flag anywhere, the pass draws only the top and does not clear |
| `FrameLoop.MiddleVisibleLayer` | Californium/Game.cs:106-118 | for three entries with only the middle flagged Draw, the calls are: clear with the middle's colour, draw the middle, draw the top |
| `Dispatch.Consumer` | Californium/Game.cs:170-177 | the highest consuming index or -1; every entry above it declines the event |
| `Dispatch.DispatchOffersDownToConsumer` | Californium/Game.cs:168-178 | the event is offered once each to the entries from the top down to the consumer, and to none below; with no consumer, to every entry |
| `Dispatch.TopConsumesStopsDispatch` | Californium/Game.cs:175-176 | if the top consumes the event, it is the only entry offered it |
| `Dispatch.OffersCarryOwnView` | Californium/Game.cs:174-175 | every offered event carries the view of the entry it is offered to |
| `Californium.Game.constructor` | Californium/Game.cs:27-31 | an empty stack, a key table of KeyCount entries that are all up |
| `Californium.Game.SetState` | Californium/Game.cs:131-140 | the new stack and the calls are those of Perform(Set) |
| `Californium.Game.PushState` | Californium/Game.cs:142-146 | the new stack and the calls are those of Perform(Push) |
| `Californium.Game.PopState` | Californium/Game.cs:148-156 | the new stack, the calls and the outcome are those of Perform(Pop) |
| `Californium.Game.DispatchEvent` | Californium/Game.cs:168-178 | appends exactly the top-down offers up to the first consumer |
| `Californium.Game.KeyPressed` | Californium/Game.cs:59-65 | the key table becomes OnKeyPressed's; one press event is dispatched iff the filter forwards it |
| `Californium.Game.KeyReleased` | Californium/Game.cs:67-72 | the key table becomes OnKeyReleased's; one release event is always dispatched |
| `Californium.Game.Resize` | Californium/Game.cs:180-188 | records the size, then calls InitializeCamera once on every entry, bottom to top |
| `Californium.Game.SimulationStep` | Californium/Game.cs:93-99 | appends exactly the calls of the update loop |
| `Californium.Game.DrawPass` | Californium/Game.cs:106-118 | appends exactly the calls of the draw loop, with the clear index taken from FindIndex |
| `Californium.Game.RunFrame` | Californium/Game.cs:80-121 | runs one step per whole timestep held; leaves less than one timestep; then one draw pass |

## Left out

- Window construction, style flags, framerate and vsync setup, and icon loading
  (`Californium/Game.cs:35-49`). These are calls into SFML and asset I/O. The size set
  at line 39 belongs to this setup, so the model's constructor starts with size (0, 0),
  as the static constructor does.
- The `Closed` handler (`Californium/Game.cs:51`). It calls `Window.Close()`, which is
  left out with the window.
- The `Resized`, mouse and text wiring (`Californium/Game.cs:52-57`). Each of these
  handlers is taken to be one `Resize` call or one `DispatchEvent` call with the
  matching `Input` value.
- `DefaultView` and the camera and vector geometry. Views and colours are opaque values.
- `Window.DispatchEvents()` and `Timer.Update()` inside the step loop, `Window.Display()`,
  `Exit()` and the `while (Window.IsOpen())` outer loop. These are calls to collaborators
  outside this model. `RunFrame` models one iteration of the outer loop.
- `Californium.Game.RunFrame`: counts time in whole ticks, not as a `double` number of
  seconds from a `Stopwatch`. So rounding of the floating-point accumulator is not
  modelled. It also requires `timestep > 0`: with a timestep of 0 the step loop at
  `Californium/Game.cs:88` never ends, because the accumulator is never negative.
- `Californium.Game.Resize`: a state's view is part of its value and does not change.
  The view that `InitializeCamera` computes is not modelled; only the call is recorded.
- Callbacks that change the stack while a loop runs over it. The model assumes
  `Enter`, `Leave`, `UpdateInternal`, `Draw` and `ProcessEvent` do not touch the stack.
  With such a callback, the source's loops would re-read `states.Count`, and the
  `foreach` in `SetState` would throw.
- Side effects of the handlers on their own states. `processEvent` is a pure function
  of the state and the stamped event.
- Object identity. A state's `id` field stands for its reference, so `List.IndexOf`
  compares states by value in the model.
