/**
 * Input events handed to the states, and the key-repeat filter that sits in front of
 * the keyboard events.
 */
module Events {
  import opened Wrappers
  import opened States

  /** Keyboard.Key.KeyCount in SFML.Net: the codes A (0) to Pause (100). */
  const KeyCount: int := 101

  /** A Keyboard.Key value: Unknown (-1) or a code below KeyCount. */
  type KeyCode = k: int | -1 <= k < KeyCount

  const Unknown: KeyCode := -1

  /** The payload of each InputArgs subclass that the window handlers construct. */
  datatype Input =
    | MouseButton(button: nat, pressed: bool, x: int, y: int)
    | MouseWheel(delta: int, x: int, y: int)
    | MouseMove(x: int, y: int)
    | Text(unicode: string)
    | Key(code: KeyCode, pressed: bool, control: bool, shift: bool)

  /** InputArgs: the event together with its View field, which starts out null. */
  datatype InputArgs = InputArgs(input: Input, view: Option<View>)

  /** `args.View = state.Camera.View`: the event expressed in the state's coordinates. */
  function Stamped(args: InputArgs, state: State): (r: InputArgs)
    ensures r.input == args.input
    ensures r.view == Some(state.view)
  {
    args.(view := Some(state.view))
  }

  /** The key table after a key notification, and whether an event is forwarded. */
  datatype KeyFilter = KeyFilter(keys: seq<bool>, forward: bool)

  /**
   * The KeyPressed handler's filter: a press of Unknown or of a key already down is
   * dropped and changes nothing; any other press marks only that key down and is
   * forwarded.
   */
  function OnKeyPressed(keys: seq<bool>, code: KeyCode): (r: KeyFilter)
    requires |keys| == KeyCount
    ensures |r.keys| == KeyCount
    ensures r.forward <==> code != Unknown && !keys[code]
    ensures code != Unknown ==> r.keys[code]
    ensures forall k :: 0 <= k < KeyCount && k != code ==> r.keys[k] == keys[k]
    ensures !r.forward ==> r.keys == keys
  {
    if code == Unknown || keys[code] then KeyFilter(keys, false)
    else KeyFilter(keys[code := true], true)
  }

  /**
   * The KeyReleased handler's filter: a release is always forwarded; it marks its key
   * up unless the key is Unknown, and touches no other key.
   */
  function OnKeyReleased(keys: seq<bool>, code: KeyCode): (r: KeyFilter)
    requires |keys| == KeyCount
    ensures |r.keys| == KeyCount
    ensures r.forward
    ensures code != Unknown ==> !r.keys[code]
    ensures forall k :: 0 <= k < KeyCount && k != code ==> r.keys[k] == keys[k]
    ensures code == Unknown ==> r.keys == keys
  {
    KeyFilter(if code == Unknown then keys else keys[code := false], true)
  }

  /** Holding a key down: the second of two presses is suppressed and changes nothing. */
  lemma RepeatedPressSuppressed(keys: seq<bool>, code: KeyCode)
    requires |keys| == KeyCount
    ensures var first := OnKeyPressed(keys, code);
      var second := OnKeyPressed(first.keys, code);
      !second.forward && second.keys == first.keys
  {
  }

  /** After a release, the next press of the same (known) key is forwarded again. */
  lemma PressAfterReleaseForwarded(keys: seq<bool>, code: KeyCode)
    requires |keys| == KeyCount
    requires code != Unknown
    ensures OnKeyPressed(OnKeyReleased(keys, code).keys, code).forward
  {
  }
}
