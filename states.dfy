/**
 * The stack-manageable State as the game loop sees it: its inactive-mode flags,
 * its clear colour and the view of its camera. Views and colours are opaque handles;
 * the geometry behind them is not modelled.
 */
module States {
  /** The two flags of State.UpdateMode: keep updating / keep drawing while not on top. */
  datatype UpdateMode = Update | Draw

  /** An 8-bit colour channel, as in SFML's Color. */
  newtype Byte = x: int | 0 <= x < 256

  datatype Color = Color(r: Byte, g: Byte, b: Byte, a: Byte)

  /** An SFML View, compared only for identity. */
  datatype View = View(handle: nat)

  /** A Vector2f window size. */
  datatype Size = Size(x: real, y: real)

  /**
   * A state object. `id` stands for the object's identity, so two entries are equal
   * exactly when they are the same object; `inactiveMode` is the set of flags that are
   * set (the default is the empty set); `view` is `Camera.View`.
   */
  datatype State = State(id: nat, inactiveMode: set<UpdateMode>, clearColor: Color, view: View)
  {
    /** InactiveMode.HasFlag(m). */
    predicate HasFlag(m: UpdateMode) {
      m in inactiveMode
    }
  }
}
