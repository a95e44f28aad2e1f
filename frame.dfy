/**
 * The per-frame rules of the game loop: which entries one simulation step updates, and
 * which entries the draw pass draws and where it clears. Both passes run bottom to top.
 */
module FrameLoop {
  import opened States
  import opened Calls

  /** Entry `i` is updated in a step: it is the top, or it keeps updating while inactive. */
  predicate UpdatesAt(st: seq<State>, i: nat)
    requires i < |st|
  {
    i == |st| - 1 || st[i].HasFlag(UpdateMode.Update)
  }

  /** Entry `i` is drawn in a pass: it is the top, or it keeps drawing while inactive. */
  predicate DrawsAt(st: seq<State>, i: nat)
    requires i < |st|
  {
    i == |st| - 1 || st[i].HasFlag(UpdateMode.Draw)
  }

  predicate StrictlyIncreasing(idx: seq<nat>)
  {
    forall a, b :: 0 <= a < b < |idx| ==> idx[a] < idx[b]
  }

  /** The calls of the update loop over entries 0 .. n-1. */
  function StepCalls(st: seq<State>, n: nat): seq<Call>
    requires n <= |st|
  {
    if n == 0 then []
    else StepCalls(st, n - 1) + (if UpdatesAt(st, n - 1) then [UpdateInternal(st[n - 1])] else [])
  }

  /** The indices below `n` that a step updates, in ascending order, each once. */
  function UpdatedIndices(st: seq<State>, n: nat): (r: seq<nat>)
    requires n <= |st|
    ensures StrictlyIncreasing(r)
    ensures forall k :: 0 <= k < |r| ==> r[k] < n
    ensures forall i :: 0 <= i < n ==> (i in r <==> UpdatesAt(st, i))
  {
    if n == 0 then []
    else UpdatedIndices(st, n - 1) + (if UpdatesAt(st, n - 1) then [n - 1] else [])
  }

  /** Update calls on the entries at `idx`, in that order. */
  function UpdateCallsAt(st: seq<State>, idx: seq<nat>): seq<Call>
    requires forall k :: 0 <= k < |idx| ==> idx[k] < |st|
  {
    seq(|idx|, k requires 0 <= k < |idx| => UpdateInternal(st[idx[k]]))
  }

  /**
   * One simulation step calls UpdateInternal on exactly the updated indices, in
   * ascending order: every entry that is the top or has the Update flag, once each,
   * and no other entry.
   */
  lemma {:induction false} StepUpdatesSelected(st: seq<State>, n: nat)
    requires n <= |st|
    ensures StepCalls(st, n) == UpdateCallsAt(st, UpdatedIndices(st, n))
  {
    if n > 0 {
      StepUpdatesSelected(st, n - 1);
      var idx := UpdatedIndices(st, n - 1);
      if UpdatesAt(st, n - 1) {
        UpdateCallsSnoc(st, idx, n - 1);
      } else {
        assert idx + [] == idx;
      }
    }
  }

  lemma UpdateCallsSnoc(st: seq<State>, idx: seq<nat>, j: nat)
    requires forall k :: 0 <= k < |idx| ==> idx[k] < |st|
    requires j < |st|
    ensures UpdateCallsAt(st, idx + [j]) == UpdateCallsAt(st, idx) + [UpdateInternal(st[j])]
  {
  }

  /** The top entry is updated in every step, whatever its flags. */
  lemma TopAlwaysUpdated(st: seq<State>)
    requires st != []
    ensures |st| - 1 in UpdatedIndices(st, |st|)
  {
  }

  /**
   * The clear-state index: `states.FindIndex` of the first entry, from the bottom, with
   * the Draw flag, or -1 when no entry has it.
   */
  function ClearStateIndex(st: seq<State>): (r: int)
    ensures -1 <= r < |st|
    ensures r == -1 <==> forall i :: 0 <= i < |st| ==> !st[i].HasFlag(UpdateMode.Draw)
    ensures 0 <= r ==> st[r].HasFlag(UpdateMode.Draw)
    ensures 0 <= r ==> forall i :: 0 <= i < r ==> !st[i].HasFlag(UpdateMode.Draw)
  {
    if st == [] then -1
    else if st[0].HasFlag(UpdateMode.Draw) then 0
    else
      var k := ClearStateIndex(st[1..]);
      assert forall i :: 1 <= i < |st| ==> st[i] == st[1..][i - 1];
      if k == -1 then -1 else k + 1
  }

  /**
   * The calls of the draw loop over entries 0 .. n-1 with clear index `c`: at index `c`
   * the window is cleared with that entry's colour, then the entry is drawn if it is
   * the top or has the Draw flag.
   */
  function DrawPassCalls(st: seq<State>, c: int, n: nat): seq<Call>
    requires n <= |st|
  {
    if n == 0 then []
    else
      DrawPassCalls(st, c, n - 1)
      + (if n - 1 == c then [Clear(st[n - 1].clearColor)] else [])
      + (if DrawsAt(st, n - 1) then [Call.Draw(st[n - 1])] else [])
  }

  /** The indices below `n` that a pass draws, in ascending order, each once. */
  function DrawnIndices(st: seq<State>, n: nat): (r: seq<nat>)
    requires n <= |st|
    ensures StrictlyIncreasing(r)
    ensures forall k :: 0 <= k < |r| ==> r[k] < n
    ensures forall i :: 0 <= i < n ==> (i in r <==> DrawsAt(st, i))
  {
    if n == 0 then []
    else DrawnIndices(st, n - 1) + (if DrawsAt(st, n - 1) then [n - 1] else [])
  }

  /** Draw calls on the entries at `idx`, in that order. */
  function DrawCallsAt(st: seq<State>, idx: seq<nat>): seq<Call>
    requires forall k :: 0 <= k < |idx| ==> idx[k] < |st|
  {
    seq(|idx|, k requires 0 <= k < |idx| => Call.Draw(st[idx[k]]))
  }

  /** The Clear call of a pass, if any: only when some entry has the Draw flag. */
  function ClearCalls(st: seq<State>): (r: seq<Call>)
    ensures |r| <= 1
    ensures r != [] <==> exists i :: 0 <= i < |st| && st[i].HasFlag(UpdateMode.Draw)
    ensures r != [] ==> r[0] == Clear(st[ClearStateIndex(st)].clearColor)
  {
    var c := ClearStateIndex(st);
    if c >= 0 then [Clear(st[c].clearColor)] else []
  }

  /**
   * The shape of a draw pass: at most one Clear, which comes before every Draw and uses
   * the colour of the lowest entry with the Draw flag; then Draw on exactly the drawn
   * indices, in ascending order. With no Draw flag anywhere there is no Clear at all.
   */
  lemma DrawPassShape(st: seq<State>)
    ensures DrawPassCalls(st, ClearStateIndex(st), |st|)
         == ClearCalls(st) + DrawCallsAt(st, DrawnIndices(st, |st|))
  {
    DrawPassPrefix(st, |st|);
    assert DrawPassPrefixShape(st, |st|);
  }

  /** The draw loop over entries 0 .. n-1: the Clear, if it is reached, then the draws. */
  ghost predicate DrawPassPrefixShape(st: seq<State>, n: nat)
    requires n <= |st|
  {
    var c := ClearStateIndex(st);
    DrawPassCalls(st, c, n)
    == (if 0 <= c < n then [Clear(st[c].clearColor)] else []) + DrawCallsAt(st, DrawnIndices(st, n))
  }

  lemma {:induction false} DrawPassPrefix(st: seq<State>, n: nat)
    requires n <= |st|
    ensures DrawPassPrefixShape(st, n)
  {
    var c := ClearStateIndex(st);
    if n == 0 {
    } else if n - 1 < c {
      NothingDrawnBelowClear(st, c, n);
    } else if n - 1 == c {
      DrawPassAtClear(st, n);
    } else {
      DrawPassPrefix(st, n - 1);
      DrawPassAboveClear(st, n);
    }
  }

  lemma DrawPassAtClear(st: seq<State>, n: nat)
    requires 0 < n <= |st| && n - 1 == ClearStateIndex(st)
    ensures var c := ClearStateIndex(st);
      DrawPassCalls(st, c, n)
      == (if 0 <= c < n then [Clear(st[c].clearColor)] else []) + DrawCallsAt(st, DrawnIndices(st, n))
  {
    var c := ClearStateIndex(st);
    ClearedThenDrawn(st, c);
    assert DrawCallsAt(st, [c]) == [Call.Draw(st[c])];
  }

  /** At the lowest entry with the Draw flag, the pass clears with its colour, then draws it. */
  lemma ClearedThenDrawn(st: seq<State>, c: nat)
    requires c < |st| && st[c].HasFlag(UpdateMode.Draw)
    requires forall i :: 0 <= i < c ==> !st[i].HasFlag(UpdateMode.Draw)
    ensures DrawnIndices(st, c + 1) == [c]
    ensures DrawPassCalls(st, c, c + 1) == [Clear(st[c].clearColor)] + [Call.Draw(st[c])]
  {
    NothingDrawnBelowClear(st, c, c);
    assert DrawsAt(st, c);
    assert DrawnIndices(st, c + 1) == DrawnIndices(st, c) + [c];
    assert DrawPassCalls(st, c, c + 1)
        == DrawPassCalls(st, c, c) + [Clear(st[c].clearColor)] + [Call.Draw(st[c])];
  }

  lemma DrawPassAboveClear(st: seq<State>, n: nat)
    requires 0 < n <= |st| && n - 1 > ClearStateIndex(st)
    requires var c := ClearStateIndex(st);
      DrawPassCalls(st, c, n - 1)
      == (if 0 <= c < n - 1 then [Clear(st[c].clearColor)] else []) + DrawCallsAt(st, DrawnIndices(st, n - 1))
    ensures var c := ClearStateIndex(st);
      DrawPassCalls(st, c, n)
      == (if 0 <= c < n then [Clear(st[c].clearColor)] else []) + DrawCallsAt(st, DrawnIndices(st, n))
  {
    var idx := DrawnIndices(st, n - 1);
    if DrawsAt(st, n - 1) {
      DrawCallsSnoc(st, idx, n - 1);
    } else {
      assert idx + [] == idx;
    }
  }

  /**
   * Below the clear index `c`, the lowest entry with the Draw flag, the draw loop makes
   * no call at all.
   */
  lemma {:induction false} NothingDrawnBelowClear(st: seq<State>, c: int, n: nat)
    requires n <= c < |st|
    requires forall i :: 0 <= i < c ==> !st[i].HasFlag(UpdateMode.Draw)
    ensures DrawnIndices(st, n) == []
    ensures DrawPassCalls(st, c, n) == []
  {
    if n > 0 {
      NothingDrawnBelowClear(st, c, n - 1);
      SkippedEntry(st, c, n);
    }
  }

  /** An entry below the top, without the Draw flag and not at the clear index, adds no call. */
  lemma SkippedEntry(st: seq<State>, c: int, n: nat)
    requires 0 < n < |st| && n - 1 != c
    requires !st[n - 1].HasFlag(UpdateMode.Draw)
    ensures DrawnIndices(st, n) == DrawnIndices(st, n - 1)
    ensures DrawPassCalls(st, c, n) == DrawPassCalls(st, c, n - 1)
  {
    assert !DrawsAt(st, n - 1);
    assert DrawnIndices(st, n - 1) + [] == DrawnIndices(st, n - 1);
    assert DrawPassCalls(st, c, n - 1) + [] + [] == DrawPassCalls(st, c, n - 1);
  }

  lemma DrawCallsSnoc(st: seq<State>, idx: seq<nat>, j: nat)
    requires forall k :: 0 <= k < |idx| ==> idx[k] < |st|
    requires j < |st|
    ensures DrawCallsAt(st, idx + [j]) == DrawCallsAt(st, idx) + [Call.Draw(st[j])]
  {
  }

  /** With no Draw flag anywhere, the pass draws only the top and never clears. */
  lemma NoDrawFlagDrawsOnlyTop(st: seq<State>)
    requires st != []
    requires forall i :: 0 <= i < |st| ==> !st[i].HasFlag(UpdateMode.Draw)
    ensures DrawPassCalls(st, ClearStateIndex(st), |st|) == [Call.Draw(st[|st| - 1])]
  {
    var n := |st| - 1;
    assert ClearStateIndex(st) == -1;
    NothingDrawnBelowTop(st, n);
    assert DrawPassCalls(st, -1, n + 1) == DrawPassCalls(st, -1, n) + [] + [Call.Draw(st[n])];
  }

  /** With no Draw flag anywhere and no clear index, the entries below the top add no call. */
  lemma {:induction false} NothingDrawnBelowTop(st: seq<State>, n: nat)
    requires n < |st|
    requires forall i :: 0 <= i < |st| ==> !st[i].HasFlag(UpdateMode.Draw)
    ensures DrawPassCalls(st, -1, n) == []
  {
    if n > 0 {
      NothingDrawnBelowTop(st, n - 1);
      SkippedEntry(st, -1, n);
    }
  }

  /**
   * Three entries where only the middle one has the Draw flag: the pass clears with the
   * middle entry's colour, then draws the middle and the top and skips the bottom.
   */
  lemma MiddleVisibleLayer(bottom: State, middle: State, top: State)
    requires !bottom.HasFlag(UpdateMode.Draw) && middle.HasFlag(UpdateMode.Draw)
    ensures var st := [bottom, middle, top];
      DrawPassCalls(st, ClearStateIndex(st), 3) == [Clear(middle.clearColor), Call.Draw(middle), Call.Draw(top)]
  {
    var st := [bottom, middle, top];
    assert ClearStateIndex(st) == 1;
    assert DrawPassCalls(st, 1, 1) == [];
    assert DrawPassCalls(st, 1, 2) == [Clear(middle.clearColor), Call.Draw(middle)];
  }
}
