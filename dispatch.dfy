/**
 * The input dispatcher: an event is offered to the entries from the top down, each time
 * stamped with that entry's camera view, until a handler reports it consumed. What a
 * handler answers is a parameter, `processEvent`, standing for State.ProcessEvent.
 */
module Dispatch {
  import opened Wrappers
  import opened States
  import opened Events
  import opened Calls

  /** Entry `i` consumes the event it is offered (with its own view stamped on it). */
  predicate Consumes(st: seq<State>, args: InputArgs, processEvent: (State, InputArgs) -> bool, i: nat)
    requires i < |st|
  {
    processEvent(st[i], Stamped(args, st[i]))
  }

  /** The calls of the dispatch loop started at index n-1 (the top, for n == |st|). */
  function DispatchCalls(st: seq<State>, args: InputArgs, processEvent: (State, InputArgs) -> bool, n: nat): seq<Call>
    requires n <= |st|
  {
    if n == 0 then []
    else
      var offered := Stamped(args, st[n - 1]);
      [ProcessEvent(st[n - 1], offered)]
      + (if processEvent(st[n - 1], offered) then [] else DispatchCalls(st, args, processEvent, n - 1))
  }

  /** One turn of the dispatch loop: offer to entry n-1, then stop or go on below it. */
  lemma DispatchCallsStep(st: seq<State>, args: InputArgs, processEvent: (State, InputArgs) -> bool, n: nat)
    requires 0 < n <= |st|
    ensures DispatchCalls(st, args, processEvent, n)
         == [ProcessEvent(st[n - 1], Stamped(args, st[n - 1]))]
            + (if Consumes(st, args, processEvent, n - 1) then [] else DispatchCalls(st, args, processEvent, n - 1))
  {
  }

  /** The turn at entry n-1 when its handler consumes the event: the loop stops there. */
  lemma DispatchStops(st: seq<State>, args: InputArgs, processEvent: (State, InputArgs) -> bool, n: nat)
    requires 0 < n <= |st| && Consumes(st, args, processEvent, n - 1)
    ensures DispatchCalls(st, args, processEvent, n) == [ProcessEvent(st[n - 1], Stamped(args, st[n - 1]))]
  {
    DispatchCallsStep(st, args, processEvent, n);
  }

  /** The turn at entry n-1 when its handler declines the event: the loop goes on below. */
  lemma DispatchGoesOn(st: seq<State>, args: InputArgs, processEvent: (State, InputArgs) -> bool, n: nat)
    requires 0 < n <= |st| && !Consumes(st, args, processEvent, n - 1)
    ensures DispatchCalls(st, args, processEvent, n)
         == [ProcessEvent(st[n - 1], Stamped(args, st[n - 1]))] + DispatchCalls(st, args, processEvent, n - 1)
  {
    DispatchCallsStep(st, args, processEvent, n);
  }

  /**
   * The highest index below `n` whose handler consumes the event, or -1: every entry
   * above it declines.
   */
  function Consumer(st: seq<State>, args: InputArgs, processEvent: (State, InputArgs) -> bool, n: nat): (r: int)
    requires n <= |st|
    ensures -1 <= r < n
    ensures 0 <= r ==> Consumes(st, args, processEvent, r)
    ensures forall j :: r < j < n ==> !Consumes(st, args, processEvent, j)
  {
    if n == 0 then -1
    else if Consumes(st, args, processEvent, n - 1) then n - 1
    else Consumer(st, args, processEvent, n - 1)
  }

  /** The event offered, stamped, to entries n-1, n-2, .., lo, in that order. */
  function OffersDown(st: seq<State>, args: InputArgs, n: nat, lo: nat): seq<Call>
    requires lo <= n <= |st|
  {
    seq(n - lo, j requires 0 <= j < n - lo => ProcessEvent(st[n - 1 - j], Stamped(args, st[n - 1 - j])))
  }

  /**
   * Dispatch offers the event to exactly the entries from the top down to the consumer,
   * each once, and to none below it; when no entry consumes it, every entry is offered
   * it once, top to bottom.
   */
  lemma {:induction false} DispatchOffersDownToConsumer(st: seq<State>, args: InputArgs,
                                                        processEvent: (State, InputArgs) -> bool, n: nat)
    requires n <= |st|
    ensures var k := Consumer(st, args, processEvent, n);
      DispatchCalls(st, args, processEvent, n) == OffersDown(st, args, n, if k >= 0 then k else 0)
  {
    if n > 0 {
      DispatchCallsStep(st, args, processEvent, n);
      if Consumes(st, args, processEvent, n - 1) {
        OffersDownStep(st, args, n, n - 1);
      } else {
        DispatchOffersDownToConsumer(st, args, processEvent, n - 1);
        var k := Consumer(st, args, processEvent, n - 1);
        assert Consumer(st, args, processEvent, n) == k;
        OffersDownStep(st, args, n, if k >= 0 then k else 0);
      }
    }
  }

  /** Offering down from n-1 starts with entry n-1, then goes on from n-2. */
  lemma OffersDownStep(st: seq<State>, args: InputArgs, n: nat, lo: nat)
    requires lo < n <= |st|
    ensures OffersDown(st, args, n, lo)
         == [ProcessEvent(st[n - 1], Stamped(args, st[n - 1]))] + OffersDown(st, args, n - 1, lo)
  {
  }

  /** If the top entry consumes the event, no other entry is offered it. */
  lemma TopConsumesStopsDispatch(st: seq<State>, args: InputArgs, processEvent: (State, InputArgs) -> bool)
    requires st != [] && Consumes(st, args, processEvent, |st| - 1)
    ensures DispatchCalls(st, args, processEvent, |st|)
         == [ProcessEvent(st[|st| - 1], Stamped(args, st[|st| - 1]))]
  {
  }

  /** Each offered event carries the view of the entry it is offered to. */
  lemma OffersCarryOwnView(st: seq<State>, args: InputArgs, processEvent: (State, InputArgs) -> bool, n: nat)
    requires n <= |st|
    ensures forall c :: c in DispatchCalls(st, args, processEvent, n) ==>
      c.ProcessEvent? && c.args == Stamped(args, c.state) && c.args.view == Some(c.state.view)
  {
    DispatchOffersDownToConsumer(st, args, processEvent, n);
  }
}
