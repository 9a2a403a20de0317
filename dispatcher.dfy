/**
 * The `Dispatcher` class (packages/framework/src/runtime/dispatcher.ts; the older copy
 * src/runtime/dispatcher.ts behaves the same): a map from commands to handler lists and a
 * list of after-command handlers, updated in place. Every method is proved to move the
 * object's table exactly as the functions of `Registry` say.
 */
module Dispatching {
  import opened Outcomes
  import opened Sequences
  import opened Registry

  class Dispatcher {
    var subscriptions: map<Command, seq<HandlerId>>
    var afterHandlers: seq<HandlerId>

    /** The table this object holds. */
    function State(): Table
      reads this
    {
      Table(subscriptions, afterHandlers)
    }

    constructor()
      ensures State() == Empty()
    {
      subscriptions := map[];
      afterHandlers := [];
    }

    method Subscribe(cmd: Command, handler: HandlerId) returns (unsubscribe: Unsubscriber)
      modifies this
      ensures (State(), unsubscribe) == Registry.Subscribe(old(State()), cmd, handler)
    {
      ghost var before := State();
      if cmd !in subscriptions {
        subscriptions := subscriptions[cmd := []];
      }
      var handlers := subscriptions[cmd];
      assert handlers == Handlers(before, cmd);
      if handler in handlers {
        unsubscribe := DoNothing;
      } else {
        subscriptions := subscriptions[cmd := handlers + [handler]];
        unsubscribe := RemoveHandler(cmd, handler);
        assert subscriptions == before.subscriptions[cmd := handlers + [handler]];
      }
    }

    method RegisterAfterHandler(handler: HandlerId) returns (unsubscribe: Unsubscriber)
      modifies this
      ensures (State(), unsubscribe) == Registry.RegisterAfterHandler(old(State()), handler)
    {
      afterHandlers := afterHandlers + [handler];
      unsubscribe := RemoveAfterHandler(handler);
    }

    /** Calling an unsubscribe closure that this dispatcher returned. */
    method Unsubscribe(unsubscribe: Unsubscriber)
      modifies this
      ensures State() == Registry.Unsubscribe(old(State()), unsubscribe)
    {
      match unsubscribe
      case DoNothing =>
      case RemoveHandler(cmd, h) =>
        if cmd in subscriptions {
          var handlers := subscriptions[cmd];
          var idx := IndexOf(handlers, h);
          subscriptions := subscriptions[cmd := SpliceOne(handlers, idx)];
        }
      case RemoveAfterHandler(h) =>
        var idx := IndexOf(afterHandlers, h);
        afterHandlers := SpliceOne(afterHandlers, idx);
    }

    /** `dispatch(cmd, payload)`: the calls made, in order; the table is left as it is. */
    method Dispatch<P>(cmd: Command, payload: P) returns (r: Outcome<seq<Invocation<P>>>)
      ensures r == Registry.Dispatch(State(), cmd, payload)
    {
      if cmd !in subscriptions {
        return Threw("unknown application command: " + cmd);
      }
      var handlers := subscriptions[cmd];
      var calls: seq<Invocation<P>> := [];
      for i := 0 to |handlers|
        invariant calls == CommandCalls(handlers[..i], payload)
      {
        assert handlers[..i + 1][..i] == handlers[..i];
        calls := calls + [CommandHandlerCall(handlers[i], payload)];
      }
      assert handlers[..|handlers|] == handlers;
      var after: seq<Invocation<P>> := [];
      for j := 0 to |afterHandlers|
        invariant after == AfterCalls(afterHandlers[..j])
      {
        assert afterHandlers[..j + 1][..j] == afterHandlers[..j];
        after := after + [AfterHandlerCall(afterHandlers[j])];
      }
      assert afterHandlers[..|afterHandlers|] == afterHandlers;
      r := Done(calls + after);
    }
  }
}
