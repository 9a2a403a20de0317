/**
 * The dispatcher's table (packages/framework/src/runtime/dispatcher.ts, and the identical
 * older copy src/runtime/dispatcher.ts) as a value: the handler list of every command that
 * has been subscribed to, and the after-command handlers. Handlers are opaque identities;
 * the closures `subscribe` and `registerAfterHandler` return are named by `Unsubscriber`.
 */
module Registry {
  import opened Outcomes
  import opened Sequences

  type Command = string

  /** The identity of a handler function, which `includes`/`indexOf` compare with `===`. */
  type HandlerId = nat

  datatype Table = Table(subscriptions: map<Command, seq<HandlerId>>, afterHandlers: seq<HandlerId>)

  /** The unsubscribe closures: `() => {}`, or removing one handler from the list it was pushed on. */
  datatype Unsubscriber =
    | DoNothing
    | RemoveHandler(command: Command, handler: HandlerId)
    | RemoveAfterHandler(handler: HandlerId)

  /** One call a dispatch makes: a command handler with the payload, or an after-handler with no argument. */
  datatype Invocation<P> = CommandHandlerCall(handler: HandlerId, payload: P) | AfterHandlerCall(handler: HandlerId)

  /** A new dispatcher: no command, no after-handler. */
  function Empty(): (r: Table)
    ensures r.subscriptions.Keys == {} && r.afterHandlers == []
  {
    Table(map[], [])
  }

  /** The handler list of a command; a command never subscribed to has none. */
  function Handlers(t: Table, cmd: Command): seq<HandlerId> {
    if cmd in t.subscriptions then t.subscriptions[cmd] else []
  }

  /**
   * `subscribe(cmd, handler)`: the command gets a list if it had none; a handler already in
   * it is not added again and gets a do-nothing unsubscribe, a new one goes to the end.
   */
  function Subscribe(t: Table, cmd: Command, h: HandlerId): (r: (Table, Unsubscriber))
    ensures r.0.subscriptions.Keys == t.subscriptions.Keys + {cmd}
    ensures h in Handlers(t, cmd) ==> r == (t, DoNothing)
    ensures h !in Handlers(t, cmd) ==> Handlers(r.0, cmd) == Handlers(t, cmd) + [h] && r.1 == RemoveHandler(cmd, h)
    ensures forall c :: c != cmd && c in t.subscriptions ==> r.0.subscriptions[c] == t.subscriptions[c]
    ensures r.0.afterHandlers == t.afterHandlers
  {
    var hs := Handlers(t, cmd);
    if h in hs then (t, DoNothing)
    else (t.(subscriptions := t.subscriptions[cmd := hs + [h]]), RemoveHandler(cmd, h))
  }

  /** `registerAfterHandler(handler)`: appended, duplicates allowed. */
  function RegisterAfterHandler(t: Table, h: HandlerId): (r: (Table, Unsubscriber))
    ensures r.0.subscriptions == t.subscriptions
    ensures r.0.afterHandlers == t.afterHandlers + [h] && r.1 == RemoveAfterHandler(h)
  {
    (t.(afterHandlers := t.afterHandlers + [h]), RemoveAfterHandler(h))
  }

  /** `handlers.splice(handlers.indexOf(h), 1)`. */
  function Drop(hs: seq<HandlerId>, h: HandlerId): (r: seq<HandlerId>)
    ensures h in hs ==> r == RemoveAt(hs, IndexOf(hs, h))
    ensures h !in hs && hs != [] ==> r == RemoveAt(hs, |hs| - 1)
    ensures hs == [] ==> r == []
  {
    SpliceOne(hs, IndexOf(hs, h))
  }

  /** Calling an unsubscribe closure. */
  function Unsubscribe(t: Table, u: Unsubscriber): (r: Table)
    ensures r.subscriptions.Keys == t.subscriptions.Keys
    ensures u.RemoveHandler? ==> forall c :: c != u.command && c in t.subscriptions ==> r.subscriptions[c] == t.subscriptions[c]
    ensures u.RemoveHandler? ==> Handlers(r, u.command) == Drop(Handlers(t, u.command), u.handler)
    ensures !u.RemoveAfterHandler? ==> r.afterHandlers == t.afterHandlers
    ensures !u.RemoveHandler? ==> r.subscriptions == t.subscriptions
    ensures u.RemoveAfterHandler? ==> r.afterHandlers == Drop(t.afterHandlers, u.handler)
    ensures u.DoNothing? ==> r == t
  {
    match u
    case DoNothing => t
    case RemoveHandler(cmd, h) =>
      if cmd in t.subscriptions then t.(subscriptions := t.subscriptions[cmd := Drop(t.subscriptions[cmd], h)]) else t
    case RemoveAfterHandler(h) => t.(afterHandlers := Drop(t.afterHandlers, h))
  }

  /** `handlers.forEach((h) => h(payload))` as the calls it makes. */
  function CommandCalls<P>(hs: seq<HandlerId>, payload: P): (r: seq<Invocation<P>>)
    ensures |r| == |hs|
    ensures forall i :: 0 <= i < |hs| ==> r[i] == CommandHandlerCall(hs[i], payload)
  {
    if hs == [] then [] else CommandCalls(hs[..|hs| - 1], payload) + [CommandHandlerCall(hs[|hs| - 1], payload)]
  }

  /** `afterHandlers.forEach((h) => h())` as the calls it makes. */
  function AfterCalls<P>(hs: seq<HandlerId>): (r: seq<Invocation<P>>)
    ensures |r| == |hs|
    ensures forall i :: 0 <= i < |hs| ==> r[i] == AfterHandlerCall(hs[i])
  {
    if hs == [] then [] else AfterCalls<P>(hs[..|hs| - 1]) + [AfterHandlerCall(hs[|hs| - 1])]
  }

  /**
   * `dispatch(cmd, payload)`: an error for a command that has no list; otherwise every
   * handler of the command with the payload, in order, then every after-handler, in order.
   */
  function Dispatch<P>(t: Table, cmd: Command, payload: P): (r: Outcome<seq<Invocation<P>>>)
    ensures r.Threw? <==> cmd !in t.subscriptions
    ensures r.Threw? ==> r.message == "unknown application command: " + cmd
    ensures r.Done? ==>
              var hs := t.subscriptions[cmd];
              && |r.value| == |hs| + |t.afterHandlers|
              && (forall i :: 0 <= i < |hs| ==> r.value[i] == CommandHandlerCall(hs[i], payload))
              && (forall j :: 0 <= j < |t.afterHandlers| ==> r.value[|hs| + j] == AfterHandlerCall(t.afterHandlers[j]))
  {
    if cmd !in t.subscriptions then Threw("unknown application command: " + cmd)
    else Done(CommandCalls(t.subscriptions[cmd], payload) + AfterCalls(t.afterHandlers))
  }

  /** No command lists a handler twice. */
  ghost predicate NoDuplicateHandlers(t: Table) {
    forall c :: c in t.subscriptions ==> NoDuplicates(t.subscriptions[c])
  }

  /** The first occurrence removed by position: what the list of an unsubscribed handler becomes. */
  lemma DropPresent(hs: seq<HandlerId>, h: HandlerId)
    requires h in hs
    ensures var i := IndexOf(hs, h);
            0 <= i < |hs| && hs[i] == h && Drop(hs, h) == hs[..i] + hs[i + 1..]
    ensures multiset(Drop(hs, h)) == multiset(hs) - multiset{h}
  {
    var i := IndexOf(hs, h);
    assert Drop(hs, h) == RemoveAt(hs, i);
    SkipOneMultiset(hs, i);
  }

  lemma SkipOneMultiset(s: seq<HandlerId>, i: nat)
    requires i < |s|
    ensures multiset(s[..i] + s[i + 1..]) == multiset(s) - multiset{s[i]}
  {
    assert s == s[..i] + [s[i]] + s[i + 1..];
  }

  /** In a list without duplicates, unsubscribing removes the handler and keeps every other one, in order. */
  lemma DropUnique(hs: seq<HandlerId>, h: HandlerId)
    requires h in hs && NoDuplicates(hs)
    ensures h !in Drop(hs, h)
    ensures forall x :: x != h ==> (x in Drop(hs, h) <==> x in hs)
    ensures IsSubsequence(Drop(hs, h), hs) && |Drop(hs, h)| == |hs| - 1
  {
    DropPresent(hs, h);
    NoDuplicatesMultiplicity(hs);
    var i := IndexOf(hs, h);
    assert multiset(hs)[h] == 1;
    assert multiset(Drop(hs, h))[h] == 0;
    forall x | x != h ensures x in Drop(hs, h) <==> x in hs {
      assert multiset(Drop(hs, h))[x] == multiset(hs)[x];
    }
    SkipOneSubsequence(hs, i);
  }

  lemma {:induction false} SkipOneSubsequence(s: seq<HandlerId>, i: nat)
    requires i < |s|
    ensures IsSubsequence(s[..i] + s[i + 1..], s)
    decreases |s|
  {
    if i == 0 {
      assert s[..0] + s[1..] == s[1..];
      IsSubsequenceRefl(s[1..]);
    } else {
      var t := s[..i] + s[i + 1..];
      assert t[0] == s[0];
      assert t[1..] == s[1..][..i - 1] + s[1..][i..];
      SkipOneSubsequence(s[1..], i - 1);
    }
  }

  lemma {:induction false} IsSubsequenceRefl(s: seq<HandlerId>)
    ensures IsSubsequence(s, s)
    decreases |s|
  {
    if s != [] {
      IsSubsequenceRefl(s[1..]);
    }
  }

  /** A stale unsubscribe finds nothing (`indexOf` is -1), and `splice(-1, 1)` drops the last handler. */
  lemma DropAbsent(hs: seq<HandlerId>, h: HandlerId)
    requires h !in hs
    ensures hs != [] ==> Drop(hs, h) == hs[..|hs| - 1]
    ensures hs == [] ==> Drop(hs, h) == []
  {
  }

  /** The table never lists a handler twice under one command. */
  lemma SubscribeKeepsNoDuplicates(t: Table, cmd: Command, h: HandlerId)
    requires NoDuplicateHandlers(t)
    ensures NoDuplicateHandlers(Subscribe(t, cmd, h).0)
  {
    var hs := Handlers(t, cmd);
    if h !in hs {
      var r := Subscribe(t, cmd, h).0;
      forall i, j | 0 <= i < j < |hs + [h]| ensures (hs + [h])[i] != (hs + [h])[j] {
        if j == |hs| {
          assert (hs + [h])[i] == hs[i];
        }
      }
    }
  }

  lemma UnsubscribeKeepsNoDuplicates(t: Table, u: Unsubscriber)
    requires NoDuplicateHandlers(t)
    ensures NoDuplicateHandlers(Unsubscribe(t, u))
  {
    if u.RemoveHandler? && u.command in t.subscriptions {
      SpliceKeepsDistinct(t.subscriptions[u.command], IndexOf(t.subscriptions[u.command], u.handler));
    }
  }

  /** Removing one element, wherever `splice` puts it, keeps a list free of duplicates. */
  lemma SpliceKeepsDistinct(hs: seq<HandlerId>, start: int)
    requires NoDuplicates(hs)
    ensures NoDuplicates(SpliceOne(hs, start))
  {
    if 0 <= start < |hs| {
      RemoveAtKeepsDistinct(hs, start);
    } else if -|hs| <= start < 0 {
      RemoveAtKeepsDistinct(hs, |hs| + start);
    } else if start < -|hs| && hs != [] {
      RemoveAtKeepsDistinct(hs, 0);
    }
  }

  lemma RemoveAtKeepsDistinct(hs: seq<HandlerId>, k: nat)
    requires NoDuplicates(hs) && k < |hs|
    ensures NoDuplicates(RemoveAt(hs, k))
  {
    assert RemoveAt(hs, k) == hs[..k] + hs[k + 1..];
    SkipOneMultiset(hs, k);
    NoDuplicatesSubMultiset(hs, RemoveAt(hs, k));
  }

  lemma RegisterKeepsNoDuplicates(t: Table, h: HandlerId)
    requires NoDuplicateHandlers(t)
    ensures NoDuplicateHandlers(RegisterAfterHandler(t, h).0)
  {
  }

  /** Subscribing the same handler again changes nothing and returns a do-nothing unsubscribe. */
  lemma SubscribeTwice(t: Table, cmd: Command, h: HandlerId)
    ensures var t1 := Subscribe(t, cmd, h).0;
            Subscribe(t1, cmd, h) == (t1, DoNothing)
  {
  }

  /**
   * A fresh unsubscribe removes exactly the handler it was returned for: the command's list
   * is what it was before the subscribe, and the command stays known, so dispatching it
   * still succeeds.
   */
  lemma SubscribeThenUnsubscribe(t: Table, cmd: Command, h: HandlerId)
    requires h !in Handlers(t, cmd)
    ensures var t1 := Subscribe(t, cmd, h).0;
            var u := Subscribe(t, cmd, h).1;
            var t2 := Unsubscribe(t1, u);
            && t2 == t.(subscriptions := t.subscriptions[cmd := Handlers(t, cmd)])
            && (cmd in t.subscriptions ==> t2 == t)
            && cmd in t2.subscriptions
  {
    var hs := Handlers(t, cmd);
    assert IndexOf(hs + [h], h) == |hs| by {
      assert (hs + [h])[|hs|] == h && (hs + [h])[..|hs|] == hs;
    }
    assert (hs + [h])[..|hs|] == hs;
    assert Drop(hs + [h], h) == hs;
    if cmd in t.subscriptions {
      assert t.subscriptions[cmd := hs] == t.subscriptions;
    }
  }

  /**
   * Calling a real unsubscribe a second time is not harmless: the handler is gone, so
   * `indexOf` gives -1 and the last handler of the command's list is removed instead.
   */
  lemma UnsubscribeTwice(t: Table, cmd: Command, h: HandlerId)
    requires NoDuplicateHandlers(t) && h !in Handlers(t, cmd)
    ensures var t1 := Subscribe(t, cmd, h).0;
            var u := Subscribe(t, cmd, h).1;
            var t2 := Unsubscribe(t1, u);
            var hs := Handlers(t, cmd);
            && Unsubscribe(t2, u) == t.(subscriptions := t.subscriptions[cmd := if hs == [] then [] else hs[..|hs| - 1]])
  {
    SubscribeThenUnsubscribe(t, cmd, h);
    DropAbsent(Handlers(t, cmd), h);
  }

  /** An after-handler's unsubscribe, right after registering, restores the list. */
  lemma RegisterThenUnsubscribe(t: Table, h: HandlerId)
    requires h !in t.afterHandlers
    ensures var t1 := RegisterAfterHandler(t, h).0;
            var u := RegisterAfterHandler(t, h).1;
            Unsubscribe(t1, u) == t
  {
    var hs := t.afterHandlers;
    assert IndexOf(hs + [h], h) == |hs| by {
      assert (hs + [h])[|hs|] == h && (hs + [h])[..|hs|] == hs;
    }
    assert (hs + [h])[..|hs|] == hs;
    assert Drop(hs + [h], h) == hs;
  }

  /** Once subscribed to, a command can always be dispatched: unsubscribing never removes a command. */
  lemma KnownCommandsStay<P>(t: Table, u: Unsubscriber, c: Command, h: HandlerId, cmd: Command, payload: P)
    requires Dispatch(t, cmd, payload).Done?
    ensures Dispatch(Unsubscribe(t, u), cmd, payload).Done?
    ensures Dispatch(Subscribe(t, c, h).0, cmd, payload).Done?
    ensures Dispatch(RegisterAfterHandler(t, h).0, cmd, payload).Done?
  {
  }

  /** A handler subscribed and then unsubscribed on a new command is never called; the after-handlers still are. */
  lemma UnsubscribedNotCalled<P>(t: Table, cmd: Command, h: HandlerId, payload: P)
    requires cmd !in t.subscriptions
    ensures var t1 := Subscribe(t, cmd, h).0;
            var u := Subscribe(t, cmd, h).1;
            Dispatch(Unsubscribe(t1, u), cmd, payload) == Done(AfterCalls(t.afterHandlers))
  {
    SubscribeThenUnsubscribe(t, cmd, h);
    var t1 := Subscribe(t, cmd, h).0;
    var u := Subscribe(t, cmd, h).1;
    assert CommandCalls<P>([], payload) + AfterCalls<P>(t.afterHandlers) == AfterCalls<P>(t.afterHandlers);
  }
}
