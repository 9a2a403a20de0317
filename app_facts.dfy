/**
 * What the application shell (src/runtime/app.ts) promises, stated about the functions of
 * `AppShell`: how it is wired at creation, what an emitted command does, what mounting
 * shows, and that unmounting silences every reducer.
 */
module AppFacts {
  import opened Outcomes
  import opened Sequences
  import opened Host
  import opened VDom
  import opened Trees
  import opened MountDom
  import opened Registry
  import opened AppShell
  import LegacyDestroyDom
  import DestroyDom
  import MountFacts

  /** `t` is the table `createApp` builds for reducers named `names`. */
  ghost predicate Wired(t: Table, names: seq<Command>) {
    && t.subscriptions.Keys == Elements(names)
    && (forall i :: 0 <= i < |names| ==> names[i] in t.subscriptions && t.subscriptions[names[i]] == [WrapperId(i)])
    && t.afterHandlers == [RenderId]
  }

  /** `us` are the unsubscribers `createApp` keeps for reducers named `names`. */
  ghost predicate WiredUnsubscribers(us: seq<Unsubscriber>, names: seq<Command>) {
    && |us| == 1 + |names|
    && us[0] == RemoveAfterHandler(RenderId)
    && (forall i :: 0 <= i < |names| ==> us[i + 1] == RemoveHandler(names[i], WrapperId(i)))
  }

  /**
   * After `createApp`, every reducer's command has exactly its own wrapper, `renderApp` is
   * the only after-handler, and the unsubscribers are `renderApp`'s followed by one per
   * reducer, in order.
   */
  lemma {:induction false} SetupShape(names: seq<Command>)
    requires NoDuplicates(names)
    ensures Wired(Setup(names).0, names) && WiredUnsubscribers(Setup(names).1, names)
    decreases |names|
  {
    if names != [] {
      var n := |names| - 1;
      var pre := names[..n];
      assert NoDuplicates(pre) by {
        forall i, j | 0 <= i < j < |pre| ensures pre[i] != pre[j] {
          assert pre[i] == names[i] && pre[j] == names[j];
        }
      }
      SetupShape(pre);
      SetupNext(names);
    }
  }

  /** Subscribing the last reducer's wrapper extends the wiring of the others. */
  lemma SetupNext(names: seq<Command>)
    requires NoDuplicates(names) && names != []
    requires Wired(Setup(names[..|names| - 1]).0, names[..|names| - 1])
    requires WiredUnsubscribers(Setup(names[..|names| - 1]).1, names[..|names| - 1])
    ensures Wired(Setup(names).0, names) && WiredUnsubscribers(Setup(names).1, names)
  {
    var n := |names| - 1;
    var pre := names[..n];
    var t, us := Setup(pre).0, Setup(pre).1;
    NotInPrefix(names, n);
    assert names[n] !in t.subscriptions;
    SubscribeFresh(t, names[n], WrapperId(n));
    var t1 := t.(subscriptions := t.subscriptions[names[n] := [WrapperId(n)]]);
    var u := RemoveHandler(names[n], WrapperId(n));
    SetupUnfold(names, t1, u);
    NextWired(names, t, t1);
    NextUnsubscribers(names, us, u);
  }

  /** One more reducer adds its subscription and its unsubscriber to those of the others. */
  lemma SetupUnfold(names: seq<Command>, t1: Table, u: Unsubscriber)
    requires names != []
    requires Subscribe(Setup(names[..|names| - 1]).0, names[|names| - 1], WrapperId(|names| - 1)) == (t1, u)
    ensures Setup(names) == (t1, Setup(names[..|names| - 1]).1 + [u])
  {
  }

  /** Subscribing to a command with no list gives it a list of one handler. */
  lemma SubscribeFresh(t: Table, cmd: Command, h: HandlerId)
    requires cmd !in t.subscriptions
    ensures Subscribe(t, cmd, h) == (t.(subscriptions := t.subscriptions[cmd := [h]]), RemoveHandler(cmd, h))
  {
    assert Handlers(t, cmd) + [h] == [h];
  }

  lemma NextWired(names: seq<Command>, t: Table, t1: Table)
    requires NoDuplicates(names) && names != []
    requires Wired(t, names[..|names| - 1])
    requires t1.subscriptions == t.subscriptions[names[|names| - 1] := [WrapperId(|names| - 1)]]
    requires t1.afterHandlers == t.afterHandlers
    ensures Wired(t1, names)
  {
    var n := |names| - 1;
    forall i | 0 <= i < n ensures names[i] in t1.subscriptions && t1.subscriptions[names[i]] == [WrapperId(i)] {
      assert names[i] == names[..n][i];
    }
    assert names == names[..n] + [names[n]];
    assert Elements(names) == Elements(names[..n]) + {names[n]};
  }

  lemma NextUnsubscribers(names: seq<Command>, us: seq<Unsubscriber>, u: Unsubscriber)
    requires names != []
    requires WiredUnsubscribers(us, names[..|names| - 1])
    requires u == RemoveHandler(names[|names| - 1], WrapperId(|names| - 1))
    ensures WiredUnsubscribers(us + [u], names)
  {
    var n := |names| - 1;
    forall i | 0 <= i < n ensures (us + [u])[i + 1] == RemoveHandler(names[i], WrapperId(i)) {
      assert names[i] == names[..n][i];
    }
  }

  lemma NotInPrefix(names: seq<Command>, n: nat)
    requires NoDuplicates(names) && n < |names|
    ensures names[n] !in names[..n]
  {
    forall k | 0 <= k < n ensures names[..n][k] != names[n] {
      assert names[..n][k] == names[k];
    }
  }

  /**
   * Emitting a reducer's command runs that reducer's wrapper, which replaces the state with
   * `reducer(state, payload)`, and then re-renders.
   */
  lemma ReducerEmit<S, P>(ps: Params<S, P>, s: AppState<S>, i: nat, payload: P)
    requires Wired(s.table, Names(ps.reducers)) && Ready(s)
    requires i < |ps.reducers|
    ensures EmitCommand(ps, s, ps.reducers[i].0, payload) == Render(ps, s.(state := ps.reducers[i].1(s.state, payload)))
  {
    var names := Names(ps.reducers);
    WiredDispatch(s.table, names, i, payload);
    ReducerThenRender(ps, s, i, payload);
  }

  /** Dispatching the `i`-th reducer's command calls its wrapper and then `renderApp`. */
  lemma WiredDispatch<P>(t: Table, names: seq<Command>, i: nat, payload: P)
    requires Wired(t, names) && i < |names|
    ensures Dispatch(t, names[i], payload) == Done([CommandHandlerCall(WrapperId(i), payload), AfterHandlerCall(RenderId)])
  {
    var hs := t.subscriptions[names[i]];
    assert hs == [WrapperId(i)];
    var a := CommandHandlerCall(WrapperId(i), payload);
    var b: Invocation<P> := AfterHandlerCall(RenderId);
    assert CommandCalls(hs, payload) == [a] by {
      assert hs[..0] == [];
    }
    assert AfterCalls<P>(t.afterHandlers) == [b] by {
      assert t.afterHandlers[..0] == [];
    }
    assert [a] + [b] == [a, b];
  }

  /** Running the `i`-th wrapper and then `renderApp` renders the reduced state. */
  lemma ReducerThenRender<S, P>(ps: Params<S, P>, s: AppState<S>, i: nat, payload: P)
    requires Ready(s) && i < |ps.reducers|
    ensures Run(ps, s, [CommandHandlerCall(WrapperId(i), payload), AfterHandlerCall(RenderId)])
            == Render(ps, s.(state := ps.reducers[i].1(s.state, payload)))
  {
    var a := CommandHandlerCall(WrapperId(i), payload);
    var b: Invocation<P> := AfterHandlerCall(RenderId);
    var calls := [a, b];
    var s1 := s.(state := ps.reducers[i].1(s.state, payload));
    assert calls[..1] == [a];
    assert [a][..0] == [];
    assert Run(ps, s, calls[..1]) == (Done(()), s1);
  }

  /** Emitting a command that no reducer handles fails, because dispatching it throws, and changes nothing. */
  lemma UnknownEmit<S, P>(ps: Params<S, P>, s: AppState<S>, cmd: Command, payload: P)
    requires s.table.subscriptions.Keys == Elements(Names(ps.reducers)) && Ready(s) && cmd !in Names(ps.reducers)
    ensures EmitCommand(ps, s, cmd, payload) == (Threw("unknown application command: " + cmd), s)
  {
  }

  /**
   * Mounting an application that shows nothing yet (no tree, or a tree an `emit` before
   * `mount` rendered without a parent, as RenderDetached shows) mounts the view of its
   * state under the parent: the parent gains exactly the view's top host nodes, nothing
   * else that existed changes, and the tree kept is the view with its host links.
   */
  lemma MountShowsView<S, P>(ps: Params<S, P>, s: AppState<S>, p: HostId)
    requires Ready(s) && (s.vdom.Some? ==> s.vdom.value.el == None)
    requires IsElement(s.dom, p) && !HasOther(ps.view(s.state))
    ensures var o := MountApp(ps, s, p).0;
            var s1 := MountApp(ps, s, p).1;
            && o == Done(())
            && s1.vdom.Some?
            && MountFacts.MountedUnder(s1.vdom.value, p, s.dom, s1.dom)
            && Strip(s1.vdom.value) == Strip(ps.view(s.state))
  {
    var v := ps.view(s.state);
    MountFacts.MountThrows(v, p, s.dom);
    MountFacts.MountEffect(v, p, s.dom);
    MountFacts.MountKeepsShape(v, p, s.dom);
  }

  /**
   * Re-rendering a mounted application replaces the old tree by the view of the current
   * state: the parent loses the old tree's top host nodes and gains the new tree's, at the
   * end, and when it held only the old tree it now holds exactly the new one.
   */
  lemma RerenderReplaces<S, P>(ps: Params<S, P>, s: AppState<S>, p: HostId)
    requires Ready(s) && s.parentEl == Some(p) && s.vdom.Some?
    requires LinkedUnder(s.vdom.value, p, s.dom) && Tidy(s.vdom.value) && p !in Ids(s.vdom.value)
    requires !HasOther(ps.view(s.state))
    ensures var o := Render(ps, s).0;
            var s1 := Render(ps, s).1;
            var old_top := TopIds(s.vdom.value);
            && o == Done(())
            && s1.vdom.Some?
            && Strip(s1.vdom.value) == Strip(ps.view(s.state))
            && LinkedUnder(s1.vdom.value, p, s1.dom) && Tidy(s1.vdom.value) && p !in Ids(s1.vdom.value)
            && s1.dom.nodes[p].childNodes == Without(s.dom.nodes[p].childNodes, Elements(old_top)) + TopIds(s1.vdom.value)
            && (s.dom.nodes[p].childNodes == old_top ==> s1.dom.nodes[p].childNodes == TopIds(s1.vdom.value))
  {
    var m := s.vdom.value;
    var d := s.dom;
    LegacyDestroyDom.SameDocument(m, d);
    DestroyDom.DestroyEffect(m, p, d);
    LegacyDestroyDom.KeepsValid(m, d);
    var d1 := DestroyDom.Destroy(m, d).1;
    var v := ps.view(s.state);
    MountFacts.MountThrows(v, p, d1);
    MountFacts.MountEffect(v, p, d1);
    MountFacts.MountKeepsShape(v, p, d1);
    if d.nodes[p].childNodes == TopIds(m) {
      WithoutAll(TopIds(m), Elements(TopIds(m)));
      var mv := Mount(v, p, d1).0.value;
      assert [] + TopIds(mv) == TopIds(mv);
    }
  }

  /** Every reducer's command is still known, with no handler, and no after-handler is left. */
  function Silenced(names: seq<Command>): (r: Table)
    ensures r.subscriptions.Keys == Elements(names) && r.afterHandlers == []
  {
    Table(map c | c in Elements(names) :: [], [])
  }

  /** The handler lists of `m`, with those of the commands in `xs` emptied. */
  function Cleared(m: map<Command, seq<HandlerId>>, xs: seq<Command>): map<Command, seq<HandlerId>> {
    map c | c in m :: if c in xs then [] else m[c]
  }

  /** Calling `createApp`'s unsubscribers in order silences every command it subscribed to. */
  lemma UnsubscribeWired(t: Table, us: seq<Unsubscriber>, names: seq<Command>)
    requires NoDuplicates(names) && Wired(t, names) && WiredUnsubscribers(us, names)
    ensures UnsubscribeAll(t, us) == Silenced(names)
  {
    UnsubscribePrefix(t, us, names, |names|);
    assert us[..|names| + 1] == us;
    assert names[..|names|] == names;
    ClearedAll(t.subscriptions, names);
  }

  /** Emptying the list of every command a map has leaves the silenced map. */
  lemma ClearedAll(m: map<Command, seq<HandlerId>>, names: seq<Command>)
    requires m.Keys == Elements(names)
    ensures Cleared(m, names) == Silenced(names).subscriptions
  {
  }

  lemma {:induction false} UnsubscribePrefix(t: Table, us: seq<Unsubscriber>, names: seq<Command>, j: nat)
    requires NoDuplicates(names) && Wired(t, names) && WiredUnsubscribers(us, names) && j <= |names|
    ensures UnsubscribeAll(t, us[..j + 1]) == Table(Cleared(t.subscriptions, names[..j]), [])
    decreases j
  {
    if j == 0 {
      UnsubscribeFirst(t, us, names);
    } else {
      UnsubscribePrefix(t, us, names, j - 1);
      UnsubscribeNext(t, us, names, j - 1);
    }
  }

  /** The first unsubscriber removes the re-render handler, which leaves the after-handlers empty. */
  lemma UnsubscribeFirst(t: Table, us: seq<Unsubscriber>, names: seq<Command>)
    requires NoDuplicates(names) && Wired(t, names) && WiredUnsubscribers(us, names)
    ensures UnsubscribeAll(t, us[..1]) == Table(Cleared(t.subscriptions, names[..0]), [])
  {
    var u1 := us[..1];
    assert u1[..0] == [] && u1[0] == RemoveAfterHandler(RenderId);
    assert Drop([RenderId], RenderId) == [];
    assert Cleared(t.subscriptions, names[..0]) == t.subscriptions;
  }

  /** The unsubscriber of the `k`-th reducer empties that reducer's list and nothing else. */
  lemma UnsubscribeNext(t: Table, us: seq<Unsubscriber>, names: seq<Command>, k: nat)
    requires NoDuplicates(names) && Wired(t, names) && WiredUnsubscribers(us, names) && k < |names|
    requires UnsubscribeAll(t, us[..k + 1]) == Table(Cleared(t.subscriptions, names[..k]), [])
    ensures UnsubscribeAll(t, us[..k + 2]) == Table(Cleared(t.subscriptions, names[..k + 1]), [])
  {
    var uj := us[..k + 2];
    assert uj[..k + 1] == us[..k + 1] && uj[k + 1] == RemoveHandler(names[k], WrapperId(k));
    assert names[k] !in names[..k] by {
      NotInPrefix(names, k);
    }
    ClearNext(t.subscriptions, names, k, WrapperId(k));
  }

  /** Removing the only handler of the `k`-th command clears one more command. */
  lemma ClearNext(m: map<Command, seq<HandlerId>>, names: seq<Command>, k: nat, h: HandlerId)
    requires k < |names| && names[k] in m && m[names[k]] == [h] && names[k] !in names[..k]
    ensures Unsubscribe(Table(Cleared(m, names[..k]), []), RemoveHandler(names[k], h)) == Table(Cleared(m, names[..k + 1]), [])
  {
    var c := Cleared(m, names[..k]);
    assert c[names[k]] == [h];
    assert Drop([h], h) == [];
    ClearedPrefix(m, names, k);
  }

  lemma ClearedPrefix(m: map<Command, seq<HandlerId>>, names: seq<Command>, k: nat)
    requires k < |names|
    ensures Cleared(m, names[..k])[names[k] := []] == Cleared(m, names[..k + 1]) || names[k] !in m
  {
    assert names[..k + 1] == names[..k] + [names[k]];
  }

  /** A silenced table stays silenced whatever unsubscribers are called on it. */
  lemma {:induction false} UnsubscribeSilenced(names: seq<Command>, us: seq<Unsubscriber>)
    ensures UnsubscribeAll(Silenced(names), us) == Silenced(names)
    decreases |us|
  {
    if us != [] {
      UnsubscribeSilenced(names, us[..|us| - 1]);
      var u := us[|us| - 1];
      var t := Silenced(names);
      if u.RemoveHandler? && u.command in t.subscriptions {
        assert t.subscriptions[u.command := []] == t.subscriptions;
      }
    }
  }

  /**
   * After `unmount`, the tree is gone, and a reducer's command can still be emitted
   * but runs no reducer and no re-render; a second `unmount` changes nothing.
   */
  lemma UnmountSilences<S, P>(ps: Params<S, P>, s: AppState<S>, cmd: Command, payload: P)
    requires NoDuplicates(Names(ps.reducers)) && Ready(s)
    requires Wired(s.table, Names(ps.reducers)) && WiredUnsubscribers(s.unsubscribers, Names(ps.reducers))
    requires UnmountApp(s).0.Done?
    ensures var s1 := UnmountApp(s).1;
            && s1.vdom == None
            && s1.table == Silenced(Names(ps.reducers))
            && (cmd in Names(ps.reducers) ==> EmitCommand(ps, s1, cmd, payload) == (Done(()), s1))
            && (cmd !in Names(ps.reducers) ==> EmitCommand(ps, s1, cmd, payload).0.Threw?)
            && UnmountApp(s1) == (Done(()), s1)
  {
    var names := Names(ps.reducers);
    UnsubscribeWired(s.table, s.unsubscribers, names);
    var s1 := UnmountApp(s).1;
    UnsubscribeSilenced(names, s1.unsubscribers);
    var none: seq<Invocation<P>> := [];
    assert CommandCalls([], payload) + AfterCalls<P>([]) == none;
    assert s1.(table := Silenced(names)) == s1;
  }

  /**
   * `renderApp` before `mount`: with no parent the view of the state becomes the tree
   * as the view built it, nothing is mounted, and the document is left as it was.
   */
  lemma RenderDetached<S, P>(ps: Params<S, P>, s: AppState<S>)
    requires Ready(s) && s.parentEl == None && (s.vdom.Some? ==> s.vdom.value.el == None)
    ensures Render(ps, s) == (Done(()), s.(vdom := Some(ps.view(s.state))))
  {
  }

  /**
   * `unmount()` of an application whose tree is mounted under `p` succeeds and takes the
   * tree's top host nodes out of `p`; a parent that held only the application is left empty.
   */
  lemma UnmountClears<S>(s: AppState<S>, p: HostId)
    requires Ready(s) && s.vdom.Some? && p in s.dom.nodes
    requires LinkedUnder(s.vdom.value, p, s.dom) && Tidy(s.vdom.value) && p !in Ids(s.vdom.value)
    ensures UnmountApp(s).0.Done?
    ensures DestroyDom.UnmountedFrom(s.vdom.value, p, s.dom, UnmountApp(s).1.dom)
    ensures UnmountApp(s).1.dom.nodes[p].childNodes ==
              Without(s.dom.nodes[p].childNodes, Elements(TopIds(s.vdom.value)))
    ensures s.dom.nodes[p].childNodes == TopIds(s.vdom.value) ==> UnmountApp(s).1.dom.nodes[p].childNodes == []
  {
    var v := s.vdom.value;
    LegacyDestroyDom.SameDocument(v, s.dom);
    DestroyDom.DestroyEffect(v, p, s.dom);
    if s.dom.nodes[p].childNodes == TopIds(v) {
      WithoutAll(TopIds(v), Elements(TopIds(v)));
    }
  }

  /**
   * Mounting a freshly created application and then unmounting it succeeds, silences
   * every reducer and gives every node that existed before back exactly as it was, so a
   * parent that was empty is empty again.
   */
  lemma MountThenUnmount<S, P>(ps: Params<S, P>, s: AppState<S>, p: HostId)
    requires Ready(s) && (s.vdom.Some? ==> s.vdom.value.el == None)
    requires IsElement(s.dom, p) && !HasOther(ps.view(s.state))
    requires NoDuplicates(Names(ps.reducers))
    requires Wired(s.table, Names(ps.reducers)) && WiredUnsubscribers(s.unsubscribers, Names(ps.reducers))
    ensures var s1 := MountApp(ps, s, p).1;
            var r := UnmountApp(s1);
            && r.0 == Done(())
            && r.1.vdom == None && r.1.table == Silenced(Names(ps.reducers))
            && (forall q :: q in s.dom.nodes ==> q in r.1.dom.nodes && r.1.dom.nodes[q] == s.dom.nodes[q])
            && (s.dom.nodes[p].childNodes == [] ==> r.1.dom.nodes[p].childNodes == [])
  {
    MountShowsView(ps, s, p);
    var s1 := MountApp(ps, s, p).1;
    var v := s1.vdom.value;
    assert p !in Ids(v);
    UnmountClears(s1, p);
    DestroyDom.Restored(v, p, s.dom, s1.dom, UnmountApp(s1).1.dom);
    UnsubscribeWired(s1.table, s1.unsubscribers, Names(ps.reducers));
  }
}
