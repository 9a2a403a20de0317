/**
 * The application shell `createApp` (src/runtime/app.ts): a state, the current virtual
 * tree, the parent element it is shown in, a dispatcher with a re-render after every
 * command, one wrapper per reducer, and the unsubscribers. The pure functions below say
 * what each step does to a snapshot of all of that; the class `App` holds the same data
 * in fields and is proved to follow them.
 */
module AppShell {
  import opened Outcomes
  import opened Sequences
  import opened Host
  import opened VDom
  import opened Trees
  import opened MountDom
  import opened Registry
  import opened Dispatching
  import LegacyDestroyDom
  import DestroyDom
  import MountFacts

  /** `createApp`'s `view` and `reducers` (the reducers in the order `for…in` visits them). */
  datatype Params<!S, !P> = Params(view: S -> VNode, reducers: seq<(Command, (S, P) -> S)>)

  /** The handler identity of `renderApp`. */
  const RenderId: HandlerId := 0

  /** The handler identity of the wrapper of the `i`-th reducer: every wrapper is a new closure. */
  function WrapperId(i: nat): (r: HandlerId)
    ensures r != RenderId
  {
    i + 1
  }

  function Names<S, P>(rs: seq<(Command, (S, P) -> S)>): (r: seq<Command>)
    ensures |r| == |rs| && forall i :: 0 <= i < |rs| ==> r[i] == rs[i].0
  {
    seq(|rs|, i requires 0 <= i < |rs| => rs[i].0)
  }

  /**
   * The dispatcher table and the unsubscribers `createApp` ends up with: `renderApp`
   * registered as an after-handler, then one subscription per reducer, in order.
   */
  function Setup(names: seq<Command>): (r: (Table, seq<Unsubscriber>))
    ensures |r.1| == 1 + |names|
    decreases |names|
  {
    if names == [] then
      var (t, u) := RegisterAfterHandler(Empty(), RenderId);
      (t, [u])
    else
      var (t, us) := Setup(names[..|names| - 1]);
      var (t1, u) := Subscribe(t, names[|names| - 1], WrapperId(|names| - 1));
      (t1, us + [u])
  }

  /** `subscriptions.forEach((unsubscribe) => unsubscribe())`. */
  function UnsubscribeAll(t: Table, us: seq<Unsubscriber>): (r: Table)
    ensures r.subscriptions.Keys == t.subscriptions.Keys
    decreases |us|
  {
    if us == [] then t else Unsubscribe(UnsubscribeAll(t, us[..|us| - 1]), us[|us| - 1])
  }

  /** Everything the closures of one application hold. */
  datatype AppState<S> = AppState(
    state: S,
    vdom: Option<VNode>,
    parentEl: Option<HostId>,
    table: Table,
    unsubscribers: seq<Unsubscriber>,
    dom: Dom)

  /** The document is well formed and the parent, once set, is one of its elements. */
  ghost predicate Ready<S>(s: AppState<S>) {
    Valid(s.dom) && (s.parentEl.Some? ==> IsElement(s.dom, s.parentEl.value))
  }

  /** `if (vdom) destroyDOM(vdom)`, with the older teardown. */
  function Teardown(vdom: Option<VNode>, d: Dom): (r: (Outcome<()>, Dom))
    ensures Valid(d) ==> Valid(r.1)
    ensures KindsKept(d, r.1)
  {
    if vdom.None? then (Done(()), d)
    else
      LegacyDestroyDom.KeepsValid(vdom.value, d);
      var (o, d1) := LegacyDestroyDom.Destroy(vdom.value, d);
      (if o.Threw? then Threw(o.message) else Done(()), d1)
  }

  /**
   * `renderApp()`: the previous tree is destroyed, the view of the current state becomes
   * the tree, and it is mounted when there is a parent.
   */
  function Render<S, P>(ps: Params<S, P>, s: AppState<S>): (r: (Outcome<()>, AppState<S>))
    requires Ready(s)
    ensures Ready(r.1) && KindsKept(s.dom, r.1.dom)
    ensures r.1.state == s.state && r.1.parentEl == s.parentEl
    ensures r.1.table == s.table && r.1.unsubscribers == s.unsubscribers
  {
    var (o, d1) := Teardown(s.vdom, s.dom);
    if o.Threw? then (o, s.(dom := d1))
    else
      var v := ps.view(s.state);
      if s.parentEl.None? then (Done(()), s.(vdom := Some(v), dom := d1))
      else
        var (m, d2) := Mount(v, s.parentEl.value, d1);
        if m.Threw? then (Threw(m.message), s.(vdom := Some(v), dom := d2))
        else (Done(()), s.(vdom := Some(m.value), dom := d2))
  }

  /** One call of a dispatch: a reducer wrapper replaces the state, `renderApp` re-renders. */
  function Step<S, P>(ps: Params<S, P>, s: AppState<S>, call: Invocation<P>): (r: (Outcome<()>, AppState<S>))
    requires Ready(s)
    ensures Ready(r.1) && r.1.table == s.table && r.1.unsubscribers == s.unsubscribers
    ensures r.1.parentEl == s.parentEl
  {
    match call
    case CommandHandlerCall(h, payload) =>
      if 1 <= h <= |ps.reducers| then (Done(()), s.(state := ps.reducers[h - 1].1(s.state, payload)))
      else (Done(()), s)
    case AfterHandlerCall(h) =>
      if h == RenderId then Render(ps, s) else (Done(()), s)
  }

  /** The calls of a dispatch in order; an exception stops the rest. */
  function Run<S, P>(ps: Params<S, P>, s: AppState<S>, calls: seq<Invocation<P>>): (r: (Outcome<()>, AppState<S>))
    requires Ready(s)
    ensures Ready(r.1) && r.1.table == s.table && r.1.unsubscribers == s.unsubscribers
    ensures r.1.parentEl == s.parentEl
    decreases |calls|
  {
    if calls == [] then (Done(()), s)
    else
      var (o, s1) := Run(ps, s, calls[..|calls| - 1]);
      if o.Threw? then (o, s1) else Step(ps, s1, calls[|calls| - 1])
  }

  lemma {:induction false} RunStops<S, P>(ps: Params<S, P>, s: AppState<S>, calls: seq<Invocation<P>>, i: nat)
    requires Ready(s) && i <= |calls| && Run(ps, s, calls[..i]).0.Threw?
    ensures Run(ps, s, calls) == Run(ps, s, calls[..i])
    decreases |calls| - i
  {
    if i < |calls| {
      var t := calls[..i + 1];
      assert t[..|t| - 1] == calls[..i];
      RunStops(ps, s, calls, i + 1);
    } else {
      assert calls[..i] == calls;
    }
  }

  /** `emit(cmd, payload)`: dispatch, then run what it calls. */
  function EmitCommand<S, P>(ps: Params<S, P>, s: AppState<S>, cmd: Command, payload: P): (r: (Outcome<()>, AppState<S>))
    requires Ready(s)
    ensures Ready(r.1) && r.1.table == s.table && r.1.unsubscribers == s.unsubscribers
    ensures r.1.parentEl == s.parentEl
  {
    var calls := Dispatch(s.table, cmd, payload);
    if calls.Threw? then (Threw(calls.message), s) else Run(ps, s, calls.value)
  }

  /** `mount(p)`: remember the parent and render. */
  function MountApp<S, P>(ps: Params<S, P>, s: AppState<S>, p: HostId): (r: (Outcome<()>, AppState<S>))
    requires Ready(s) && IsElement(s.dom, p)
    ensures Ready(r.1) && r.1.parentEl == Some(p) && r.1.state == s.state
  {
    Render(ps, s.(parentEl := Some(p)))
  }

  /** `unmount()`: destroy the tree, forget it, and call every unsubscriber. */
  function UnmountApp<S>(s: AppState<S>): (r: (Outcome<()>, AppState<S>))
    requires Ready(s)
    ensures Ready(r.1) && r.1.state == s.state && r.1.parentEl == s.parentEl
    ensures r.0.Done? ==> r.1.vdom == None && r.1.table == UnsubscribeAll(s.table, s.unsubscribers)
  {
    var (o, d1) := Teardown(s.vdom, s.dom);
    if o.Threw? then (o, s.(dom := d1))
    else (Done(()), s.(vdom := None, dom := d1, table := UnsubscribeAll(s.table, s.unsubscribers)))
  }

  class App<S, P> {
    var state: S
    var vdom: Option<VNode>
    var parentEl: Option<HostId>
    var subscriptions: seq<Unsubscriber>
    const dispatcher: Dispatcher
    const doc: Document
    const params: Params<S, P>

    /** What the application's closures hold right now. */
    function Model(): AppState<S>
      reads this, dispatcher, doc
    {
      AppState(state, vdom, parentEl, dispatcher.State(), subscriptions, doc.dom)
    }

    /** The unsubscribe list holds `renderApp`'s and one per reducer, for the whole life of the application. */
    ghost predicate Valid()
      reads this, dispatcher, doc
    {
      Ready(Model()) && |subscriptions| == 1 + |params.reducers|
    }

    /** `createApp({state, view, reducers})`. */
    constructor (initial: S, ps: Params<S, P>, document: Document)
      requires Host.Valid(document.dom)
      ensures params == ps && doc == document && fresh(dispatcher)
      ensures Model() == AppState(initial, None, None, Setup(Names(ps.reducers)).0, Setup(Names(ps.reducers)).1, document.dom)
      ensures Valid()
    {
      state := initial;
      vdom := None;
      parentEl := None;
      params := ps;
      doc := document;
      var ds := new Dispatcher();
      dispatcher := ds;
      subscriptions := [];
      new;
      var names := Names(ps.reducers);
      var u := dispatcher.RegisterAfterHandler(RenderId);
      subscriptions := [u];
      for i := 0 to |ps.reducers|
        invariant (dispatcher.State(), subscriptions) == Setup(names[..i])
        invariant state == initial && vdom == None && parentEl == None
      {
        assert names[..i + 1][..i] == names[..i];
        var unsubscribe := dispatcher.Subscribe(ps.reducers[i].0, WrapperId(i));
        subscriptions := subscriptions + [unsubscribe];
      }
      assert names[..|ps.reducers|] == names;
    }

    method RenderApp() returns (r: Outcome<()>)
      requires Valid()
      modifies this, doc
      ensures Valid() && (r, Model()) == Render(params, old(Model()))
    {
      if vdom.Some? {
        LegacyDestroyDom.KeepsValid(vdom.value, doc.dom);
        var o := LegacyDestroyDom.DestroyDOM(doc, vdom.value);
        if o.Threw? {
          return Threw(o.message);
        }
      }
      var v := params.view(state);
      vdom := Some(v);
      if parentEl.Some? {
        var m := MountDOM(doc, v, parentEl.value);
        if m.Threw? {
          return Threw(m.message);
        }
        vdom := Some(m.value);
      }
      r := Done(());
    }

    method Emit(cmd: Command, payload: P) returns (r: Outcome<()>)
      requires Valid()
      modifies this, doc
      ensures Valid() && (r, Model()) == EmitCommand(params, old(Model()), cmd, payload)
    {
      var calls := dispatcher.Dispatch(cmd, payload);
      if calls.Threw? {
        return Threw(calls.message);
      }
      r := RunCalls(calls.value);
    }

    /** The handler calls of one dispatch, in order, until one throws. */
    method RunCalls(trace: seq<Invocation<P>>) returns (r: Outcome<()>)
      requires Valid()
      modifies this, doc
      ensures Valid() && (r, Model()) == Run(params, old(Model()), trace)
    {
      for i := 0 to |trace|
        invariant Valid()
        invariant Run(params, old(Model()), trace[..i]) == (Done(()), Model())
      {
        assert trace[..i + 1][..i] == trace[..i];
        var o := Call(trace[i]);
        if o.Threw? {
          RunStops(params, old(Model()), trace, i + 1);
          return o;
        }
      }
      assert trace[..|trace|] == trace;
      r := Done(());
    }

    /** One handler call of a dispatch. */
    method Call(call: Invocation<P>) returns (r: Outcome<()>)
      requires Valid()
      modifies this, doc
      ensures Valid() && (r, Model()) == Step(params, old(Model()), call)
    {
      match call
      case CommandHandlerCall(h, p) =>
        if 1 <= h <= |params.reducers| {
          state := params.reducers[h - 1].1(state, p);
        }
        r := Done(());
      case AfterHandlerCall(h) =>
        if h == RenderId {
          r := RenderApp();
        } else {
          r := Done(());
        }
    }

    method Mount(p: HostId) returns (r: Outcome<()>)
      requires Valid() && IsElement(doc.dom, p)
      modifies this, doc
      ensures Valid() && (r, Model()) == MountApp(params, old(Model()), p)
    {
      parentEl := Some(p);
      r := RenderApp();
    }

    method Unmount() returns (r: Outcome<()>)
      requires Valid()
      modifies this, doc, dispatcher
      ensures Valid() && (r, Model()) == UnmountApp(old(Model()))
    {
      if vdom.Some? {
        LegacyDestroyDom.KeepsValid(vdom.value, doc.dom);
        var o := LegacyDestroyDom.DestroyDOM(doc, vdom.value);
        if o.Threw? {
          return Threw(o.message);
        }
      }
      vdom := None;
      CallUnsubscribers();
      r := Done(());
    }

    /** `subscriptions.forEach((unsubscribe) => unsubscribe())`. */
    method CallUnsubscribers()
      modifies dispatcher
      ensures dispatcher.State() == UnsubscribeAll(old(dispatcher.State()), subscriptions)
    {
      for i := 0 to |subscriptions|
        invariant dispatcher.State() == UnsubscribeAll(old(dispatcher.State()), subscriptions[..i])
      {
        assert subscriptions[..i + 1][..i] == subscriptions[..i];
        dispatcher.Unsubscribe(subscriptions[i]);
      }
      assert subscriptions[..|subscriptions|] == subscriptions;
    }
  }
}
