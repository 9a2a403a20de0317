/**
 * The older teardown (src/runtime/destroy-dom.ts). It detaches the same host nodes and
 * removes the same listeners as the newer copy, but it never deletes `el`, so a destroyed
 * node still looks mounted.
 */
module LegacyDestroyDom {
  import opened Outcomes
  import opened Host
  import opened VDom
  import opened Trees
  import opened MountDom
  import DestroyDom

  const UnknownType := "unknown type - can't be destroyed"

  /** The older `destroyDOM(vdom)`: the tree with listener records deleted and every `el` kept. */
  function Destroy(v: VNode, d: Dom): (r: (Outcome<VNode>, Dom))
    ensures r.1.nextId == d.nextId && r.1.nodes.Keys == d.nodes.Keys
    ensures r.0.Done? ==> r.0.value.el == v.el
    decreases Size(v), 1
  {
    if v.el.None? then (Done(v), d)
    else
      match v
      case VText(_, el) => (Done(v), Remove(d, el.value))
      case VFragment(cs, el) =>
        var (m, d1) := DestroyAll(cs, d);
        if m.Threw? then (Threw(m.message), d1)
        else (Done(VFragment(m.value, el)), d1)
      case VElement(tag, props, cs, el, ls) =>
        var (m, d1) := DestroyAll(cs, d);
        if m.Threw? then (Threw(m.message), d1)
        else
          var d2 := if ls.Some? then WithoutListeners(d1, el.value, ls.value) else d1;
          (Done(VElement(tag, props, m.value, el, None)), Remove(d2, el.value))
      case VOther(_, _) => (Threw(UnknownType), d)
  }

  function DestroyAll(cs: seq<VNode>, d: Dom): (r: (Outcome<seq<VNode>>, Dom))
    ensures r.1.nextId == d.nextId && r.1.nodes.Keys == d.nodes.Keys
    ensures r.0.Done? ==> |r.0.value| == |cs|
    decreases SizeAll(cs), 2
  {
    if cs == [] then (Done([]), d)
    else
      var (m, d1) := DestroyAll(cs[..|cs| - 1], d);
      if m.Threw? then (m, d1)
      else
        var (c, d2) := Destroy(cs[|cs| - 1], d1);
        if c.Threw? then (Threw(c.message), d2)
        else (Done(m.value + [c.value]), d2)
  }

  lemma {:induction false} DestroyAllStops(cs: seq<VNode>, i: nat, d: Dom)
    requires i <= |cs| && DestroyAll(cs[..i], d).0.Threw?
    ensures DestroyAll(cs, d) == DestroyAll(cs[..i], d)
    decreases |cs| - i
  {
    if i < |cs| {
      var t := cs[..i + 1];
      assert t[..|t| - 1] == cs[..i];
      assert DestroyAll(t, d) == DestroyAll(cs[..i], d);
      DestroyAllStops(cs, i + 1, d);
    } else {
      assert cs[..i] == cs;
    }
  }

  method DestroyDOM(doc: Document, vdom: VNode) returns (r: Outcome<VNode>)
    modifies doc
    ensures (r, doc.dom) == Destroy(vdom, old(doc.dom))
    decreases Size(vdom), 1
  {
    if vdom.el == None {
      return Done(vdom);
    }
    match vdom
    case VText(_, el) =>
      doc.RemoveNode(el.value);
      r := Done(vdom);
    case VFragment(cs, el) =>
      var children := DestroyChildren(doc, cs);
      if children.Threw? {
        return Threw(children.message);
      }
      r := Done(VFragment(children.value, el));
    case VElement(tag, props, cs, el, ls) =>
      var children := DestroyChildren(doc, cs);
      if children.Threw? {
        return Threw(children.message);
      }
      if ls.Some? {
        RemoveEventListeners(doc, ls.value, el.value);
      }
      doc.RemoveNode(el.value);
      r := Done(VElement(tag, props, children.value, el, None));
    case VOther(_, _) =>
      r := Threw(UnknownType);
  }

  method DestroyChildren(doc: Document, children: seq<VNode>) returns (r: Outcome<seq<VNode>>)
    modifies doc
    ensures (r, doc.dom) == DestroyAll(children, old(doc.dom))
    decreases SizeAll(children), 2
  {
    var destroyed := [];
    for i := 0 to |children|
      invariant DestroyAll(children[..i], old(doc.dom)) == (Done(destroyed), doc.dom)
    {
      assert children[..i + 1][..i] == children[..i];
      SizeAllBound(children, i);
      var c := DestroyDOM(doc, children[i]);
      if c.Threw? {
        DestroyAllStops(children, i + 1, old(doc.dom));
        return Threw(c.message);
      }
      destroyed := destroyed + [c.value];
    }
    assert children[..|children|] == children;
    r := Done(destroyed);
  }

  /**
   * The older teardown changes the document exactly as the newer one does, and fails on
   * the same trees (only the message differs); it differs only in the tree it hands back.
   */
  lemma {:induction false} SameDocument(v: VNode, d: Dom)
    ensures Destroy(v, d).1 == DestroyDom.Destroy(v, d).1
    ensures Destroy(v, d).0.Threw? <==> DestroyDom.Destroy(v, d).0.Threw?
    ensures Destroy(v, d).0.Threw? && v.el.Some? ==> Destroy(v, d).0.message == UnknownType
    ensures DestroyDom.Destroy(v, d).0.Threw? && v.el.Some? ==> DestroyDom.Destroy(v, d).0.message == UnhandledType
    decreases Size(v), 1
  {
    if v.el.Some? && (v.VFragment? || v.VElement?) {
      SameDocumentAll(v.children, d);
    }
  }

  lemma {:induction false} SameDocumentAll(cs: seq<VNode>, d: Dom)
    ensures DestroyAll(cs, d).1 == DestroyDom.DestroyAll(cs, d).1
    ensures DestroyAll(cs, d).0.Threw? <==> DestroyDom.DestroyAll(cs, d).0.Threw?
    ensures DestroyAll(cs, d).0.Threw? ==> DestroyAll(cs, d).0.message == UnknownType
    ensures DestroyDom.DestroyAll(cs, d).0.Threw? ==> DestroyDom.DestroyAll(cs, d).0.message == UnhandledType
    decreases SizeAll(cs), 2
  {
    if cs != [] {
      SameDocumentAll(cs[..|cs| - 1], d);
      SameDocument(cs[|cs| - 1], DestroyAll(cs[..|cs| - 1], d).1);
    }
  }

  /**
   * Destroying a mounted text node keeps its link in the older copy, whereas the newer
   * copy deletes it: after the older teardown the node still claims a host node that
   * has left the document tree.
   */
  lemma TextKeepsLink(value: string, p: HostId, d: Dom)
    requires Valid(d) && IsElement(d, p)
    ensures var m := Mount(VText(value, None), p, d).0;
            var d1 := Mount(VText(value, None), p, d).1;
            && m == Done(VText(value, Some(d.nextId)))
            && Destroy(m.value, d1).0 == Done(VText(value, Some(d.nextId)))
            && Destroy(m.value, d1).1.nodes[d.nextId].parent == None
            && DestroyDom.Destroy(m.value, d1).0 == Done(VText(value, None))
  {
  }

  /** The teardown keeps a well-formed document well-formed and keeps every node's kind. */
  lemma {:induction false} KeepsValid(v: VNode, d: Dom)
    ensures Valid(d) ==> Valid(Destroy(v, d).1)
    ensures KindsKept(d, Destroy(v, d).1)
    decreases Size(v), 1
  {
    if v.el.Some? && (v.VFragment? || v.VElement?) {
      KeepsValidAll(v.children, d);
      if v.VElement? && v.listeners.Some? {
        WithoutListenersKeepsValid(DestroyAll(v.children, d).1, v.el.value, v.listeners.value);
      }
    }
  }

  lemma {:induction false} KeepsValidAll(cs: seq<VNode>, d: Dom)
    ensures Valid(d) ==> Valid(DestroyAll(cs, d).1)
    ensures KindsKept(d, DestroyAll(cs, d).1)
    decreases SizeAll(cs), 2
  {
    if cs != [] {
      KeepsValidAll(cs[..|cs| - 1], d);
      KeepsValid(cs[|cs| - 1], DestroyAll(cs[..|cs| - 1], d).1);
    }
  }

  /**
   * The older teardown keeps every link of the tree: the result owns the same host nodes,
   * places the same ones under the parent and has the same shape; only the listener records go.
   */
  lemma {:induction false} KeepsLinks(v: VNode, d: Dom)
    ensures var r := Destroy(v, d).0;
            r.Done? ==> Ids(r.value) == Ids(v) && TopIds(r.value) == TopIds(v) && Strip(r.value) == Strip(v)
    decreases Size(v), 1
  {
    if v.el.Some? && (v.VFragment? || v.VElement?) {
      KeepsLinksAll(v.children, d);
    }
  }

  lemma {:induction false} KeepsLinksAll(cs: seq<VNode>, d: Dom)
    ensures var r := DestroyAll(cs, d).0;
            r.Done? ==> IdsAll(r.value) == IdsAll(cs) && TopIdsAll(r.value) == TopIdsAll(cs) && StripAll(r.value) == StripAll(cs)
    decreases SizeAll(cs), 2
  {
    if cs != [] {
      var pre, last := cs[..|cs| - 1], cs[|cs| - 1];
      KeepsLinksAll(pre, d);
      var (m, d1) := DestroyAll(pre, d);
      if m.Done? {
        KeepsLinks(last, d1);
        var c := Destroy(last, d1).0;
        if c.Done? {
          assert DestroyAll(cs, d).0 == Done(m.value + [c.value]);
          SameLinksSnoc(m.value, c.value, pre, last);
          assert pre + [last] == cs;
        }
      }
    }
  }

  /** Lists with the same links stay so when trees with the same links are appended. */
  lemma SameLinksSnoc(a: seq<VNode>, x: VNode, b: seq<VNode>, y: VNode)
    requires IdsAll(a) == IdsAll(b) && TopIdsAll(a) == TopIdsAll(b) && StripAll(a) == StripAll(b)
    requires Ids(x) == Ids(y) && TopIds(x) == TopIds(y) && Strip(x) == Strip(y)
    ensures IdsAll(a + [x]) == IdsAll(b + [y]) && TopIdsAll(a + [x]) == TopIdsAll(b + [y])
    ensures StripAll(a + [x]) == StripAll(b + [y])
  {
    SnocIds(a, x);
    SnocIds(b, y);
    var ax, bx := a + [x], b + [y];
    assert ax[..|ax| - 1] == a && ax[|ax| - 1] == x;
    assert bx[..|bx| - 1] == b && bx[|bx| - 1] == y;
  }
}
