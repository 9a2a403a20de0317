/**
 * Destroying a mounted virtual tree (packages/framework/src/runtime/destroy-dom.ts): its
 * host nodes leave the document, the listeners it registered are removed, and the tree
 * loses its host links. A node without a link is left alone.
 */
module DestroyDom {
  import opened Outcomes
  import opened Sequences
  import opened Host
  import opened VDom
  import opened Trees
  import opened MountDom
  import opened MountFacts

  /** `destroyDOM(vdom)`: the tree with its links deleted (or the error) and the new document. */
  function Destroy(v: VNode, d: Dom): (r: (Outcome<VNode>, Dom))
    ensures r.1.nextId == d.nextId && r.1.nodes.Keys == d.nodes.Keys
    decreases Size(v), 1
  {
    if v.el.None? then (Done(v), d)
    else
      match v
      case VText(value, el) => (Done(VText(value, None)), Remove(d, el.value))
      case VFragment(cs, _) =>
        var (m, d1) := DestroyAll(cs, d);
        if m.Threw? then (Threw(m.message), d1)
        else (Done(VFragment(m.value, None)), d1)
      case VElement(tag, props, cs, el, ls) =>
        var (m, d1) := DestroyAll(cs, d);
        if m.Threw? then (Threw(m.message), d1)
        else
          var d2 := if ls.Some? then WithoutListeners(d1, el.value, ls.value) else d1;
          (Done(VElement(tag, props, m.value, None, None)), Remove(d2, el.value))
      case VOther(_, _) => (Threw(UnhandledType), d)
  }

  /** `children.forEach(destroyDOM)`, stopping at the first error. */
  function DestroyAll(cs: seq<VNode>, d: Dom): (r: (Outcome<seq<VNode>>, Dom))
    ensures r.1.nextId == d.nextId && r.1.nodes.Keys == d.nodes.Keys
    ensures r.0.Done? ==> |r.0.value| == |cs|
    decreases SizeAll(cs), 2
  {
    if cs == [] then (Done([]), d)
    else
      var (m, d1) := DestroyAll(cs[..|cs| - 1], d);
      if m.Threw? then (m, d1)
      else
        var (c, d2) := Destroy(cs[|cs| - 1], d1);
        if c.Threw? then (Threw(c.message), d2)
        else (Done(m.value + [c.value]), d2)
  }

  lemma {:induction false} DestroyAllStops(cs: seq<VNode>, i: nat, d: Dom)
    requires i <= |cs| && DestroyAll(cs[..i], d).0.Threw?
    ensures DestroyAll(cs, d) == DestroyAll(cs[..i], d)
    decreases |cs| - i
  {
    if i < |cs| {
      var t := cs[..i + 1];
      assert t[..|t| - 1] == cs[..i];
      assert DestroyAll(t, d) == DestroyAll(cs[..i], d);
      DestroyAllStops(cs, i + 1, d);
    } else {
      assert cs[..i] == cs;
    }
  }

  method DestroyDOM(doc: Document, vdom: VNode) returns (r: Outcome<VNode>)
    modifies doc
    ensures (r, doc.dom) == Destroy(vdom, old(doc.dom))
    decreases Size(vdom), 1
  {
    if vdom.el == None {
      return Done(vdom);
    }
    match vdom
    case VText(value, el) =>
      doc.RemoveNode(el.value);
      r := Done(VText(value, None));
    case VFragment(cs, _) =>
      var children := DestroyChildren(doc, cs);
      if children.Threw? {
        return Threw(children.message);
      }
      r := Done(VFragment(children.value, None));
    case VElement(tag, props, cs, el, ls) =>
      var children := DestroyChildren(doc, cs);
      if children.Threw? {
        return Threw(children.message);
      }
      if ls.Some? {
        RemoveEventListeners(doc, ls.value, el.value);
      }
      doc.RemoveNode(el.value);
      r := Done(VElement(tag, props, children.value, None, None));
    case VOther(_, _) =>
      r := Threw(UnhandledType);
  }

  method DestroyChildren(doc: Document, children: seq<VNode>) returns (r: Outcome<seq<VNode>>)
    modifies doc
    ensures (r, doc.dom) == DestroyAll(children, old(doc.dom))
    decreases SizeAll(children), 2
  {
    var destroyed := [];
    for i := 0 to |children|
      invariant DestroyAll(children[..i], old(doc.dom)) == (Done(destroyed), doc.dom)
    {
      assert children[..i + 1][..i] == children[..i];
      SizeAllBound(children, i);
      var c := DestroyDOM(doc, children[i]);
      if c.Threw? {
        DestroyAllStops(children, i + 1, old(doc.dom));
        return Threw(c.message);
      }
      destroyed := destroyed + [c.value];
    }
    assert children[..|children|] == children;
    r := Done(destroyed);
  }

  /**
   * `v` was mounted under `p` in `d`, and `d1` is the document after destroying it: the
   * tree's top host nodes have left `p` and are detached, and no node outside the tree
   * other than `p` changed.
   */
  ghost predicate UnmountedFrom(v: VNode, p: HostId, d: Dom, d1: Dom)
    requires p in d.nodes
  {
    && d1.nextId == d.nextId && d1.nodes.Keys == d.nodes.Keys
    && (forall q :: q in d.nodes && q !in Ids(v) && q != p ==> d1.nodes[q] == d.nodes[q])
    && d1.nodes[p] == d.nodes[p].(childNodes := Without(d.nodes[p].childNodes, Elements(TopIds(v))))
    && (forall q :: q in TopIds(v) ==> q in d1.nodes && d1.nodes[q].parent == None)
  }

  ghost predicate AllUnmountedFrom(cs: seq<VNode>, p: HostId, d: Dom, d1: Dom)
    requires p in d.nodes
  {
    && d1.nextId == d.nextId && d1.nodes.Keys == d.nodes.Keys
    && (forall q :: q in d.nodes && q !in IdsAll(cs) && q != p ==> d1.nodes[q] == d.nodes[q])
    && d1.nodes[p] == d.nodes[p].(childNodes := Without(d.nodes[p].childNodes, Elements(TopIdsAll(cs))))
    && (forall q :: q in TopIdsAll(cs) ==> q in d1.nodes && d1.nodes[q].parent == None)
  }

  /**
   * Destroying a tree mounted under `p` never throws, returns the tree without any host
   * link, detaches exactly its top host nodes from `p` and changes nothing outside it.
   */
  lemma {:induction false} DestroyEffect(v: VNode, p: HostId, d: Dom)
    requires LinkedUnder(v, p, d) && Tidy(v) && p in d.nodes && p !in Ids(v)
    ensures Destroy(v, d).0 == Done(Strip(v))
    ensures UnmountedFrom(v, p, d, Destroy(v, d).1)
    decreases Size(v), 1
  {
    match v
    case VText(_, el) =>
      assert Elements(TopIds(v)) == {el.value};
    case VFragment(cs, _) =>
      DestroyAllEffect(cs, p, d);
    case VElement(_, _, _, _, _) =>
      DestroyElementEffect(v, p, d);
  }

  lemma DestroyElementEffect(v: VNode, p: HostId, d: Dom)
    requires v.VElement? && LinkedUnder(v, p, d) && Tidy(v) && p in d.nodes && p !in Ids(v)
    ensures Destroy(v, d).0 == Done(Strip(v))
    ensures UnmountedFrom(v, p, d, Destroy(v, d).1)
    decreases Size(v), 0
  {
    var e := v.el.value;
    DestroyAllEffect(v.children, e, d);
    var d1 := DestroyAll(v.children, d).1;
    var d2 := if v.listeners.Some? then WithoutListeners(d1, e, v.listeners.value) else d1;
    ElementRemoved(v, p, d, d1, d2);
  }

  /** The last step of destroying an element: it leaves its parent once its children are gone. */
  lemma ElementRemoved(v: VNode, p: HostId, d: Dom, d1: Dom, d2: Dom)
    requires v.VElement? && LinkedUnder(v, p, d) && Tidy(v) && p in d.nodes && p !in Ids(v)
    requires AllUnmountedFrom(v.children, v.el.value, d, d1)
    requires d2.nodes.Keys == d1.nodes.Keys && d2.nextId == d1.nextId
    requires forall q :: q in d1.nodes && q != v.el.value ==> d2.nodes[q] == d1.nodes[q]
    requires d2.nodes[v.el.value].parent == d1.nodes[v.el.value].parent
    ensures UnmountedFrom(v, p, d, Remove(d2, v.el.value))
  {
    var e := v.el.value;
    var d3 := Remove(d2, e);
    assert Elements(TopIds(v)) == {e};
    assert d2.nodes[p] == d.nodes[p];
    forall q | q in d.nodes && q !in Ids(v) && q != p
      ensures d3.nodes[q] == d.nodes[q]
    {
      assert q != e && q !in IdsAll(v.children);
    }
  }

  lemma {:induction false} DestroyAllEffect(cs: seq<VNode>, p: HostId, d: Dom)
    requires AllLinkedUnder(cs, p, d) && TidyAll(cs) && p in d.nodes && p !in IdsAll(cs)
    ensures DestroyAll(cs, d).0 == Done(StripAll(cs))
    ensures AllUnmountedFrom(cs, p, d, DestroyAll(cs, d).1)
    decreases SizeAll(cs), 2
  {
    if cs == [] {
      assert Elements(TopIdsAll(cs)) == {};
      WithoutEmpty(d.nodes[p].childNodes);
    } else {
      var pre := cs[..|cs| - 1];
      var last := cs[|cs| - 1];
      assert AllLinkedUnder(pre, p, d) by {
        forall i | 0 <= i < |pre| ensures LinkedUnder(pre[i], p, d) {
          assert pre[i] == cs[i];
        }
      }
      DestroyAllEffect(pre, p, d);
      var d1 := DestroyAll(pre, d).1;
      LinkedUnderFrame(last, p, d, d1);
      DestroyEffect(last, p, d1);
      var d2 := Destroy(last, d1).1;
      TopIdsAllOwned(pre);
      TopIdsOwned(last);
      ChildDestroyed(pre, last, p, d, d1, d2);
      DestroyAllSnoc(cs, d);
      LastSplit(cs);
    }
  }

  /** When the earlier children and the last one are destroyed without a throw, so are all of them. */
  lemma DestroyAllSnoc(cs: seq<VNode>, d: Dom)
    requires cs != []
    requires DestroyAll(cs[..|cs| - 1], d).0.Done?
    requires Destroy(cs[|cs| - 1], DestroyAll(cs[..|cs| - 1], d).1).0.Done?
    ensures var r := DestroyAll(cs[..|cs| - 1], d);
            var c := Destroy(cs[|cs| - 1], r.1);
            DestroyAll(cs, d) == (Done(r.0.value + [c.0.value]), c.1)
  {
  }

  /** Destroying one more child after the others extends what has been detached. */
  lemma ChildDestroyed(pre: seq<VNode>, last: VNode, p: HostId, d: Dom, d1: Dom, d2: Dom)
    requires p in d.nodes && IdsAll(pre) !! Ids(last) && p !in IdsAll(pre) && p !in Ids(last)
    requires forall x :: x in TopIdsAll(pre) ==> x in IdsAll(pre)
    requires forall x :: x in TopIds(last) ==> x in Ids(last)
    requires AllUnmountedFrom(pre, p, d, d1) && UnmountedFrom(last, p, d1, d2)
    ensures AllUnmountedFrom(pre + [last], p, d, d2)
  {
    SnocIds(pre, last);
    DetachedInTurn(p, d, d1, d2, IdsAll(pre), Ids(last), TopIdsAll(pre), TopIds(last));
  }

  /**
   * Two detachments in a row from the same parent, over disjoint sets of owned nodes,
   * detach the union.
   */
  lemma DetachedInTurn(p: HostId, d: Dom, d1: Dom, d2: Dom, a: set<HostId>, b: set<HostId>, ta: seq<HostId>, tb: seq<HostId>)
    requires p in d.nodes && a !! b && p !in a && p !in b
    requires forall x :: x in ta ==> x in a
    requires forall x :: x in tb ==> x in b
    requires d1.nextId == d.nextId && d1.nodes.Keys == d.nodes.Keys
    requires forall q :: q in d.nodes && q !in a && q != p ==> d1.nodes[q] == d.nodes[q]
    requires d1.nodes[p] == d.nodes[p].(childNodes := Without(d.nodes[p].childNodes, Elements(ta)))
    requires forall q :: q in ta ==> q in d1.nodes && d1.nodes[q].parent == None
    requires d2.nextId == d1.nextId && d2.nodes.Keys == d1.nodes.Keys
    requires forall q :: q in d1.nodes && q !in b && q != p ==> d2.nodes[q] == d1.nodes[q]
    requires d2.nodes[p] == d1.nodes[p].(childNodes := Without(d1.nodes[p].childNodes, Elements(tb)))
    requires forall q :: q in tb ==> q in d2.nodes && d2.nodes[q].parent == None
    ensures forall q :: q in d.nodes && q !in a + b && q != p ==> d2.nodes[q] == d.nodes[q]
    ensures d2.nodes[p] == d.nodes[p].(childNodes := Without(d.nodes[p].childNodes, Elements(ta + tb)))
    ensures forall q :: q in ta + tb ==> q in d2.nodes && d2.nodes[q].parent == None
  {
    WithoutUnion(d.nodes[p].childNodes, Elements(ta), Elements(tb));
    assert Elements(ta + tb) == Elements(ta) + Elements(tb);
  }

  /** A destroyed tree has no link left, so destroying it a second time does nothing. */
  lemma DestroyTwice(v: VNode, p: HostId, d: Dom)
    requires LinkedUnder(v, p, d) && Tidy(v) && p in d.nodes && p !in Ids(v)
    ensures var w := Destroy(v, d).0;
            var d1 := Destroy(v, d).1;
            w.Done? && w.value.el == None && Destroy(w.value, d1) == (Done(w.value), d1)
  {
    DestroyEffect(v, p, d);
  }

  /** Destroying an element removes every listener its record lists from its host element, which is detached. */
  lemma DestroyRemovesListeners(v: VNode, p: HostId, d: Dom)
    requires v.VElement? && v.listeners.Some? && LinkedUnder(v, p, d) && Tidy(v) && p in d.nodes && p !in Ids(v)
    ensures var d1 := Destroy(v, d).1;
            var e := v.el.value;
            && d1.nodes[e].listeners == d.nodes[e].listeners - Elements(v.listeners.value)
            && d1.nodes[e].parent == None
  {
    var e := v.el.value;
    DestroyAllEffect(v.children, e, d);
  }

  /**
   * Mounting a tree and then destroying what was mounted gives back the tree without host
   * links (the tree itself, when it came from `h`), restores every node the document had
   * before exactly, and leaves the created nodes detached.
   */
  lemma MountDestroyRoundTrip(v: VNode, p: HostId, d: Dom)
    requires Valid(d) && IsElement(d, p) && !HasOther(v)
    ensures var m := Mount(v, p, d).0;
            var d1 := Mount(v, p, d).1;
            && m.Done?
            && var w := Destroy(m.value, d1).0;
               var d2 := Destroy(m.value, d1).1;
            && w == Done(Strip(v))
            && (Unlinked(v) ==> w == Done(v))
            && (forall q :: q in d.nodes ==> q in d2.nodes && d2.nodes[q] == d.nodes[q])
            && (forall q :: q in TopIds(m.value) ==> q in d2.nodes && d2.nodes[q].parent == None)
  {
    MountThrows(v, p, d);
    var m := Mount(v, p, d).0;
    var d1 := Mount(v, p, d).1;
    MountEffect(v, p, d);
    MountKeepsShape(v, p, d);
    var mv := m.value;
    assert p !in Ids(mv);
    DestroyEffect(mv, p, d1);
    Restored(mv, p, d, d1, Destroy(mv, d1).1);
    if Unlinked(v) {
      StripUnlinked(v);
    }
  }

  /** Unmounting what was mounted under `p` restores every node that existed before. */
  lemma Restored(mv: VNode, p: HostId, d: Dom, d1: Dom, d2: Dom)
    requires Valid(d) && p in d.nodes && MountedUnder(mv, p, d, d1) && UnmountedFrom(mv, p, d1, d2)
    ensures forall q :: q in d.nodes ==> q in d2.nodes && d2.nodes[q] == d.nodes[q]
    ensures forall q :: q in TopIds(mv) ==> q in d2.nodes && d2.nodes[q].parent == None
  {
    var old_cs := d.nodes[p].childNodes;
    var tops := Elements(TopIds(mv));
    TopIdsOwned(mv);
    WithoutConcat(old_cs, TopIds(mv), tops);
    WithoutDisjoint(old_cs, tops);
    WithoutAll(TopIds(mv), tops);
    assert old_cs + [] == old_cs;
    forall q | q in d.nodes ensures q in d2.nodes && d2.nodes[q] == d.nodes[q] {
      if q != p {
        assert q !in Ids(mv);
      }
    }
  }
}
