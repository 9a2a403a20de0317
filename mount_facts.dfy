/**
 * What mounting does to the document and to the virtual tree
 * (packages/framework/src/runtime/mount-dom.ts), stated about the functions of `MountDom`.
 */
module MountFacts {
  import opened Outcomes
  import opened Sequences
  import opened Host
  import opened VDom
  import opened Trees
  import opened MountDom

  /**
   * `v` is the result of mounting into `p`, which took the document from `d` to `d1`: the
   * parent gained exactly the tree's top host nodes at the end of its child list, no other
   * node that existed before changed, and the tree is linked under `p` to freshly created
   * nodes, none of them shared.
   */
  ghost predicate MountedUnder(v: VNode, p: HostId, d: Dom, d1: Dom)
    requires p in d.nodes
  {
    && d.nextId <= d1.nextId && KindsKept(d, d1)
    && (forall q :: q in d.nodes && q != p ==> d1.nodes[q] == d.nodes[q])
    && d1.nodes[p] == d.nodes[p].(childNodes := d.nodes[p].childNodes + TopIds(v))
    && LinkedUnder(v, p, d1) && Tidy(v)
    && (forall q :: q in Ids(v) ==> d.nextId <= q < d1.nextId)
  }

  ghost predicate AllMountedUnder(cs: seq<VNode>, p: HostId, d: Dom, d1: Dom)
    requires p in d.nodes
  {
    && d.nextId <= d1.nextId && KindsKept(d, d1)
    && (forall q :: q in d.nodes && q != p ==> d1.nodes[q] == d.nodes[q])
    && d1.nodes[p] == d.nodes[p].(childNodes := d.nodes[p].childNodes + TopIdsAll(cs))
    && AllLinkedUnder(cs, p, d1) && TidyAll(cs)
    && (forall q :: q in IdsAll(cs) ==> d.nextId <= q < d1.nextId)
  }

  /** A successful mount leaves the tree mounted under `p` and changes nothing else that existed. */
  lemma {:induction false} MountEffect(v: VNode, p: HostId, d: Dom)
    requires Valid(d) && IsElement(d, p)
    requires Mount(v, p, d).0.Done?
    ensures MountedUnder(Mount(v, p, d).0.value, p, d, Mount(v, p, d).1)
    decreases Size(v), 1
  {
    match v
    case VText(_, _) => MountTextEffect(v, p, d);
    case VElement(_, _, _, _, _) => MountElementEffect(v, p, d);
    case VFragment(_, _) => MountFragmentEffect(v, p, d);
  }

  lemma MountTextEffect(v: VNode, p: HostId, d: Dom)
    requires v.VText? && Valid(d) && IsElement(d, p)
    ensures MountText(v, p, d).0.Done?
    ensures MountedUnder(MountText(v, p, d).0.value, p, d, MountText(v, p, d).1)
  {
    var d1 := CreateText(d, v.value).0;
    var t := CreateText(d, v.value).1;
    var d2 := Append(d1, p, t);
    assert forall q :: q in d.nodes && q != p ==> d2.nodes[q] == d.nodes[q];
    assert KindsKept(d, d2) by {
      assert KindsKept(d, d1);
    }
  }

  lemma {:induction false} MountElementEffect(v: VNode, p: HostId, d: Dom)
    requires v.VElement? && Valid(d) && IsElement(d, p)
    requires MountElement(v, p, d).0.Done?
    ensures MountedUnder(MountElement(v, p, d).0.value, p, d, MountElement(v, p, d).1)
    decreases Size(v), 0
  {
    var d1 := CreateElement(d, v.tag).0;
    var e := CreateElement(d, v.tag).1;
    var ls := WithProps(d1, e, v.props, v.listeners).0;
    var d2 := WithProps(d1, e, v.props, v.listeners).1;
    FreshElement(v.tag, v.props, v.listeners, d);
    var m := MountAll(v.children, e, d2).0;
    var d3 := MountAll(v.children, e, d2).1;
    MountAllEffect(v.children, e, d2);
    ElementStep(v.tag, v.props, m.value, ls, p, e, d, d2, d3);
  }

  /** A created element with its props set is a detached element; nothing else changed. */
  lemma FreshElement(tag: string, props: Props, ls: Option<Listeners>, d: Dom)
    requires Valid(d)
    ensures var d1 := CreateElement(d, tag).0;
            var e := CreateElement(d, tag).1;
            var d2 := WithProps(d1, e, props, ls).1;
            && Valid(d2) && IsElement(d2, e) && d2.nodes[e].parent == None && d2.nextId == e + 1
            && d2.nodes[e].childNodes == []
            && (forall q :: q in d.nodes ==> q in d2.nodes && d2.nodes[q] == d.nodes[q])
  {
  }

  /** Appending a freshly created element whose children are mounted completes an element mount. */
  lemma ElementStep(tag: string, props: Props, cs: seq<VNode>, ls: Option<Listeners>,
                    p: HostId, e: HostId, d: Dom, d2: Dom, d3: Dom)
    requires IsElement(d, p) && e == d.nextId && e !in d.nodes && p < e
    requires IsElement(d2, e) && d2.nodes[e].parent == None && d2.nextId == e + 1
    requires forall q :: q in d.nodes ==> q in d2.nodes && d2.nodes[q] == d.nodes[q]
    requires AllMountedUnder(cs, e, d2, d3)
    ensures IsElement(d3, p)
    ensures MountedUnder(VElement(tag, props, cs, Some(e), ls), p, d, Append(d3, p, e))
    ensures Append(d3, p, e).nodes[e] == d2.nodes[e].(parent := Some(p), childNodes := d2.nodes[e].childNodes + TopIdsAll(cs))
  {
    var w := VElement(tag, props, cs, Some(e), ls);
    assert p != e && p in d2.nodes && d3.nodes[p] == d2.nodes[p];
    var d4 := Append(d3, p, e);
    AppendedFrame(p, e, d, d2, d3, d4);
    AllLinkedUnderFrame(cs, e, d3, d4);
    FreshElementTree(tag, props, cs, ls, p, e, d.nextId, d4);
  }

  /** An element whose host node is `e` and whose children own only ids above it is tidy and owns ids from `e` on. */
  lemma FreshElementTree(tag: string, props: Props, cs: seq<VNode>, ls: Option<Listeners>, p: HostId, e: HostId, lo: nat, d4: Dom)
    requires e == lo && e < d4.nextId && IsElement(d4, e) && d4.nodes[e].parent == Some(p)
    requires AllLinkedUnder(cs, e, d4) && TidyAll(cs)
    requires forall q :: q in IdsAll(cs) ==> lo + 1 <= q < d4.nextId
    ensures LinkedUnder(VElement(tag, props, cs, Some(e), ls), p, d4)
    ensures Tidy(VElement(tag, props, cs, Some(e), ls))
    ensures forall q :: q in Ids(VElement(tag, props, cs, Some(e), ls)) ==> lo <= q < d4.nextId
  {
    assert e !in IdsAll(cs);
  }

  /** Appending the fresh element `e` to `p` leaves every other node of `d` as it was. */
  lemma AppendedFrame(p: HostId, e: HostId, d: Dom, d2: Dom, d3: Dom, d4: Dom)
    requires IsElement(d, p) && e !in d.nodes && p != e
    requires e in d2.nodes && d2.nodes[e].parent == None && d.nextId <= d2.nextId
    requires forall q :: q in d.nodes ==> q in d2.nodes && d2.nodes[q] == d.nodes[q]
    requires d2.nextId <= d3.nextId && KindsKept(d2, d3)
    requires forall q :: q in d2.nodes && q != e ==> d3.nodes[q] == d2.nodes[q]
    requires IsElement(d3, p) && d3.nodes[e].parent == None
    requires d4 == Append(d3, p, e)
    ensures d.nextId <= d4.nextId && KindsKept(d, d4)
    ensures forall q :: q in d.nodes && q != p ==> d4.nodes[q] == d.nodes[q]
    ensures d4.nodes[p] == d.nodes[p].(childNodes := d.nodes[p].childNodes + [e])
  {
    forall q | q in d.nodes && q != p
      ensures d4.nodes[q] == d.nodes[q]
    {
      assert q != e;
      assert d3.nodes[q] == d2.nodes[q];
    }
  }

  lemma {:induction false} MountFragmentEffect(v: VNode, p: HostId, d: Dom)
    requires v.VFragment? && Valid(d) && IsElement(d, p)
    requires MountFragment(v, p, d).0.Done?
    ensures MountedUnder(MountFragment(v, p, d).0.value, p, d, MountFragment(v, p, d).1)
    decreases Size(v), 0
  {
    MountAllEffect(v.children, p, d);
  }

  lemma {:induction false} MountAllEffect(cs: seq<VNode>, p: HostId, d: Dom)
    requires Valid(d) && IsElement(d, p)
    requires MountAll(cs, p, d).0.Done?
    ensures AllMountedUnder(MountAll(cs, p, d).0.value, p, d, MountAll(cs, p, d).1)
    decreases SizeAll(cs), 2
  {
    if cs == [] {
      assert MountAll(cs, p, d).1 == d;
    } else {
      var pre := cs[..|cs| - 1];
      var m := MountAll(pre, p, d).0;
      var d1 := MountAll(pre, p, d).1;
      MountAllEffect(pre, p, d);
      var c := Mount(cs[|cs| - 1], p, d1).0;
      var d2 := Mount(cs[|cs| - 1], p, d1).1;
      MountEffect(cs[|cs| - 1], p, d1);
      assert MountAll(cs, p, d) == (Done(m.value + [c.value]), d2);
      ChildStep(m.value, c.value, p, d, d1, d2);
    }
  }

  /** Mounting one more child after the others extends the mounted list. */
  lemma ChildStep(ms: seq<VNode>, c: VNode, p: HostId, d: Dom, d1: Dom, d2: Dom)
    requires Valid(d) && p in d.nodes && AllMountedUnder(ms, p, d, d1) && MountedUnder(c, p, d1, d2)
    ensures AllMountedUnder(ms + [c], p, d, d2)
  {
    var out := ms + [c];
    assert out[..|out| - 1] == ms && out[|out| - 1] == c;
    AllLinkedUnderFrame(ms, p, d1, d2);
    assert AllLinkedUnder(out, p, d2) by {
      forall i | 0 <= i < |out|
        ensures LinkedUnder(out[i], p, d2)
      {
        if i < |ms| {
          assert out[i] == ms[i];
        }
      }
    }
    assert TidyAll(out);
    assert forall q :: q in d.nodes && q != p ==> d2.nodes[q] == d.nodes[q] by {
      forall q | q in d.nodes && q != p
        ensures d2.nodes[q] == d.nodes[q]
      {
        assert d1.nodes[q] == d.nodes[q];
      }
    }
  }

  /** `mountDOM` throws exactly when the tree holds a node of unknown type, and always with the same message. */
  lemma {:induction false} MountThrows(v: VNode, p: HostId, d: Dom)
    requires Valid(d) && IsElement(d, p)
    ensures Mount(v, p, d).0.Threw? <==> HasOther(v)
    ensures Mount(v, p, d).0.Threw? ==> Mount(v, p, d).0.message == UnhandledType
    decreases Size(v), 1
  {
    match v
    case VText(_, _) =>
    case VElement(tag, props, cs, _, ls) =>
      var d1 := CreateElement(d, tag).0;
      var e := CreateElement(d, tag).1;
      var ls1 := WithProps(d1, e, props, ls).0;
      var d2 := WithProps(d1, e, props, ls).1;
      FreshElement(tag, props, ls, d);
      MountAllThrows(cs, e, d2);
    case VFragment(cs, _) =>
      MountAllThrows(cs, p, d);
    case VOther(_, _) =>
  }

  lemma {:induction false} MountAllThrows(cs: seq<VNode>, p: HostId, d: Dom)
    requires Valid(d) && IsElement(d, p)
    ensures MountAll(cs, p, d).0.Threw? <==> HasOtherAll(cs)
    ensures MountAll(cs, p, d).0.Threw? ==> MountAll(cs, p, d).0.message == UnhandledType
    decreases SizeAll(cs), 2
  {
    if cs != [] {
      var pre := cs[..|cs| - 1];
      MountAllThrows(pre, p, d);
      var m := MountAll(pre, p, d).0;
      var d1 := MountAll(pre, p, d).1;
      if m.Done? {
        MountThrows(cs[|cs| - 1], p, d1);
      }
    }
  }

  /** Mounting only adds host links: with the links stripped, the mounted tree is the tree that was given. */
  lemma {:induction false} MountKeepsShape(v: VNode, p: HostId, d: Dom)
    requires Valid(d) && IsElement(d, p)
    requires Mount(v, p, d).0.Done?
    ensures Strip(Mount(v, p, d).0.value) == Strip(v)
    decreases Size(v), 1
  {
    match v
    case VText(_, _) =>
    case VElement(tag, props, cs, _, ls) =>
      var d1 := CreateElement(d, tag).0;
      var e := CreateElement(d, tag).1;
      var ls1 := WithProps(d1, e, props, ls).0;
      var d2 := WithProps(d1, e, props, ls).1;
      FreshElement(tag, props, ls, d);
      MountAllKeepsShape(cs, e, d2);
    case VFragment(cs, _) =>
      MountAllKeepsShape(cs, p, d);
  }

  lemma {:induction false} MountAllKeepsShape(cs: seq<VNode>, p: HostId, d: Dom)
    requires Valid(d) && IsElement(d, p)
    requires MountAll(cs, p, d).0.Done?
    ensures StripAll(MountAll(cs, p, d).0.value) == StripAll(cs)
    decreases SizeAll(cs), 2
  {
    if cs != [] {
      var pre := cs[..|cs| - 1];
      MountAllKeepsShape(pre, p, d);
      var m := MountAll(pre, p, d).0;
      var d1 := MountAll(pre, p, d).1;
      MountKeepsShape(cs[|cs| - 1], p, d1);
      var out := MountAll(cs, p, d).0.value;
      assert out[..|out| - 1] == m.value;
    }
  }

  /** A text node becomes a new text host node holding its value, appended as the parent's last child. */
  lemma MountTextNode(value: string, el: Option<HostId>, p: HostId, d: Dom)
    requires Valid(d) && IsElement(d, p)
    ensures var r := Mount(VText(value, el), p, d).0;
            var d1 := Mount(VText(value, el), p, d).1;
            && r == Done(VText(value, Some(d.nextId)))
            && d1.nodes[p].childNodes == d.nodes[p].childNodes + [d.nextId]
            && d1.nodes[d.nextId] == NewNode(TextNode(value)).(parent := Some(p))
  {
  }

  /**
   * An element node becomes a new host element appended as the parent's last child: it
   * carries what `addProps` gave the fresh element, and its children are exactly the host
   * nodes its mounted children placed, in order.
   */
  lemma MountElementNode(v: VNode, p: HostId, d: Dom)
    requires v.VElement? && Valid(d) && IsElement(d, p)
    requires Mount(v, p, d).0.Done?
    ensures var r := Mount(v, p, d).0;
            var d1 := Mount(v, p, d).1;
            var e := d.nextId;
            var n := WithProps(CreateElement(d, v.tag).0, e, v.props, v.listeners).1.nodes[e];
            && r.value.VElement? && r.value.el == Some(e)
            && r.value.listeners == WithProps(CreateElement(d, v.tag).0, e, v.props, v.listeners).0
            && d1.nodes[p].childNodes == d.nodes[p].childNodes + [e]
            && e in d1.nodes && d1.nodes[e] == n.(parent := Some(p), childNodes := n.childNodes + TopIdsAll(r.value.children))
            && n.kind == ElementNode(v.tag) && n.childNodes == []
  {
    var d1 := CreateElement(d, v.tag).0;
    var e := CreateElement(d, v.tag).1;
    var ls := WithProps(d1, e, v.props, v.listeners).0;
    var d2 := WithProps(d1, e, v.props, v.listeners).1;
    FreshElement(v.tag, v.props, v.listeners, d);
    var m := MountAll(v.children, e, d2).0;
    var d3 := MountAll(v.children, e, d2).1;
    MountAllEffect(v.children, e, d2);
    ElementStep(v.tag, v.props, m.value, ls, p, e, d, d2, d3);
  }

  /** A fragment links to the parent and places its children's host nodes there, in order. */
  lemma MountFragmentNode(v: VNode, p: HostId, d: Dom)
    requires v.VFragment? && Valid(d) && IsElement(d, p)
    requires Mount(v, p, d).0.Done?
    ensures var r := Mount(v, p, d).0;
            var d1 := Mount(v, p, d).1;
            && r.value.VFragment? && r.value.el == Some(p) && |r.value.children| == |v.children|
            && d1.nodes[p].childNodes == d.nodes[p].childNodes + TopIdsAll(r.value.children)
  {
    MountAllEffect(v.children, p, d);
  }
}
