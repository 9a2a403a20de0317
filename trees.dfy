/**
 * Structural facts about virtual trees that mounting and destroying rely on: their size,
 * the host nodes they link to, and what it means for a tree to be mounted under a parent.
 */
module Trees {
  import opened Outcomes
  import opened Sequences
  import opened Host
  import opened VDom

  /** Number of nodes in a tree; the measure that mounting and destroying descend on. */
  function Size(v: VNode): (r: nat)
    ensures r >= 1
    decreases v
  {
    match v
    case VElement(_, _, cs, _, _) => 1 + SizeAll(cs)
    case VFragment(cs, _) => 1 + SizeAll(cs)
    case _ => 1
  }

  function SizeAll(cs: seq<VNode>): nat
    decreases cs
  {
    if cs == [] then 0 else SizeAll(cs[..|cs| - 1]) + Size(cs[|cs| - 1])
  }

  /** Every child is no bigger than the list it belongs to. */
  lemma {:induction false} SizeAllBound(cs: seq<VNode>, i: nat)
    requires i < |cs|
    ensures Size(cs[i]) <= SizeAll(cs)
    decreases |cs|
  {
    if i < |cs| - 1 {
      SizeAllBound(cs[..|cs| - 1], i);
    }
  }

  /** The host link of a node, as a set. */
  function Own(el: Option<HostId>): set<HostId> {
    if el.Some? then {el.value} else {}
  }

  /** The host nodes a tree owns: its text and element nodes' links (a fragment's link is its parent's). */
  function Ids(v: VNode): set<HostId>
    decreases v
  {
    match v
    case VText(_, el) => Own(el)
    case VElement(_, _, cs, el, _) => Own(el) + IdsAll(cs)
    case VFragment(cs, _) => IdsAll(cs)
    case VOther(_, _) => {}
  }

  function IdsAll(cs: seq<VNode>): set<HostId>
    decreases cs
  {
    if cs == [] then {} else IdsAll(cs[..|cs| - 1]) + Ids(cs[|cs| - 1])
  }

  lemma {:induction false} IdsAllMember(cs: seq<VNode>, i: nat)
    requires i < |cs|
    ensures Ids(cs[i]) <= IdsAll(cs)
    decreases |cs|
  {
    if i < |cs| - 1 {
      IdsAllMember(cs[..|cs| - 1], i);
    }
  }

  /** The host nodes a tree places directly under its parent, in order. */
  function TopIds(v: VNode): seq<HostId>
    decreases v
  {
    match v
    case VText(_, el) => if el.Some? then [el.value] else []
    case VElement(_, _, _, el, _) => if el.Some? then [el.value] else []
    case VFragment(cs, _) => TopIdsAll(cs)
    case VOther(_, _) => []
  }

  function TopIdsAll(cs: seq<VNode>): seq<HostId>
    decreases cs
  {
    if cs == [] then [] else TopIdsAll(cs[..|cs| - 1]) + TopIds(cs[|cs| - 1])
  }

  /** Appending a tree adds its owned and top-level nodes after those of the earlier trees. */
  lemma SnocIds(pre: seq<VNode>, last: VNode)
    ensures IdsAll(pre + [last]) == IdsAll(pre) + Ids(last)
    ensures TopIdsAll(pre + [last]) == TopIdsAll(pre) + TopIds(last)
  {
    var cs := pre + [last];
    assert cs[..|cs| - 1] == pre && cs[|cs| - 1] == last;
  }

  /** The nodes placed under the parent are among the nodes the tree owns. */
  lemma {:induction false} TopIdsOwned(v: VNode)
    ensures forall x :: x in TopIds(v) ==> x in Ids(v)
    decreases v
  {
    if v.VFragment? {
      TopIdsAllOwned(v.children);
    }
  }

  lemma {:induction false} TopIdsAllOwned(cs: seq<VNode>)
    ensures forall x :: x in TopIdsAll(cs) ==> x in IdsAll(cs)
    decreases cs
  {
    if cs != [] {
      TopIdsAllOwned(cs[..|cs| - 1]);
      TopIdsOwned(cs[|cs| - 1]);
    }
  }

  /**
   * `v` is mounted under the element `p` of `d`: every text and element node is linked to
   * a host node whose parent is the host node of its nearest element ancestor (`p` at the
   * top), element links are host elements, and fragments link to the parent they mount into.
   */
  ghost predicate LinkedUnder(v: VNode, p: HostId, d: Dom)
    decreases v
  {
    match v
    case VText(_, el) => el.Some? && el.value in d.nodes && d.nodes[el.value].parent == Some(p)
    case VElement(_, _, cs, el, _) =>
      && el.Some? && IsElement(d, el.value) && d.nodes[el.value].parent == Some(p)
      && AllLinkedUnder(cs, el.value, d)
    case VFragment(cs, el) => el == Some(p) && AllLinkedUnder(cs, p, d)
    case VOther(_, _) => false
  }

  ghost predicate AllLinkedUnder(cs: seq<VNode>, p: HostId, d: Dom)
    decreases cs
  {
    forall i :: 0 <= i < |cs| ==> LinkedUnder(cs[i], p, d)
  }

  /** Being mounted depends only on the host nodes the tree owns. */
  lemma {:induction false} LinkedUnderFrame(v: VNode, p: HostId, d: Dom, d1: Dom)
    requires LinkedUnder(v, p, d)
    requires forall q :: q in Ids(v) && q in d.nodes ==> q in d1.nodes && d1.nodes[q] == d.nodes[q]
    ensures LinkedUnder(v, p, d1)
    decreases v
  {
    match v
    case VText(_, _) =>
    case VElement(_, _, cs, el, _) =>
      AllLinkedUnderFrame(cs, el.value, d, d1);
    case VFragment(cs, _) =>
      AllLinkedUnderFrame(cs, p, d, d1);
  }

  lemma {:induction false} AllLinkedUnderFrame(cs: seq<VNode>, p: HostId, d: Dom, d1: Dom)
    requires AllLinkedUnder(cs, p, d)
    requires forall q :: q in IdsAll(cs) && q in d.nodes ==> q in d1.nodes && d1.nodes[q] == d.nodes[q]
    ensures AllLinkedUnder(cs, p, d1)
    decreases cs
  {
    forall i | 0 <= i < |cs|
      ensures LinkedUnder(cs[i], p, d1)
    {
      IdsAllMember(cs, i);
      LinkedUnderFrame(cs[i], p, d, d1);
    }
  }

  /** No host node is owned twice in a tree. */
  ghost predicate Tidy(v: VNode)
    decreases v
  {
    match v
    case VElement(_, _, cs, el, _) => Own(el) !! IdsAll(cs) && TidyAll(cs)
    case VFragment(cs, _) => TidyAll(cs)
    case _ => true
  }

  ghost predicate TidyAll(cs: seq<VNode>)
    decreases cs
  {
    cs == [] || (TidyAll(cs[..|cs| - 1]) && Tidy(cs[|cs| - 1]) && IdsAll(cs[..|cs| - 1]) !! Ids(cs[|cs| - 1]))
  }

  /** The tree with every host link and listener record deleted. */
  function Strip(v: VNode): (r: VNode)
    ensures Unlinked(r)
    decreases v
  {
    match v
    case VText(value, _) => VText(value, None)
    case VElement(tag, props, cs, _, _) => VElement(tag, props, StripAll(cs), None, None)
    case VFragment(cs, _) => VFragment(StripAll(cs), None)
    case VOther(t, _) => VOther(t, None)
  }

  function StripAll(cs: seq<VNode>): (r: seq<VNode>)
    ensures |r| == |cs|
    ensures forall i :: 0 <= i < |r| ==> Unlinked(r[i])
    decreases cs
  {
    if cs == [] then [] else StripAll(cs[..|cs| - 1]) + [Strip(cs[|cs| - 1])]
  }

  /** Stripping an unlinked tree gives back the same tree. */
  lemma {:induction false} StripUnlinked(v: VNode)
    requires Unlinked(v)
    ensures Strip(v) == v
    decreases v
  {
    match v
    case VText(_, _) =>
    case VElement(_, _, cs, _, _) =>
      StripAllUnlinked(cs);
    case VFragment(cs, _) =>
      StripAllUnlinked(cs);
    case VOther(_, _) =>
  }

  lemma {:induction false} StripAllUnlinked(cs: seq<VNode>)
    requires forall i :: 0 <= i < |cs| ==> Unlinked(cs[i])
    ensures StripAll(cs) == cs
    decreases cs
  {
    if cs != [] {
      StripAllUnlinked(cs[..|cs| - 1]);
      StripUnlinked(cs[|cs| - 1]);
      assert cs == cs[..|cs| - 1] + [cs[|cs| - 1]];
    }
  }

  /** Some node of the tree has a type the runtime does not know. */
  predicate HasOther(v: VNode)
    decreases v
  {
    match v
    case VOther(_, _) => true
    case VElement(_, _, cs, _, _) => HasOtherAll(cs)
    case VFragment(cs, _) => HasOtherAll(cs)
    case VText(_, _) => false
  }

  predicate HasOtherAll(cs: seq<VNode>)
    decreases cs
  {
    cs != [] && (HasOtherAll(cs[..|cs| - 1]) || HasOther(cs[|cs| - 1]))
  }
}
