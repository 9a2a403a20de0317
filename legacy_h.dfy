/**
 * The older virtual-node constructors (src/runtime/h.ts). Their `hString` and
 * `mapStringsToTextNodes` are the same code as the framework package's, so they are
 * `VDom.HString` and `VDom.MapStringsToTextNodes`; `h` and `hFragment` differ only in
 * dropping missing children with `withoutNulls`.
 */
module LegacyH {
  import opened Outcomes
  import opened JsValues
  import opened VDom
  import LegacyArrays

  /** The older `h(tag, props = {}, children = [])`. */
  function H(tag: string, props: Props := [], children: seq<Nullable<Child>> := []): (r: VNode)
    ensures r.VElement? && r.tag == tag && r.props == props
    ensures r.el == None && r.listeners == None
  {
    VElement(tag, props, LegacyArrays.WithoutNulls(MapStringsToTextNodes(children)), None, None)
  }

  /** The older `hFragment(nodes)`. */
  function HFragment(nodes: seq<Nullable<Child>>): (r: VNode)
    ensures r.VFragment? && r.el == None
  {
    VFragment(LegacyArrays.WithoutNulls(MapStringsToTextNodes(nodes)), None)
  }

  /** The older constructors build the same trees as the framework package's. */
  lemma LegacyAgrees(tag: string, props: Props, children: seq<Nullable<Child>>)
    ensures H(tag, props, children) == VDom.H(tag, props, children)
    ensures HFragment(children) == VDom.HFragment(children)
  {
    LegacyArrays.WithoutNullsAgrees(MapStringsToTextNodes(children));
  }

  /** The older `h`'s children are the present inputs, in order, strings as text nodes. */
  lemma LegacyHChildren(tag: string, props: Props, children: seq<Nullable<Child>>)
    ensures H(tag, props, children).children == ChildNodes(children)
    ensures HFragment(children).children == ChildNodes(children)
  {
    LegacyAgrees(tag, props, children);
    HChildren(tag, props, children);
    HFragmentChildren(children);
  }
}
