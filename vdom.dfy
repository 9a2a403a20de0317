/**
 * Virtual nodes and their constructors (packages/framework/src/runtime/h.ts).
 * A virtual node is a value; the host links `el` and `listeners`, which the runtime
 * writes into the node objects, are fields that mounting fills in and destroying clears.
 */
module VDom {
  import opened Outcomes
  import opened JsValues
  import opened Host
  import Arrays

  /** The values a prop may hold. */
  datatype PropValue =
    | PNull
    | PUndefined
    | PString(text: string)
    | PStrings(items: seq<string>)
    /** A record of strings, such as a style object. */
    | PRecord(fields: seq<(string, string)>)
    /** A record of event handlers, the `on` prop. */
    | PHandlers(handlers: seq<(string, Handler)>)

  /** A props object, as the entries `Object.entries` lists. */
  type Props = seq<(string, PropValue)>

  /** An event-listener record: event type to handler, in insertion order. */
  type Listeners = seq<(string, Handler)>

  datatype VNode =
    | VText(value: string, el: Option<HostId>)
    | VElement(tag: string, props: Props, children: seq<VNode>, el: Option<HostId>, listeners: Option<Listeners>)
    | VFragment(children: seq<VNode>, el: Option<HostId>)
    /** An object whose `type` is none of "text", "element", "fragment". */
    | VOther(typeName: string, el: Option<HostId>)

  /** What `h` and `hFragment` accept as a child: a string or a node (or `null`, via `Nullable`). */
  datatype Child = Str(text: string) | Node(node: VNode)

  /** `hString(text)`: a text node holding `text`. */
  function HString(text: string): (r: VNode)
    ensures r.VText? && r.value == text && r.el == None
  {
    VText(text, None)
  }

  /** `typeof n === "string" ? hString(n) : n` on one entry. */
  function StringToTextNode(n: Nullable<Child>): Nullable<VNode> {
    match n
    case Null => Null
    case Undefined => Undefined
    case Present(Str(text)) => Present(HString(text))
    case Present(Node(v)) => Present(v)
  }

  /**
   * `mapStringsToTextNodes(nodes)`: the same positions, with each string replaced by a
   * text node and every other entry, `null` included, passed through.
   */
  function MapStringsToTextNodes(nodes: seq<Nullable<Child>>): (r: seq<Nullable<VNode>>)
    ensures |r| == |nodes|
    ensures forall i :: 0 <= i < |nodes| && nodes[i].Present? && nodes[i].value.Str? ==>
              r[i] == Present(VText(nodes[i].value.text, None))
    ensures forall i :: 0 <= i < |nodes| && nodes[i].Present? && nodes[i].value.Node? ==>
              r[i] == Present(nodes[i].value.node)
    ensures forall i :: 0 <= i < |nodes| && nodes[i].Null? ==> r[i].Null?
    ensures forall i :: 0 <= i < |nodes| && nodes[i].Undefined? ==> r[i].Undefined?
  {
    if nodes == [] then [] else [StringToTextNode(nodes[0])] + MapStringsToTextNodes(nodes[1..])
  }

  /** The node a present child stands for. */
  function ChildNode(c: Child): VNode {
    match c
    case Str(text) => VText(text, None)
    case Node(v) => v
  }

  /**
   * An independent statement of what a children argument becomes: one node per present
   * entry, in order, strings as text nodes.
   */
  function ChildNodes(children: seq<Nullable<Child>>): seq<VNode>
    decreases |children|
  {
    if children == [] then []
    else if children[0].Present? then [ChildNode(children[0].value)] + ChildNodes(children[1..])
    else ChildNodes(children[1..])
  }

  /** `h(tag, props = {}, children = [])`: an element node that is not mounted. */
  function H(tag: string, props: Props := [], children: seq<Nullable<Child>> := []): (r: VNode)
    ensures r.VElement? && r.tag == tag && r.props == props
    ensures r.el == None && r.listeners == None
  {
    VElement(tag, props, Arrays.WithoutNullsOrUndefines(MapStringsToTextNodes(children)), None, None)
  }

  /** `hFragment(nodes)`: a fragment node that is not mounted. */
  function HFragment(nodes: seq<Nullable<Child>>): (r: VNode)
    ensures r.VFragment? && r.el == None
  {
    VFragment(Arrays.WithoutNullsOrUndefines(MapStringsToTextNodes(nodes)), None)
  }

  /** Mapping strings and then dropping the missing entries yields exactly `ChildNodes`. */
  lemma {:induction false} NormalizedChildren(children: seq<Nullable<Child>>)
    ensures Arrays.WithoutNullsOrUndefines(MapStringsToTextNodes(children)) == ChildNodes(children)
    decreases |children|
  {
    if children != [] {
      NormalizedChildren(children[1..]);
    }
  }

  /** `h`'s children are the present inputs, in order, with strings turned into text nodes. */
  lemma HChildren(tag: string, props: Props, children: seq<Nullable<Child>>)
    ensures H(tag, props, children).children == ChildNodes(children)
    ensures H(tag) == VElement(tag, [], [], None, None)
  {
    NormalizedChildren(children);
  }

  /** `hFragment`'s children are the present inputs, in order, with strings turned into text nodes. */
  lemma HFragmentChildren(nodes: seq<Nullable<Child>>)
    ensures HFragment(nodes).children == ChildNodes(nodes)
  {
    NormalizedChildren(nodes);
  }

  /** Number of present entries. */
  function CountPresent<T>(s: seq<Nullable<T>>): nat
    decreases |s|
  {
    if s == [] then 0 else (if s[0].Present? then 1 else 0) + CountPresent(s[1..])
  }

  /** The reference list has one node per present input. */
  lemma {:induction false} ChildNodesCount(children: seq<Nullable<Child>>)
    ensures |ChildNodes(children)| == CountPresent(children)
    decreases |children|
  {
    if children != [] {
      ChildNodesCount(children[1..]);
    }
  }

  /**
   * The children of a concatenation are the children of each part, in order: nothing is
   * reordered across positions.
   */
  lemma {:induction false} ChildNodesConcat(a: seq<Nullable<Child>>, b: seq<Nullable<Child>>)
    ensures ChildNodes(a + b) == ChildNodes(a) + ChildNodes(b)
    decreases |a|
  {
    if a == [] {
      assert a + b == b;
    } else {
      assert ChildNodes(a + b) == (if a[0].Present? then [ChildNode(a[0].value)] else []) + ChildNodes(a[1..] + b) by {
        assert (a + b)[0] == a[0];
        assert (a + b)[1..] == a[1..] + b;
      }
      ChildNodesConcat(a[1..], b);
    }
  }

  /** No host link anywhere in the tree: what the constructors produce from plain children. */
  predicate Unlinked(v: VNode)
    decreases v
  {
    match v
    case VText(_, el) => el == None
    case VElement(_, _, cs, el, ls) => el == None && ls == None && forall i :: 0 <= i < |cs| ==> Unlinked(cs[i])
    case VFragment(cs, el) => el == None && forall i :: 0 <= i < |cs| ==> Unlinked(cs[i])
    case VOther(_, el) => el == None
  }

  /** Built from unlinked children, the constructors' trees are unlinked throughout. */
  lemma {:induction false} ChildNodesUnlinked(children: seq<Nullable<Child>>)
    requires forall i :: 0 <= i < |children| && children[i].Present? && children[i].value.Node? ==>
               Unlinked(children[i].value.node)
    ensures forall k :: 0 <= k < |ChildNodes(children)| ==> Unlinked(ChildNodes(children)[k])
    decreases |children|
  {
    if children != [] {
      ChildNodesUnlinked(children[1..]);
    }
  }
}
