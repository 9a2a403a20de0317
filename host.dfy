/**
 * An abstract host document: the part of the browser DOM that `mountDOM` and `destroyDOM`
 * use. Nodes are numbered; each has a kind, a parent, an ordered child list, attributes,
 * a class list, inline style and a set of registered event listeners.
 */
module Host {
  import opened Outcomes
  import opened Sequences

  /** The identity of a host node (an `HTMLElement` or a `Text`). */
  type HostId = nat

  /** An event handler function, by identity. */
  type Handler = nat

  datatype HostKind = TextNode(data: string) | ElementNode(tagName: string)

  datatype HostNode = HostNode(
    kind: HostKind,
    parent: Option<HostId>,
    childNodes: seq<HostId>,
    attributes: map<string, string>,
    classList: seq<string>,
    cssText: Option<string>,
    styleProperties: map<string, string>,
    listeners: set<(string, Handler)>)

  /** The document: its nodes and the identity the next created node receives. */
  datatype Dom = Dom(nodes: map<HostId, HostNode>, nextId: HostId)

  /** Every node, and every child any node lists, has been created already. */
  ghost predicate Valid(d: Dom) {
    forall id :: id in d.nodes ==>
      id < d.nextId && forall k :: 0 <= k < |d.nodes[id].childNodes| ==> d.nodes[id].childNodes[k] < d.nextId
  }

  /** Every node of `d` is still in `r`, of the same kind. */
  ghost predicate KindsKept(d: Dom, r: Dom) {
    forall q :: q in d.nodes ==> q in r.nodes && r.nodes[q].kind == d.nodes[q].kind
  }

  predicate IsElement(d: Dom, id: HostId) {
    id in d.nodes && d.nodes[id].kind.ElementNode?
  }

  function NewNode(kind: HostKind): HostNode {
    HostNode(kind, None, [], map[], [], None, map[], {})
  }

  /** `document.createTextNode(data)`: a detached text node. */
  function CreateText(d: Dom, data: string): (r: (Dom, HostId))
    ensures r.1 == d.nextId && r.0.nextId == d.nextId + 1
    ensures r.0.nodes == d.nodes[d.nextId := NewNode(TextNode(data))]
    ensures Valid(d) ==> Valid(r.0) && r.1 !in d.nodes
  {
    (Dom(d.nodes[d.nextId := NewNode(TextNode(data))], d.nextId + 1), d.nextId)
  }

  /** `document.createElement(tag)`: a detached element without attributes or children. */
  function CreateElement(d: Dom, tag: string): (r: (Dom, HostId))
    ensures r.1 == d.nextId && r.0.nextId == d.nextId + 1
    ensures r.0.nodes == d.nodes[d.nextId := NewNode(ElementNode(tag))]
    ensures Valid(d) ==> Valid(r.0) && r.1 !in d.nodes
  {
    (Dom(d.nodes[d.nextId := NewNode(ElementNode(tag))], d.nextId + 1), d.nextId)
  }

  /**
   * `child.remove()`: the child leaves its parent's child list and has no parent any more.
   * A detached node stays as it is.
   */
  function Remove(d: Dom, child: HostId): (r: Dom)
    ensures r.nextId == d.nextId && r.nodes.Keys == d.nodes.Keys
    ensures child in d.nodes ==> r.nodes[child].parent == None
    ensures forall q :: q in d.nodes && q != child ==> r.nodes[q].parent == d.nodes[q].parent
    ensures forall q :: q in d.nodes && q != child && Some(q) != (if child in d.nodes then d.nodes[child].parent else None) ==>
              r.nodes[q] == d.nodes[q]
    ensures child in d.nodes && d.nodes[child].parent.Some? && d.nodes[child].parent.value in d.nodes &&
            d.nodes[child].parent.value != child ==>
              var p := d.nodes[child].parent.value;
              r.nodes[p] == d.nodes[p].(childNodes := Without(d.nodes[p].childNodes, {child}))
    ensures child in d.nodes ==> r.nodes[child] == d.nodes[child].(parent := None)
    ensures Valid(d) ==> Valid(r)
    ensures KindsKept(d, r)
  {
    if child !in d.nodes then d
    else
      var n := d.nodes[child];
      var nodes := d.nodes[child := n.(parent := None)];
      if n.parent.Some? && n.parent.value in d.nodes && n.parent.value != child then
        var p := n.parent.value;
        Dom(nodes[p := d.nodes[p].(childNodes := Without(d.nodes[p].childNodes, {child}))], d.nextId)
      else Dom(nodes, d.nextId)
  }

  /**
   * `parent.append(child)` / `parent.appendChild(child)`: the child is first removed from
   * wherever it is and then becomes the parent's last child.
   */
  function Append(d: Dom, parent: HostId, child: HostId): (r: Dom)
    requires IsElement(d, parent) && child in d.nodes && child != parent
    ensures r.nextId == d.nextId && r.nodes.Keys == d.nodes.Keys
    ensures r.nodes[child].parent == Some(parent)
    ensures d.nodes[child].parent == None ==>
              r.nodes[parent].childNodes == d.nodes[parent].childNodes + [child]
    ensures forall q :: q in d.nodes && q != child ==> r.nodes[q].parent == d.nodes[q].parent
    ensures d.nodes[child].parent == None ==>
              r.nodes == d.nodes[parent := d.nodes[parent].(childNodes := d.nodes[parent].childNodes + [child])]
                                [child := d.nodes[child].(parent := Some(parent))]
    ensures Valid(d) ==> Valid(r)
    ensures KindsKept(d, r)
  {
    Attach(if d.nodes[child].parent == None then d else Remove(d, child), parent, child)
  }

  /** The second half of `Append`: a child that has just been detached goes last under `parent`. */
  function Attach(d: Dom, parent: HostId, child: HostId): (r: Dom)
    requires IsElement(d, parent) && child in d.nodes && child != parent
    ensures r.nextId == d.nextId && r.nodes.Keys == d.nodes.Keys
    ensures r.nodes == d.nodes[parent := d.nodes[parent].(childNodes := d.nodes[parent].childNodes + [child])]
                              [child := d.nodes[child].(parent := Some(parent))]
    ensures Valid(d) ==> Valid(r)
    ensures KindsKept(d, r)
  {
    var p := d.nodes[parent];
    var c := d.nodes[child];
    var r := Dom(d.nodes[parent := p.(childNodes := p.childNodes + [child])][child := c.(parent := Some(parent))], d.nextId);
    assert Valid(d) ==> Valid(r) by {
      if Valid(d) {
        forall id | id in r.nodes
          ensures id < r.nextId && forall k :: 0 <= k < |r.nodes[id].childNodes| ==> r.nodes[id].childNodes[k] < r.nextId
        {
          assert id in d.nodes;
        }
      }
    }
    r
  }

  /** `el.addEventListener(type, handler)`; registering the same pair twice has no further effect. */
  function AddListener(d: Dom, el: HostId, eventType: string, handler: Handler): (r: Dom)
    requires el in d.nodes
    ensures r.nextId == d.nextId && r.nodes.Keys == d.nodes.Keys
    ensures r.nodes[el].listeners == d.nodes[el].listeners + {(eventType, handler)}
    ensures r.nodes[el] == d.nodes[el].(listeners := r.nodes[el].listeners)
    ensures forall q :: q in d.nodes && q != el ==> r.nodes[q] == d.nodes[q]
  {
    Dom(d.nodes[el := d.nodes[el].(listeners := d.nodes[el].listeners + {(eventType, handler)})], d.nextId)
  }

  /** `el.removeEventListener(type, handler)`. */
  function RemoveListener(d: Dom, el: HostId, eventType: string, handler: Handler): (r: Dom)
    ensures r.nextId == d.nextId && r.nodes.Keys == d.nodes.Keys
    ensures el in d.nodes ==> r.nodes[el].listeners == d.nodes[el].listeners - {(eventType, handler)}
    ensures el in d.nodes ==> r.nodes[el] == d.nodes[el].(listeners := r.nodes[el].listeners)
    ensures forall q :: q in d.nodes && q != el ==> r.nodes[q] == d.nodes[q]
  {
    if el !in d.nodes then d
    else Dom(d.nodes[el := d.nodes[el].(listeners := d.nodes[el].listeners - {(eventType, handler)})], d.nextId)
  }

  /** `r` differs from `d` only in attribute-like fields of `el`: attributes, classes, style. */
  ghost predicate OnlyAttributesChanged(d: Dom, r: Dom, el: HostId)
    requires el in d.nodes
  {
    && r.nextId == d.nextId && r.nodes.Keys == d.nodes.Keys
    && (forall q :: q in d.nodes && q != el ==> r.nodes[q] == d.nodes[q])
    && r.nodes[el].kind == d.nodes[el].kind && r.nodes[el].parent == d.nodes[el].parent
    && r.nodes[el].childNodes == d.nodes[el].childNodes && r.nodes[el].listeners == d.nodes[el].listeners
  }

  /** A change confined to attribute-like fields keeps the document well formed. */
  lemma OnlyAttributesValid(d: Dom, r: Dom, el: HostId)
    requires el in d.nodes && Valid(d) && OnlyAttributesChanged(d, r, el)
    ensures Valid(r)
  {
  }

  /** Changes one node's attribute-like fields only. */
  function Update(d: Dom, el: HostId, n: HostNode): (r: Dom)
    requires el in d.nodes
    requires n.kind == d.nodes[el].kind && n.parent == d.nodes[el].parent && n.childNodes == d.nodes[el].childNodes
    requires n.listeners == d.nodes[el].listeners
    ensures r.nextId == d.nextId && r.nodes.Keys == d.nodes.Keys && r.nodes[el] == n
    ensures forall q :: q in d.nodes && q != el ==> r.nodes[q] == d.nodes[q]
  {
    Dom(d.nodes[el := n], d.nextId)
  }

  /** `el.setAttribute(key, value)`. */
  function SetAttribute(d: Dom, el: HostId, key: string, value: string): (r: Dom)
    requires el in d.nodes
    ensures OnlyAttributesChanged(d, r, el)
    ensures r.nodes[el].attributes == d.nodes[el].attributes[key := value]
  {
    Update(d, el, d.nodes[el].(attributes := d.nodes[el].attributes[key := value]))
  }

  /** `el.removeAttribute(key)`. */
  function RemoveAttribute(d: Dom, el: HostId, key: string): (r: Dom)
    requires el in d.nodes
    ensures OnlyAttributesChanged(d, r, el)
    ensures r.nodes[el].attributes == d.nodes[el].attributes - {key}
  {
    Update(d, el, d.nodes[el].(attributes := d.nodes[el].attributes - {key}))
  }

  /** The tokens of `tokens` not yet in `list`, appended in order, each once. */
  function AddTokens(list: seq<string>, tokens: seq<string>): (r: seq<string>)
    ensures |list| <= |r| && r[..|list|] == list
    ensures forall t :: t in r <==> t in list || t in tokens
    ensures NoDuplicates(list) ==> NoDuplicates(r)
    decreases |tokens|
  {
    if tokens == [] then list
    else if tokens[0] in list then AddTokens(list, tokens[1..])
    else
      var r := AddTokens(list + [tokens[0]], tokens[1..]);
      assert r[..|list|] == (r[..|list| + 1])[..|list|];
      r
  }

  /** `el.classList.add(...tokens)`. */
  function ClassListAdd(d: Dom, el: HostId, tokens: seq<string>): (r: Dom)
    requires el in d.nodes
    ensures OnlyAttributesChanged(d, r, el)
    ensures r.nodes[el].classList == AddTokens(d.nodes[el].classList, tokens)
  {
    Update(d, el, d.nodes[el].(classList := AddTokens(d.nodes[el].classList, tokens)))
  }

  /** `el.className = text`, recorded as a class list of that one entry. */
  function SetClassName(d: Dom, el: HostId, text: string): (r: Dom)
    requires el in d.nodes
    ensures OnlyAttributesChanged(d, r, el)
    ensures r.nodes[el].classList == [text]
  {
    Update(d, el, d.nodes[el].(classList := [text]))
  }

  /** `el.style.cssText = text`. */
  function SetCssText(d: Dom, el: HostId, text: string): (r: Dom)
    requires el in d.nodes
    ensures OnlyAttributesChanged(d, r, el)
    ensures r.nodes[el].cssText == Some(text)
  {
    Update(d, el, d.nodes[el].(cssText := Some(text)))
  }

  /** `el.style[key] = value`. */
  function SetStyleProperty(d: Dom, el: HostId, key: string, value: string): (r: Dom)
    requires el in d.nodes
    ensures OnlyAttributesChanged(d, r, el)
    ensures r.nodes[el].styleProperties == d.nodes[el].styleProperties[key := value]
  {
    Update(d, el, d.nodes[el].(styleProperties := d.nodes[el].styleProperties[key := value]))
  }

  /**
   * `d1` keeps every node of `d`, and outside `touched` no node of `d` has changed
   * its parent or its child list.
   */
  ghost predicate Frame(d: Dom, d1: Dom, touched: set<HostId>) {
    forall q :: q in d.nodes ==>
      q in d1.nodes && (q !in touched ==> d1.nodes[q].parent == d.nodes[q].parent && d1.nodes[q].childNodes == d.nodes[q].childNodes)
  }

  lemma FrameTrans(d: Dom, d1: Dom, d2: Dom, s: set<HostId>, t: set<HostId>)
    requires Frame(d, d1, s) && Frame(d1, d2, t)
    ensures Frame(d, d2, s + t)
  {
  }

  /** The browser document, whose state the runtime changes through the calls below. */
  class Document {
    var dom: Dom

    constructor (d: Dom)
      ensures dom == d
    {
      dom := d;
    }

    method CreateTextNode(data: string) returns (id: HostId)
      modifies this
      ensures (dom, id) == CreateText(old(dom), data)
    {
      var r := CreateText(dom, data);
      dom, id := r.0, r.1;
    }

    method CreateElementNode(tag: string) returns (id: HostId)
      modifies this
      ensures (dom, id) == CreateElement(old(dom), tag)
    {
      var r := CreateElement(dom, tag);
      dom, id := r.0, r.1;
    }

    method AppendChild(parent: HostId, child: HostId)
      requires IsElement(dom, parent) && child in dom.nodes && child != parent
      modifies this
      ensures dom == Append(old(dom), parent, child)
    {
      dom := Append(dom, parent, child);
    }

    method RemoveNode(child: HostId)
      modifies this
      ensures dom == Remove(old(dom), child)
    {
      dom := Remove(dom, child);
    }

    method AddEventListener(el: HostId, eventType: string, handler: Handler)
      requires el in dom.nodes
      modifies this
      ensures dom == AddListener(old(dom), el, eventType, handler)
    {
      dom := AddListener(dom, el, eventType, handler);
    }

    method RemoveEventListener(el: HostId, eventType: string, handler: Handler)
      modifies this
      ensures dom == RemoveListener(old(dom), el, eventType, handler)
    {
      dom := RemoveListener(dom, el, eventType, handler);
    }

    method SetAttr(el: HostId, key: string, value: string)
      requires el in dom.nodes
      modifies this
      ensures dom == SetAttribute(old(dom), el, key, value)
    {
      dom := SetAttribute(dom, el, key, value);
    }

    method RemoveAttr(el: HostId, key: string)
      requires el in dom.nodes
      modifies this
      ensures dom == RemoveAttribute(old(dom), el, key)
    {
      dom := RemoveAttribute(dom, el, key);
    }

    method AddClasses(el: HostId, tokens: seq<string>)
      requires el in dom.nodes
      modifies this
      ensures dom == ClassListAdd(old(dom), el, tokens)
    {
      dom := ClassListAdd(dom, el, tokens);
    }

    method AssignClassName(el: HostId, text: string)
      requires el in dom.nodes
      modifies this
      ensures dom == SetClassName(old(dom), el, text)
    {
      dom := SetClassName(dom, el, text);
    }

    method AssignCssText(el: HostId, text: string)
      requires el in dom.nodes
      modifies this
      ensures dom == SetCssText(old(dom), el, text)
    {
      dom := SetCssText(dom, el, text);
    }

    method AssignStyle(el: HostId, key: string, value: string)
      requires el in dom.nodes
      modifies this
      ensures dom == SetStyleProperty(old(dom), el, key, value)
    {
      dom := SetStyleProperty(dom, el, key, value);
    }
  }
}
