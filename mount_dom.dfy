/**
 * Mounting a virtual tree into the host document (packages/framework/src/runtime/mount-dom.ts).
 *
 * The pure functions `Mount`, `MountAll`, `WithProps`, `WithListeners`, `WithoutListeners` and
 * `WithAttributes` say what each step does to the document and what it returns; the methods
 * `MountDOM`, `CreateTextNode`, `CreateElementNode`, `CreateFragmentNode`, `MountChildren`,
 * `AddProps`, `AddEventListeners`, `RemoveEventListeners` and `SetAttributes` perform the
 * step on a `Host.Document` and are proved to agree with them. A thrown error stops the
 * walk and leaves the document as far as it got.
 */
module MountDom {
  import opened Outcomes
  import opened Sequences
  import opened Host
  import opened VDom
  import opened Trees

  /** The error `mountDOM` throws for a node of unknown type: the template renders the node object. */
  const UnhandledType := "Unhandled vdom type: [object Object]"

  // ---------------------------------------------------------------- prop values

  /** `props[key]`: the first entry with that key, or `undefined` when there is none. */
  function Get(props: Props, key: string): (r: PropValue)
    ensures r != PUndefined ==> (key, r) in props
    ensures (forall i :: 0 <= i < |props| ==> props[i].0 != key) ==> r == PUndefined
  {
    if props == [] then PUndefined
    else if props[0].0 == key then props[0].1
    else Get(props[1..], key)
  }

  /** JavaScript truthiness of a prop value: `null`, `undefined` and `""` are falsy, objects are not. */
  predicate Truthy(v: PropValue): (r: bool)
    ensures !r <==> v == PNull || v == PUndefined || v == PString("")
  {
    match v
    case PNull => false
    case PUndefined => false
    case PString(s) => s != ""
    case _ => true
  }

  /** `value == null`: loose equality holds for `null` and `undefined` only. */
  predicate IsNullish(v: PropValue): (r: bool)
    ensures r <==> v == PNull || v == PUndefined
    ensures r ==> !Truthy(v)
  {
    v.PNull? || v.PUndefined?
  }

  /** `items.join(sep)`. */
  function Join(items: seq<string>, sep: string): string
    decreases |items|
  {
    if items == [] then ""
    else if |items| == 1 then items[0]
    else items[0] + sep + Join(items[1..], sep)
  }

  /** `String(value)`, the conversion `setAttribute` and `className` apply. */
  function Stringify(v: PropValue): (r: string)
    ensures v.PString? ==> r == v.text
    ensures v.PStrings? && |v.items| == 1 ==> r == v.items[0]
    ensures v.PStrings? && v.items == [] ==> r == ""
    ensures v == PNull ==> r == "null"
    ensures v == PUndefined ==> r == "undefined"
    ensures v.PRecord? || v.PHandlers? ==> r == "[object Object]"
  {
    match v
    case PNull => "null"
    case PUndefined => "undefined"
    case PString(s) => s
    case PStrings(items) => Join(items, ",")
    case PRecord(_) => "[object Object]"
    case PHandlers(_) => "[object Object]"
  }

  /** `const { on: _, ...attrs } = props`. */
  function Attributes(props: Props): (r: Props)
    ensures |r| <= |props|
    ensures forall i :: 0 <= i < |r| ==> r[i] in props && r[i].0 != "on"
    ensures forall i :: 0 <= i < |props| && props[i].0 != "on" ==> props[i] in r
  {
    Filter(props, (e: (string, PropValue)) => e.0 != "on")
  }

  /** `const { class: _, style: _, ...otherAttributes } = attributes`. */
  function OtherAttributes(attrs: Props): (r: Props)
    ensures |r| <= |attrs|
    ensures forall i :: 0 <= i < |r| ==> r[i] in attrs && r[i].0 != "class" && r[i].0 != "style"
    ensures forall i :: 0 <= i < |attrs| && attrs[i].0 != "class" && attrs[i].0 != "style" ==> attrs[i] in r
  {
    Filter(attrs, (e: (string, PropValue)) => e.0 != "class" && e.0 != "style")
  }

  /** The entries of the `on` record, as `Object.entries` lists them. */
  function HandlerEntries(on: PropValue): (r: Listeners)
    ensures on.PHandlers? ==> r == on.handlers
    ensures !on.PHandlers? ==> r == []
  {
    if on.PHandlers? then on.handlers else []
  }

  // ---------------------------------------------------------------- listeners

  /** `record[key] = value`: an existing key keeps its place and takes the value, a new key goes last. */
  function Assign(rec: Listeners, key: string, h: Handler): (r: Listeners)
    ensures (forall i :: 0 <= i < |rec| ==> rec[i].0 != key) ==> r == rec + [(key, h)]
    ensures forall i :: 0 <= i < |r| ==> r[i] == (key, h) || r[i] in rec
    ensures |r| <= |rec| + 1
  {
    if rec == [] then [(key, h)]
    else if rec[0].0 == key then [(key, h)] + rec[1..]
    else [rec[0]] + Assign(rec[1..], key, h)
  }

  /** After `record[key] = value` the record names its old event types and `key`. */
  lemma {:induction false} AssignTypes(rec: Listeners, key: string, h: Handler)
    ensures TypesOf(Assign(rec, key, h)) == TypesOf(rec) + {key}
    decreases |rec|
  {
    if rec == [] {
      TypesOfCons((key, h), []);
      assert [(key, h)] + [] == [(key, h)];
    } else if rec[0].0 == key {
      TypesOfCons(rec[0], rec[1..]);
      TypesOfCons((key, h), rec[1..]);
    } else {
      AssignTypes(rec[1..], key, h);
      TypesOfCons(rec[0], rec[1..]);
      TypesOfCons(rec[0], Assign(rec[1..], key, h));
    }
  }

  /** The event types a list of entries names. */
  function TypesOf(hs: Listeners): set<string> {
    set i | 0 <= i < |hs| :: hs[i].0
  }

  lemma TypesOfCons(x: (string, Handler), rest: Listeners)
    ensures TypesOf([x] + rest) == {x.0} + TypesOf(rest)
  {
    var s := [x] + rest;
    forall t | t in TypesOf(s) ensures t in {x.0} + TypesOf(rest) {
      var i :| 0 <= i < |s| && s[i].0 == t;
      if i > 0 { assert s[i] == rest[i - 1]; }
    }
    forall t | t in TypesOf(rest) ensures t in TypesOf(s) {
      var i :| 0 <= i < |rest| && rest[i].0 == t;
      assert s[i + 1] == rest[i];
    }
    assert s[0] == x;
  }

  lemma TypesOfSnoc(hs: Listeners)
    requires hs != []
    ensures TypesOf(hs) == TypesOf(hs[..|hs| - 1]) + {hs[|hs| - 1].0}
  {
    var pre := hs[..|hs| - 1];
    forall t | t in TypesOf(hs) ensures t in TypesOf(pre) + {hs[|hs| - 1].0} {
      var i :| 0 <= i < |hs| && hs[i].0 == t;
      if i < |hs| - 1 { assert pre[i] == hs[i]; }
    }
    forall t | t in TypesOf(pre) ensures t in TypesOf(hs) {
      var i :| 0 <= i < |pre| && pre[i].0 == t;
      assert hs[i] == pre[i];
    }
  }

  /** No event type occurs twice, as in the entries of an object. */
  predicate DistinctTypes(hs: Listeners) {
    forall i, j :: 0 <= i < j < |hs| ==> hs[i].0 != hs[j].0
  }

  /** The record `addEventListeners` builds: `added[type] = handler` for each entry in turn. */
  function Record(hs: Listeners): (r: Listeners)
    ensures |r| <= |hs|
    decreases |hs|
  {
    if hs == [] then []
    else Assign(Record(hs[..|hs| - 1]), hs[|hs| - 1].0, hs[|hs| - 1].1)
  }

  /** The record names exactly the event types of the entries it was built from. */
  lemma {:induction false} RecordTypes(hs: Listeners)
    ensures TypesOf(Record(hs)) == TypesOf(hs)
    decreases |hs|
  {
    if hs != [] {
      var pre, last := hs[..|hs| - 1], hs[|hs| - 1];
      RecordTypes(pre);
      AssignTypes(Record(pre), last.0, last.1);
      TypesOfSnoc(hs);
    }
  }

  /** Every entry of the record is one of the entries it was built from. */
  lemma {:induction false} RecordEntries(hs: Listeners)
    ensures forall i :: 0 <= i < |Record(hs)| ==> Record(hs)[i] in hs
    decreases |hs|
  {
    if hs != [] {
      var pre, last := hs[..|hs| - 1], hs[|hs| - 1];
      RecordEntries(pre);
      forall i | 0 <= i < |Record(hs)| ensures Record(hs)[i] in hs {
        var x := Record(hs)[i];
        assert Record(hs) == Assign(Record(pre), last.0, last.1);
        if x != last {
          var k :| 0 <= k < |Record(pre)| && Record(pre)[k] == x;
          var j :| 0 <= j < |pre| && pre[j] == x;
          assert hs[j] == x;
        }
      }
    }
  }

  /** `el.addEventListener(type, handler)` for each entry in turn. */
  function AddListeners(d: Dom, el: HostId, hs: Listeners): (r: Dom)
    requires el in d.nodes
    ensures r.nextId == d.nextId && r.nodes.Keys == d.nodes.Keys
    ensures forall q :: q in d.nodes && q != el ==> r.nodes[q] == d.nodes[q]
    ensures r.nodes[el] == d.nodes[el].(listeners := d.nodes[el].listeners + Elements(hs))
    decreases |hs|
  {
    if hs == [] then d
    else
      var (t, h) := hs[|hs| - 1];
      assert Elements(hs) == Elements(hs[..|hs| - 1]) + {(t, h)} by {
        assert hs == hs[..|hs| - 1] + [hs[|hs| - 1]];
      }
      AddListener(AddListeners(d, el, hs[..|hs| - 1]), el, t, h)
  }

  /**
   * `addEventListeners(listeners, el)`: registers every entry on `el` and returns the
   * record of what it registered.
   */
  function WithListeners(d: Dom, el: HostId, hs: Listeners): (r: (Listeners, Dom))
    requires el in d.nodes
    ensures r.1.nextId == d.nextId && r.1.nodes.Keys == d.nodes.Keys
    ensures forall q :: q in d.nodes && q != el ==> r.1.nodes[q] == d.nodes[q]
    ensures r.1.nodes[el] == d.nodes[el].(listeners := d.nodes[el].listeners + Elements(hs))
    ensures TypesOf(r.0) == TypesOf(hs)
    ensures forall i :: 0 <= i < |r.0| ==> r.0[i] in hs
  {
    RecordTypes(hs);
    RecordEntries(hs);
    (Record(hs), AddListeners(d, el, hs))
  }

  /** `removeEventListeners(listeners, el)`: unregisters every entry from `el`. */
  function WithoutListeners(d: Dom, el: HostId, hs: Listeners): (r: Dom)
    ensures r.nextId == d.nextId && r.nodes.Keys == d.nodes.Keys
    ensures forall q :: q in d.nodes && q != el ==> r.nodes[q] == d.nodes[q]
    ensures el in d.nodes ==> r.nodes[el] == d.nodes[el].(listeners := d.nodes[el].listeners - Elements(hs))
    decreases |hs|
  {
    if hs == [] then d
    else
      var d1 := WithoutListeners(d, el, hs[..|hs| - 1]);
      var (t, h) := hs[|hs| - 1];
      assert Elements(hs) == Elements(hs[..|hs| - 1]) + {(t, h)} by {
        assert hs == hs[..|hs| - 1] + [hs[|hs| - 1]];
      }
      RemoveListener(d1, el, t, h)
  }
  /** Taking listeners off an element changes no node's kind or children. */
  lemma WithoutListenersKeepsValid(d: Dom, el: HostId, hs: Listeners)
    ensures Valid(d) ==> Valid(WithoutListeners(d, el, hs))
    ensures KindsKept(d, WithoutListeners(d, el, hs))
  {
  }


  // ---------------------------------------------------------------- attributes

  /** The `class` prop: an array adds its tokens, any other truthy value becomes the class name. */
  function WithClass(d: Dom, el: HostId, classList: PropValue): (r: Dom)
    requires el in d.nodes
    ensures OnlyAttributesChanged(d, r, el)
    ensures r.nodes[el].attributes == d.nodes[el].attributes
    ensures r.nodes[el].cssText == d.nodes[el].cssText && r.nodes[el].styleProperties == d.nodes[el].styleProperties
  {
    if !Truthy(classList) then d
    else if classList.PStrings? then ClassListAdd(d, el, classList.items)
    else SetClassName(d, el, Stringify(classList))
  }

  /** `el.style[key] = value` for every entry of a style record. */
  function WithStyles(d: Dom, el: HostId, fields: seq<(string, string)>): (r: Dom)
    requires el in d.nodes
    ensures OnlyAttributesChanged(d, r, el)
    ensures r.nodes[el].cssText == d.nodes[el].cssText
    ensures r.nodes[el].attributes == d.nodes[el].attributes && r.nodes[el].classList == d.nodes[el].classList
    decreases |fields|
  {
    if fields == [] then d
    else
      var d1 := WithStyles(d, el, fields[..|fields| - 1]);
      SetStyleProperty(d1, el, fields[|fields| - 1].0, fields[|fields| - 1].1)
  }

  /** The `style` prop: a string becomes the inline style text, a record sets each property. */
  function WithStyle(d: Dom, el: HostId, style: PropValue): (r: Dom)
    requires el in d.nodes
    ensures OnlyAttributesChanged(d, r, el)
    ensures r.nodes[el].attributes == d.nodes[el].attributes && r.nodes[el].classList == d.nodes[el].classList
  {
    if !Truthy(style) then d
    else if style.PString? then SetCssText(d, el, style.text)
    else if style.PRecord? then WithStyles(d, el, style.fields)
    else d
  }

  /** Every other attribute: `null`/`undefined` removes it, any other value sets its string form. */
  function WithOtherAttributes(d: Dom, el: HostId, attrs: Props): (r: Dom)
    requires el in d.nodes
    ensures OnlyAttributesChanged(d, r, el)
    ensures r.nodes[el].classList == d.nodes[el].classList
    ensures r.nodes[el].cssText == d.nodes[el].cssText && r.nodes[el].styleProperties == d.nodes[el].styleProperties
    decreases |attrs|
  {
    if attrs == [] then d
    else
      WithAttribute(WithOtherAttributes(d, el, attrs[..|attrs| - 1]), el, attrs[|attrs| - 1])
  }

  /** One attribute entry: `null`/`undefined` removes the attribute, any other value sets its string form. */
  function WithAttribute(d: Dom, el: HostId, entry: (string, PropValue)): (r: Dom)
    requires el in d.nodes
    ensures OnlyAttributesChanged(d, r, el)
    ensures r.nodes[el].classList == d.nodes[el].classList
    ensures r.nodes[el].cssText == d.nodes[el].cssText && r.nodes[el].styleProperties == d.nodes[el].styleProperties
  {
    if IsNullish(entry.1) then RemoveAttribute(d, el, entry.0) else SetAttribute(d, el, entry.0, Stringify(entry.1))
  }

  /** `setAttributes(attributes, el)`: class, then style, then every other attribute. */
  function WithAttributes(d: Dom, el: HostId, attrs: Props): (r: Dom)
    requires el in d.nodes
    ensures OnlyAttributesChanged(d, r, el)
  {
    var d1 := WithClass(d, el, Get(attrs, "class"));
    var d2 := WithStyle(d1, el, Get(attrs, "style"));
    WithOtherAttributes(d2, el, OtherAttributes(attrs))
  }

  /** `r` differs from `d` only in `el`'s attributes, classes, style and listeners. */
  ghost predicate OnlyPropsChanged(d: Dom, r: Dom, el: HostId)
    requires el in d.nodes
  {
    && r.nextId == d.nextId && r.nodes.Keys == d.nodes.Keys
    && (forall q :: q in d.nodes && q != el ==> r.nodes[q] == d.nodes[q])
    && r.nodes[el].kind == d.nodes[el].kind && r.nodes[el].parent == d.nodes[el].parent
    && r.nodes[el].childNodes == d.nodes[el].childNodes
  }

  lemma OnlyPropsValid(d: Dom, r: Dom, el: HostId)
    requires el in d.nodes && Valid(d) && OnlyPropsChanged(d, r, el)
    ensures Valid(r)
  {
  }

  /**
   * `addProps(el, props, vdom)`: a truthy `on` registers its listeners and replaces the
   * node's listener record; all other props become attributes. Returns the listener record.
   */
  function WithProps(d: Dom, el: HostId, props: Props, listeners: Option<Listeners>): (r: (Option<Listeners>, Dom))
    requires el in d.nodes
    ensures OnlyPropsChanged(d, r.1, el)
    ensures Valid(d) ==> Valid(r.1)
  {
    var on := Get(props, "on");
    var (ls, d1) :=
      if Truthy(on) then
        var (rec, d1) := WithListeners(d, el, HandlerEntries(on)); (Some(rec), d1)
      else (listeners, d);
    var r := (ls, WithAttributes(d1, el, Attributes(props)));
    assert Valid(d) ==> Valid(r.1) by {
      if Valid(d) {
        OnlyPropsValid(d, r.1, el);
      }
    }
    r
  }

  // ---------------------------------------------------------------- mounting

  /**
   * `mountDOM(vdom, parentEl)`: the mounted tree (or the error) and the new document.
   * Text and element nodes are created and appended to the parent; a fragment's children
   * are mounted into the parent itself.
   */
  function Mount(v: VNode, p: HostId, d: Dom): (r: (Outcome<VNode>, Dom))
    requires Valid(d) && IsElement(d, p)
    ensures Valid(r.1) && d.nextId <= r.1.nextId
    ensures KindsKept(d, r.1)
    decreases Size(v), 1
  {
    match v
    case VText(_, _) => MountText(v, p, d)
    case VElement(_, _, _, _, _) => MountElement(v, p, d)
    case VFragment(_, _) => MountFragment(v, p, d)
    case VOther(_, _) => (Threw(UnhandledType), d)
  }

  /** `createTextNode(vdom, parentEl)`. */
  function MountText(v: VNode, p: HostId, d: Dom): (r: (Outcome<VNode>, Dom))
    requires v.VText? && Valid(d) && IsElement(d, p)
    ensures Valid(r.1) && d.nextId <= r.1.nextId
    ensures KindsKept(d, r.1)
  {
    var (d1, t) := CreateText(d, v.value);
    (Done(VText(v.value, Some(t))), Append(d1, p, t))
  }

  /** `createElementNode(vdom, parentEl)`: the element gets its props and children before it is appended. */
  function MountElement(v: VNode, p: HostId, d: Dom): (r: (Outcome<VNode>, Dom))
    requires v.VElement? && Valid(d) && IsElement(d, p)
    ensures Valid(r.1) && d.nextId <= r.1.nextId
    ensures KindsKept(d, r.1)
    decreases Size(v), 0
  {
    var (d1, e) := CreateElement(d, v.tag);
    var (ls, d2) := WithProps(d1, e, v.props, v.listeners);
    assert KindsKept(d, d2) && IsElement(d2, e) by {
      assert KindsKept(d, d1);
    }
    var (m, d3) := MountAll(v.children, e, d2);
    if m.Threw? then (Threw(m.message), d3)
    else (Done(VElement(v.tag, v.props, m.value, Some(e), ls)), Append(d3, p, e))
  }

  /** `createFragmentNode(vdom, parentEl)`: the children go straight into the parent. */
  function MountFragment(v: VNode, p: HostId, d: Dom): (r: (Outcome<VNode>, Dom))
    requires v.VFragment? && Valid(d) && IsElement(d, p)
    ensures Valid(r.1) && d.nextId <= r.1.nextId
    ensures KindsKept(d, r.1)
    decreases Size(v), 0
  {
    var (m, d1) := MountAll(v.children, p, d);
    if m.Threw? then (Threw(m.message), d1)
    else (Done(VFragment(m.value, Some(p))), d1)
  }

  /** `children.forEach(c => mountDOM(c, p))`, stopping at the first error. */
  function MountAll(cs: seq<VNode>, p: HostId, d: Dom): (r: (Outcome<seq<VNode>>, Dom))
    requires Valid(d) && IsElement(d, p)
    ensures Valid(r.1) && d.nextId <= r.1.nextId
    ensures KindsKept(d, r.1)
    ensures r.0.Done? ==> |r.0.value| == |cs|
    decreases SizeAll(cs), 2
  {
    if cs == [] then (Done([]), d)
    else
      var (m, d1) := MountAll(cs[..|cs| - 1], p, d);
      if m.Threw? then (m, d1)
      else
        var (c, d2) := Mount(cs[|cs| - 1], p, d1);
        if c.Threw? then (Threw(c.message), d2)
        else (Done(m.value + [c.value]), d2)
  }

  /** Once a prefix of the children throws, the rest are not mounted. */
  lemma {:induction false} MountAllStops(cs: seq<VNode>, i: nat, p: HostId, d: Dom)
    requires Valid(d) && IsElement(d, p) && i <= |cs|
    requires MountAll(cs[..i], p, d).0.Threw?
    ensures MountAll(cs, p, d) == MountAll(cs[..i], p, d)
    decreases |cs| - i
  {
    if i < |cs| {
      var t := cs[..i + 1];
      assert t[..|t| - 1] == cs[..i];
      assert MountAll(t, p, d) == MountAll(cs[..i], p, d);
      MountAllStops(cs, i + 1, p, d);
    } else {
      assert cs[..i] == cs;
    }
  }

  // ---------------------------------------------------------------- the runtime's procedures

  method MountDOM(doc: Document, vdom: VNode, parentEl: HostId) returns (r: Outcome<VNode>)
    requires Valid(doc.dom) && IsElement(doc.dom, parentEl)
    modifies doc
    ensures (r, doc.dom) == Mount(vdom, parentEl, old(doc.dom))
    decreases Size(vdom), 2
  {
    match vdom
    case VText(_, _) =>
      r := CreateTextNode(doc, vdom, parentEl);
    case VElement(_, _, _, _, _) =>
      r := CreateElementNode(doc, vdom, parentEl);
    case VFragment(_, _) =>
      r := CreateFragmentNode(doc, vdom, parentEl);
    case VOther(_, _) =>
      r := Threw(UnhandledType);
  }

  method CreateTextNode(doc: Document, vdom: VNode, parentEl: HostId) returns (r: Outcome<VNode>)
    requires vdom.VText? && Valid(doc.dom) && IsElement(doc.dom, parentEl)
    modifies doc
    ensures (r, doc.dom) == MountText(vdom, parentEl, old(doc.dom))
  {
    var textNode := doc.CreateTextNode(vdom.value);
    r := Done(VText(vdom.value, Some(textNode)));
    doc.AppendChild(parentEl, textNode);
  }

  method CreateElementNode(doc: Document, vdom: VNode, parentEl: HostId) returns (r: Outcome<VNode>)
    requires vdom.VElement? && Valid(doc.dom) && IsElement(doc.dom, parentEl)
    modifies doc
    ensures (r, doc.dom) == MountElement(vdom, parentEl, old(doc.dom))
    decreases Size(vdom), 1
  {
    var el := doc.CreateElementNode(vdom.tag);
    var listeners := AddProps(doc, el, vdom.props, vdom.listeners);
    var children := MountChildren(doc, vdom.children, el);
    if children.Threw? {
      return Threw(children.message);
    }
    r := Done(VElement(vdom.tag, vdom.props, children.value, Some(el), listeners));
    doc.AppendChild(parentEl, el);
  }

  method CreateFragmentNode(doc: Document, vdom: VNode, parentEl: HostId) returns (r: Outcome<VNode>)
    requires vdom.VFragment? && Valid(doc.dom) && IsElement(doc.dom, parentEl)
    modifies doc
    ensures (r, doc.dom) == MountFragment(vdom, parentEl, old(doc.dom))
    decreases Size(vdom), 1
  {
    var children := MountChildren(doc, vdom.children, parentEl);
    if children.Threw? {
      return Threw(children.message);
    }
    r := Done(VFragment(children.value, Some(parentEl)));
  }

  /** The `forEach` over a node's children, each mounted into `parentEl`. */
  method MountChildren(doc: Document, children: seq<VNode>, parentEl: HostId) returns (r: Outcome<seq<VNode>>)
    requires Valid(doc.dom) && IsElement(doc.dom, parentEl)
    modifies doc
    ensures (r, doc.dom) == MountAll(children, parentEl, old(doc.dom))
    decreases SizeAll(children), 3
  {
    var mounted := [];
    for i := 0 to |children|
      invariant Valid(doc.dom) && IsElement(doc.dom, parentEl)
      invariant MountAll(children[..i], parentEl, old(doc.dom)) == (Done(mounted), doc.dom)
    {
      assert children[..i + 1][..i] == children[..i];
      SizeAllBound(children, i);
      var c := MountDOM(doc, children[i], parentEl);
      if c.Threw? {
        MountAllStops(children, i + 1, parentEl, old(doc.dom));
        return Threw(c.message);
      }
      mounted := mounted + [c.value];
    }
    assert children[..|children|] == children;
    r := Done(mounted);
  }

  method AddProps(doc: Document, el: HostId, props: Props, listeners: Option<Listeners>) returns (ls: Option<Listeners>)
    requires el in doc.dom.nodes
    modifies doc
    ensures (ls, doc.dom) == WithProps(old(doc.dom), el, props, listeners)
  {
    var on := Get(props, "on");
    ls := listeners;
    if Truthy(on) {
      var added := AddEventListeners(doc, HandlerEntries(on), el);
      ls := Some(added);
    }
    SetAttributes(doc, Attributes(props), el);
  }

  method AddEventListeners(doc: Document, listeners: Listeners, el: HostId) returns (added: Listeners)
    requires el in doc.dom.nodes
    modifies doc
    ensures (added, doc.dom) == WithListeners(old(doc.dom), el, listeners)
  {
    added := [];
    for i := 0 to |listeners|
      invariant el in doc.dom.nodes
      invariant added == Record(listeners[..i])
      invariant doc.dom == AddListeners(old(doc.dom), el, listeners[..i])
    {
      assert listeners[..i + 1][..i] == listeners[..i];
      var (eventType, handler) := listeners[i];
      doc.AddEventListener(el, eventType, handler);
      added := Assign(added, eventType, handler);
    }
    assert listeners[..|listeners|] == listeners;
  }

  method RemoveEventListeners(doc: Document, listeners: Listeners, el: HostId)
    modifies doc
    ensures doc.dom == WithoutListeners(old(doc.dom), el, listeners)
  {
    for i := 0 to |listeners|
      invariant doc.dom == WithoutListeners(old(doc.dom), el, listeners[..i])
    {
      assert listeners[..i + 1][..i] == listeners[..i];
      var (eventType, handler) := listeners[i];
      doc.RemoveEventListener(el, eventType, handler);
    }
    assert listeners[..|listeners|] == listeners;
  }

  method SetAttributes(doc: Document, attributes: Props, el: HostId)
    requires el in doc.dom.nodes
    modifies doc
    ensures doc.dom == WithAttributes(old(doc.dom), el, attributes)
  {
    SetClass(doc, Get(attributes, "class"), el);
    SetStyle(doc, Get(attributes, "style"), el);
    SetOtherAttributes(doc, OtherAttributes(attributes), el);
  }

  /** The `forEach` over the remaining attributes in `setAttributes`. */
  method SetOtherAttributes(doc: Document, others: Props, el: HostId)
    requires el in doc.dom.nodes
    modifies doc
    ensures doc.dom == WithOtherAttributes(old(doc.dom), el, others)
  {
    for i := 0 to |others|
      invariant el in doc.dom.nodes
      invariant doc.dom == WithOtherAttributes(old(doc.dom), el, others[..i])
    {
      assert others[..i + 1][..i] == others[..i];
      ghost var before := doc.dom;
      var (key, value) := others[i];
      if IsNullish(value) {
        doc.RemoveAttr(el, key);
      } else {
        doc.SetAttr(el, key, Stringify(value));
      }
      assert doc.dom == WithAttribute(before, el, others[i]);
    }
    assert others[..|others|] == others;
  }

  /** The `class` branch of `setAttributes`. */
  method SetClass(doc: Document, classList: PropValue, el: HostId)
    requires el in doc.dom.nodes
    modifies doc
    ensures doc.dom == WithClass(old(doc.dom), el, classList)
  {
    if Truthy(classList) {
      if classList.PStrings? {
        doc.AddClasses(el, classList.items);
      } else {
        doc.AssignClassName(el, Stringify(classList));
      }
    }
  }

  /** The `style` branch of `setAttributes`. */
  method SetStyle(doc: Document, style: PropValue, el: HostId)
    requires el in doc.dom.nodes
    modifies doc
    ensures doc.dom == WithStyle(old(doc.dom), el, style)
  {
    if Truthy(style) {
      if style.PString? {
        doc.AssignCssText(el, style.text);
      } else if style.PRecord? {
        var fields := style.fields;
        for i := 0 to |fields|
          invariant el in doc.dom.nodes
          invariant doc.dom == WithStyles(old(doc.dom), el, fields[..i])
        {
          assert fields[..i + 1][..i] == fields[..i];
          doc.AssignStyle(el, fields[i].0, fields[i].1);
        }
        assert fields[..|fields|] == fields;
      }
    }
  }
}
