/**
 * What `addProps`, `addEventListeners` and `setAttributes`
 * (packages/framework/src/runtime/mount-dom.ts) do to one host element.
 */
module PropsFacts {
  import opened Outcomes
  import opened Sequences
  import opened Host
  import opened VDom
  import opened MountDom

  /** `m1` and `m2` agree at `k`: both lack it or both map it to the same value. */
  predicate SameAt(m1: map<string, string>, m2: map<string, string>, k: string) {
    (k in m1 <==> k in m2) && (k in m1 ==> m1[k] == m2[k])
  }

  lemma DistinctKeysPrefix<K, V>(s: seq<(K, V)>, n: nat)
    requires DistinctKeys(s) && n <= |s|
    ensures DistinctKeys(s[..n])
    ensures forall i :: 0 <= i < n ==> s[..n][i] == s[i]
  {
  }

  /**
   * The record `addEventListeners` returns holds exactly the entries it was given, in
   * their order, when (as for the entries of an object) no event type repeats.
   */
  lemma {:induction false} ListenerRecord(hs: Listeners)
    requires DistinctKeys(hs)
    ensures Record(hs) == hs
    decreases |hs|
  {
    if hs != [] {
      DistinctKeysPrefix(hs, |hs| - 1);
      ListenerRecord(hs[..|hs| - 1]);
      LastTypeNew(hs);
      RecordStep(hs[..|hs| - 1], hs[|hs| - 1]);
      assert hs[..|hs| - 1] + [hs[|hs| - 1]] == hs;
    }
  }

  /** An entry whose event type is new goes last in a record that already equals its entries. */
  lemma RecordStep(pre: Listeners, last: (string, Handler))
    requires Record(pre) == pre
    requires forall i :: 0 <= i < |pre| ==> pre[i].0 != last.0
    ensures Record(pre + [last]) == pre + [last]
  {
    var hs := pre + [last];
    assert hs[..|hs| - 1] == pre && hs[|hs| - 1] == last;
  }

  /** The last entry's event type occurs in no earlier entry. */
  lemma LastTypeNew(hs: Listeners)
    requires hs != [] && DistinctKeys(hs)
    ensures forall i :: 0 <= i < |hs| - 1 ==> hs[i].0 != hs[|hs| - 1].0
  {
  }

  /**
   * Every other attribute ends up set to its string form, or absent when its value is
   * `null` or `undefined`; attributes without an entry keep their value.
   */
  lemma {:induction false} OtherAttributesEffect(d: Dom, el: HostId, attrs: Props)
    requires el in d.nodes && DistinctKeys(attrs)
    ensures var a := WithOtherAttributes(d, el, attrs).nodes[el].attributes;
            && (forall i :: 0 <= i < |attrs| && IsNullish(attrs[i].1) ==> attrs[i].0 !in a)
            && (forall i :: 0 <= i < |attrs| && !IsNullish(attrs[i].1) ==>
                  attrs[i].0 in a && a[attrs[i].0] == Stringify(attrs[i].1))
            && (forall k :: !HasKey(attrs, k) ==> SameAt(a, d.nodes[el].attributes, k))
    decreases |attrs|
  {
    if attrs != [] {
      var pre := attrs[..|attrs| - 1];
      DistinctKeysPrefix(attrs, |attrs| - 1);
      OtherAttributesEffect(d, el, pre);
      var d1 := WithOtherAttributes(d, el, pre);
      AttributeStep(d.nodes[el].attributes, d1.nodes[el].attributes,
                    WithAttribute(d1, el, attrs[|attrs| - 1]).nodes[el].attributes, attrs);
    }
  }

  /** Applying the last entry to the attributes the others produced gives what all the entries produce. */
  lemma AttributeStep(a0: map<string, string>, a1: map<string, string>, a: map<string, string>, attrs: Props)
    requires attrs != [] && DistinctKeys(attrs)
    requires var pre := attrs[..|attrs| - 1];
             && (forall i :: 0 <= i < |pre| && IsNullish(pre[i].1) ==> pre[i].0 !in a1)
             && (forall i :: 0 <= i < |pre| && !IsNullish(pre[i].1) ==> pre[i].0 in a1 && a1[pre[i].0] == Stringify(pre[i].1))
             && (forall k :: !HasKey(pre, k) ==> SameAt(a1, a0, k))
    requires var e := attrs[|attrs| - 1];
             a == if IsNullish(e.1) then a1 - {e.0} else a1[e.0 := Stringify(e.1)]
    ensures forall i :: 0 <= i < |attrs| && IsNullish(attrs[i].1) ==> attrs[i].0 !in a
    ensures forall i :: 0 <= i < |attrs| && !IsNullish(attrs[i].1) ==> attrs[i].0 in a && a[attrs[i].0] == Stringify(attrs[i].1)
    ensures forall k :: !HasKey(attrs, k) ==> SameAt(a, a0, k)
  {
    var n := |attrs| - 1;
    var pre := attrs[..n];
    forall i | 0 <= i < n ensures pre[i] == attrs[i] && attrs[i].0 != attrs[n].0 {
    }
    forall k | !HasKey(attrs, k) ensures SameAt(a, a0, k) {
      assert k != attrs[n].0;
      assert !HasKey(pre, k) by {
        forall i | 0 <= i < |pre| ensures pre[i].0 != k {
          assert attrs[i].0 != k;
        }
      }
    }
  }

  /** Every entry of a style record sets its property; properties without an entry keep their value. */
  lemma {:induction false} StylesEffect(d: Dom, el: HostId, fields: seq<(string, string)>)
    requires el in d.nodes && DistinctKeys(fields)
    ensures var sp := WithStyles(d, el, fields).nodes[el].styleProperties;
            && (forall i :: 0 <= i < |fields| ==> fields[i].0 in sp && sp[fields[i].0] == fields[i].1)
            && (forall k :: !HasKey(fields, k) ==> SameAt(sp, d.nodes[el].styleProperties, k))
    decreases |fields|
  {
    if fields != [] {
      var pre := fields[..|fields| - 1];
      DistinctKeysPrefix(fields, |fields| - 1);
      StylesEffect(d, el, pre);
      forall k | HasKey(pre, k)
        ensures HasKey(fields, k)
      {
        var i :| 0 <= i < |pre| && pre[i].0 == k;
        assert fields[i].0 == k;
      }
    }
  }

  /** Dropping the `on` entry leaves every other key's value as it was. */
  lemma {:induction false} GetAttributes(props: Props, key: string)
    requires key != "on"
    ensures Get(Attributes(props), key) == Get(props, key)
    decreases |props|
  {
    if props != [] {
      GetAttributes(props[1..], key);
    }
  }

  /** The class part of `setAttributes` on the element's class list. */
  predicate ClassApplied(before: seq<string>, after: seq<string>, classList: PropValue) {
    if !Truthy(classList) then after == before
    else if classList.PStrings? then after == AddTokens(before, classList.items)
    else after == [Stringify(classList)]
  }

  /** The style part of `setAttributes` on the element's inline style. */
  ghost predicate StyleApplied(before: HostNode, after: HostNode, style: PropValue) {
    if Truthy(style) && style.PString? then
      after.cssText == Some(style.text) && after.styleProperties == before.styleProperties
    else if Truthy(style) && style.PRecord? && DistinctKeys(style.fields) then
      && after.cssText == before.cssText
      && (forall i :: 0 <= i < |style.fields| ==>
            style.fields[i].0 in after.styleProperties && after.styleProperties[style.fields[i].0] == style.fields[i].1)
      && (forall k :: !HasKey(style.fields, k) ==> SameAt(after.styleProperties, before.styleProperties, k))
    else if Truthy(style) && style.PRecord? then after.cssText == before.cssText
    else after.cssText == before.cssText && after.styleProperties == before.styleProperties
  }

  lemma StyleEffect(d: Dom, el: HostId, style: PropValue)
    requires el in d.nodes
    ensures StyleApplied(d.nodes[el], WithStyle(d, el, style).nodes[el], style)
  {
    if Truthy(style) && style.PRecord? && DistinctKeys(style.fields) {
      StylesEffect(d, el, style.fields);
    }
  }

  /** The keys `setAttributes` treats as attributes of their own name. */
  predicate IsPlainAttribute(k: string) {
    k != "on" && k != "class" && k != "style"
  }

  /**
   * `setAttributes(attrs, el)` for props without repeated keys: the class list and the
   * style follow the `class` and `style` props, every other entry sets or removes its
   * attribute, and all other attributes keep their value.
   */
  lemma AttributesEffect(d: Dom, el: HostId, props: Props)
    requires el in d.nodes && DistinctKeys(props)
    ensures var n := WithAttributes(d, el, Attributes(props)).nodes[el];
            var o := d.nodes[el];
            && n.kind == o.kind && n.parent == o.parent && n.childNodes == o.childNodes && n.listeners == o.listeners
            && ClassApplied(o.classList, n.classList, Get(props, "class"))
            && StyleApplied(o, n, Get(props, "style"))
            && (forall i :: 0 <= i < |props| && IsPlainAttribute(props[i].0) && IsNullish(props[i].1) ==>
                  props[i].0 !in n.attributes)
            && (forall i :: 0 <= i < |props| && IsPlainAttribute(props[i].0) && !IsNullish(props[i].1) ==>
                  props[i].0 in n.attributes && n.attributes[props[i].0] == Stringify(props[i].1))
            && (forall k :: !(HasKey(props, k) && IsPlainAttribute(k)) ==> SameAt(n.attributes, o.attributes, k))
  {
    var attrs := Attributes(props);
    GetAttributes(props, "class");
    GetAttributes(props, "style");
    var d1 := WithClass(d, el, Get(attrs, "class"));
    var d2 := WithStyle(d1, el, Get(attrs, "style"));
    StyleEffect(d1, el, Get(attrs, "style"));
    var others := OtherAttributes(attrs);
    FilterDistinctKeys(props, (e: (string, PropValue)) => e.0 != "on");
    FilterDistinctKeys(attrs, (e: (string, PropValue)) => e.0 != "class" && e.0 != "style");
    OtherAttributesEffect(d2, el, others);
    forall i | 0 <= i < |props| && IsPlainAttribute(props[i].0)
      ensures props[i] in others
    {
      PlainAttributeKept(props, i);
    }
    forall k | HasKey(others, k)
      ensures HasKey(props, k) && IsPlainAttribute(k)
    {
      PlainAttributeFrom(props, k);
    }
  }

  /** An entry with a plain attribute key is among the other attributes. */
  lemma PlainAttributeKept(props: Props, i: nat)
    requires i < |props| && IsPlainAttribute(props[i].0)
    ensures props[i] in OtherAttributes(Attributes(props))
  {
    assert props[i] in Attributes(props);
  }

  /** Every key among the other attributes is a plain attribute key of the props. */
  lemma PlainAttributeFrom(props: Props, k: string)
    requires HasKey(OtherAttributes(Attributes(props)), k)
    ensures HasKey(props, k) && IsPlainAttribute(k)
  {
    var others := OtherAttributes(Attributes(props));
    var j :| 0 <= j < |others| && others[j].0 == k;
    assert others[j] in Attributes(props);
    var i :| 0 <= i < |props| && props[i] == others[j];
  }

  /**
   * `addProps(el, props, vdom)` for props without repeated keys: a truthy `on` registers
   * each listener and becomes the node's listener record; otherwise the record and the
   * registered listeners stay as they were.
   */
  lemma PropsListeners(d: Dom, el: HostId, props: Props, listeners: Option<Listeners>)
    requires el in d.nodes
    ensures var ls := WithProps(d, el, props, listeners).0;
            var r := WithProps(d, el, props, listeners).1;
            var on := Get(props, "on");
            && (Truthy(on) ==> r.nodes[el].listeners == d.nodes[el].listeners + Elements(HandlerEntries(on)))
            && (Truthy(on) && DistinctKeys(HandlerEntries(on)) ==> ls == Some(HandlerEntries(on)))
            && (!Truthy(on) ==> r.nodes[el].listeners == d.nodes[el].listeners && ls == listeners)
  {
    var on := Get(props, "on");
    if Truthy(on) && DistinctKeys(HandlerEntries(on)) {
      ListenerRecord(HandlerEntries(on));
    }
  }
}
