/** The object helpers of the framework package (packages/framework/src/utils/objects.ts). */
module Objects {
  import opened Outcomes
  import opened Sequences

  /**
   * A JavaScript value as `isObject` and `objectsDiff` see it. A plain object is its list
   * of own enumerable properties in `Object.keys` order; every other value only
   * matters through its `typeof`.
   */
  /** What `typeof` answers for the remaining values: "string", "number", "boolean", "symbol" or "bigint". */
  type PrimitiveName = t: string | t != "object" && t != "function" && t != "undefined" witness "string"

  datatype JsValue<V> =
    | NullValue
    | UndefinedValue
    | Primitive(typeName: PrimitiveName)
    | FunctionValue
    | PlainObject(entries: seq<(string, V)>)

  /** JavaScript's `typeof`, which famously answers "object" for `null`. */
  function TypeOf<V>(a: JsValue<V>): (r: string)
    ensures r == "object" <==> a.NullValue? || a.PlainObject?
    ensures r == "function" <==> a.FunctionValue?
    ensures r == "undefined" <==> a.UndefinedValue?
    ensures a.Primitive? ==> r == a.typeName
  {
    match a
    case NullValue => "object"
    case UndefinedValue => "undefined"
    case Primitive(t) => t
    case FunctionValue => "function"
    case PlainObject(_) => "object"
  }

  /** `isObject(a)`: `typeof a == "object" && a !== null`. */
  predicate IsObject<V>(a: JsValue<V>): (r: bool)
    ensures r <==> a.PlainObject?
  {
    TypeOf(a) == "object" && !a.NullValue?
  }

  /** The test recognises exactly the plain objects: `null` is excluded although its `typeof` is "object". */
  lemma IsObjectIffPlainObject<V>(a: JsValue<V>)
    ensures IsObject(a) <==> a.PlainObject?
    ensures a.NullValue? ==> TypeOf(a) == "object" && !IsObject(a)
  {
  }

  /** `Object.keys(o)`. */
  function Keys<V>(entries: seq<(string, V)>): (r: seq<string>)
    ensures |r| == |entries|
    ensures forall i :: 0 <= i < |entries| ==> r[i] == entries[i].0
  {
    if entries == [] then [] else [entries[0].0] + Keys(entries[1..])
  }

  /** `o[key]` for a key the object has. */
  function Lookup<V>(entries: seq<(string, V)>, key: string): (r: V)
    requires key in Keys(entries)
    ensures exists i :: 0 <= i < |entries| && entries[i] == (key, r)
  {
    if entries[0].0 == key then entries[0].1 else Lookup(entries[1..], key)
  }

  /** The three key lists `objectsDiff` returns. */
  datatype ObjectsDiffResult = ObjectsDiffResult(added: seq<string>, removed: seq<string>, updated: seq<string>)

  /** The keys of `a` present in `b` whose values are not strictly equal. */
  function UpdatedKeys<V(==)>(a: seq<(string, V)>, b: seq<(string, V)>): seq<string> {
    Filter(Keys(a), k => k in Keys(b) && k in Keys(a) && Lookup(a, k) != Lookup(b, k))
  }

  /**
   * `objectsDiff(a, b)`: throws unless both arguments are objects (checking `a` first);
   * otherwise `added` are the keys only `b` has, `removed` the keys only `a` has, and
   * `updated` the shared keys whose values differ.
   */
  function ObjectsDiff<V(==)>(a: JsValue<V>, b: JsValue<V>): (r: Outcome<ObjectsDiffResult>)
    ensures r.Threw? <==> !IsObject(a) || !IsObject(b)
    ensures !IsObject(a) ==> r == Threw("a is not an object")
    ensures IsObject(a) && !IsObject(b) ==> r == Threw("b is not an object")
    ensures r.Done? ==> forall k :: k in r.value.added <==> k in Keys(b.entries) && k !in Keys(a.entries)
    ensures r.Done? ==> forall k :: k in r.value.removed <==> k in Keys(a.entries) && k !in Keys(b.entries)
    ensures r.Done? ==> forall k :: k in r.value.updated <==>
                          k in Keys(a.entries) && k in Keys(b.entries) && Lookup(a.entries, k) != Lookup(b.entries, k)
  {
    if !IsObject(a) then Threw("a is not an object")
    else if !IsObject(b) then Threw("b is not an object")
    else
      var ka, kb := Keys(a.entries), Keys(b.entries);
      Done(ObjectsDiffResult(Filter(kb, k => k !in ka), Filter(ka, k => k !in kb), UpdatedKeys(a.entries, b.entries)))
  }

  /** Each list keeps the order of the `Object.keys` it was taken from. */
  lemma ObjectsDiffKeepsKeyOrder<V>(a: JsValue<V>, b: JsValue<V>)
    requires IsObject(a) && IsObject(b)
    ensures IsSubsequence(ObjectsDiff(a, b).value.added, Keys(b.entries))
    ensures IsSubsequence(ObjectsDiff(a, b).value.removed, Keys(a.entries))
    ensures IsSubsequence(ObjectsDiff(a, b).value.updated, Keys(a.entries))
  {
    var ka, kb := Keys(a.entries), Keys(b.entries);
    FilterSubsequence(kb, k => k !in ka);
    FilterSubsequence(ka, k => k !in kb);
    FilterSubsequence(ka, k => k in kb && k in ka && Lookup(a.entries, k) != Lookup(b.entries, k));
  }

  /** No key is reported in two of the lists. */
  lemma ObjectsDiffDisjoint<V>(a: JsValue<V>, b: JsValue<V>)
    requires IsObject(a) && IsObject(b)
    ensures var d := ObjectsDiff(a, b).value;
      && (forall k :: k in d.added ==> k !in d.removed && k !in d.updated)
      && (forall k :: k in d.removed ==> k !in d.updated)
  {
  }

  /** An object compared with itself has no difference. */
  lemma ObjectsDiffSelf<V>(a: JsValue<V>)
    requires IsObject(a)
    ensures ObjectsDiff(a, a) == Done(ObjectsDiffResult([], [], []))
  {
    var ka := Keys(a.entries);
    FilterEmptyWhenNoneKept(ka, k => k !in ka);
    FilterEmptyWhenNoneKept(ka, k => k in ka && k in ka && Lookup(a.entries, k) != Lookup(a.entries, k));
  }

  /** Keys that occur once in the objects occur at most once in every list. */
  lemma ObjectsDiffNoDuplicates<V>(a: JsValue<V>, b: JsValue<V>)
    requires IsObject(a) && IsObject(b)
    requires NoDuplicates(Keys(a.entries)) && NoDuplicates(Keys(b.entries))
    ensures NoDuplicates(ObjectsDiff(a, b).value.added)
    ensures NoDuplicates(ObjectsDiff(a, b).value.removed)
    ensures NoDuplicates(ObjectsDiff(a, b).value.updated)
  {
    var ka, kb := Keys(a.entries), Keys(b.entries);
    FilterNoDuplicates(kb, k => k !in ka);
    FilterNoDuplicates(ka, k => k !in kb);
    FilterNoDuplicates(ka, k => k in kb && k in ka && Lookup(a.entries, k) != Lookup(b.entries, k));
  }

  lemma FilterNoDuplicates<T>(s: seq<T>, p: T -> bool)
    requires NoDuplicates(s)
    ensures NoDuplicates(Filter(s, p))
  {
    NoDuplicatesMultiplicity(s);
    forall x ensures multiset(Filter(s, p))[x] <= multiset(s)[x] {
      FilterMultiplicity(s, p, x);
    }
    MultiplicityNoDuplicates(Filter(s, p));
  }
}
