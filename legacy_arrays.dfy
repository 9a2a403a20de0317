/** The older array helper of the runtime (src/runtime/arrays.ts). */
module LegacyArrays {
  import opened JsValues
  import Arrays

  /** `_notNull(val)`: the loose test `val != null`, false for both `null` and `undefined`. */
  predicate NotNull<T>(val: Nullable<T>): (r: bool)
    ensures r <==> val.Present?
  {
    !val.Null? && !val.Undefined?
  }

  /** `nodes.filter(_notNull)`. */
  function WithoutNulls<T>(nodes: seq<Nullable<T>>): (r: seq<T>)
    ensures |r| <= |nodes|
  {
    if nodes == [] then []
    else if NotNull(nodes[0]) then [nodes[0].value] + WithoutNulls(nodes[1..])
    else WithoutNulls(nodes[1..])
  }

  /**
   * Because `!= null` is loose, the old helper drops `undefined` as well, so it agrees
   * with `withoutNullsOrUndefines` of the framework package on every input.
   */
  lemma {:induction false} WithoutNullsAgrees<T>(nodes: seq<Nullable<T>>)
    ensures WithoutNulls(nodes) == Arrays.WithoutNullsOrUndefines(nodes)
    decreases |nodes|
  {
    if nodes != [] {
      WithoutNullsAgrees(nodes[1..]);
    }
  }

  /** The result has one entry per present input, i.e. per input that is neither `null` nor `undefined`. */
  lemma {:induction false} WithoutNullsLength<T>(nodes: seq<Nullable<T>>)
    ensures |WithoutNulls(nodes)| == |nodes| - multiset(nodes)[Null] - multiset(nodes)[Undefined]
    decreases |nodes|
  {
    if nodes != [] {
      WithoutNullsLength(nodes[1..]);
      assert nodes == [nodes[0]] + nodes[1..];
    }
  }
}
