/** Values that may be missing, and the outcome of an operation that may throw. */
module Outcomes {

  /** JavaScript's `undefined`/absent value for an optional field. */
  datatype Option<+T> = None | Some(value: T)

  /** The result of a call that either returns normally or throws an `Error` with a message. */
  datatype Outcome<+T> = Done(value: T) | Threw(message: string)
}

/** JavaScript values that may be `null` or `undefined`, as they appear in arrays of children. */
module JsValues {

  datatype Nullable<+T> = Null | Undefined | Present(value: T)

  /** Lifts plain values back into the nullable domain, position by position. */
  function Lift<T>(s: seq<T>): (r: seq<Nullable<T>>)
    ensures |r| == |s|
    ensures forall i :: 0 <= i < |s| ==> r[i] == Present(s[i])
  {
    if s == [] then [] else [Present(s[0])] + Lift(s[1..])
  }

  lemma {:induction false} LiftConcat<T>(a: seq<T>, b: seq<T>)
    ensures Lift(a + b) == Lift(a) + Lift(b)
  {
    if a != [] {
      assert (a + b)[1..] == a[1..] + b;
      LiftConcat(a[1..], b);
    }
  }
}
