/**
 * The array helpers of the framework runtime (packages/framework/src/runtime/arrays.ts):
 * dropping `null`/`undefined` children, the symmetric difference of two class lists,
 * and the keyed reconciliation of two arrays of strings into a list of operations.
 */
module Arrays {
  import opened Outcomes
  import opened JsValues
  import opened Sequences

  // ---------------------------------------------------------------------------------
  // withoutNullsOrUndefines
  // ---------------------------------------------------------------------------------

  /** `nodes.filter(val => val !== null && val !== undefined)`. */
  function WithoutNullsOrUndefines<T>(nodes: seq<Nullable<T>>): (r: seq<T>)
    ensures |r| <= |nodes|
    ensures forall i :: 0 <= i < |r| ==> Present(r[i]) in nodes
    ensures forall i :: 0 <= i < |nodes| && nodes[i].Present? ==> nodes[i].value in r
  {
    if nodes == [] then []
    else if !nodes[0].Null? && !nodes[0].Undefined? then [nodes[0].value] + WithoutNullsOrUndefines(nodes[1..])
    else WithoutNullsOrUndefines(nodes[1..])
  }

  predicate IsDefined<T>(v: Nullable<T>) {
    v.Present?
  }

  /** Dropping the missing entries is exactly JavaScript's `filter` with the defined-value test. */
  lemma {:induction false} WithoutNullsOrUndefinesIsFilter<T>(nodes: seq<Nullable<T>>)
    ensures Lift(WithoutNullsOrUndefines(nodes)) == Filter(nodes, IsDefined)
    decreases |nodes|
  {
    if nodes != [] {
      WithoutNullsOrUndefinesIsFilter(nodes[1..]);
      if nodes[0].Present? {
        LiftConcat([nodes[0].value], WithoutNullsOrUndefines(nodes[1..]));
      }
    }
  }

  /**
   * The surviving values keep their relative order, and every present value survives
   * as often as it occurs, while nothing else appears.
   */
  lemma WithoutNullsOrUndefinesKeepsPresent<T>(nodes: seq<Nullable<T>>)
    ensures IsSubsequence(Lift(WithoutNullsOrUndefines(nodes)), nodes)
    ensures forall v :: multiset(Lift(WithoutNullsOrUndefines(nodes)))[v] ==
                        if v.Present? then multiset(nodes)[v] else 0
  {
    WithoutNullsOrUndefinesIsFilter(nodes);
    FilterSubsequence(nodes, IsDefined);
    forall v ensures multiset(Filter(nodes, IsDefined))[v] == if v.Present? then multiset(nodes)[v] else 0 {
      FilterMultiplicity(nodes, IsDefined, v);
    }
  }

  // ---------------------------------------------------------------------------------
  // arraysDiff
  // ---------------------------------------------------------------------------------

  /** The class names a new class list gains and loses with respect to the old one. */
  datatype ArraysDiffResult = ArraysDiffResult(added: seq<string>, removed: seq<string>)

  /** `arraysDiff(a, b)`: `added` are the entries of `b` not in `a`, `removed` those of `a` not in `b`. */
  function ArraysDiff(a: seq<string>, b: seq<string>): (r: ArraysDiffResult)
    ensures forall x :: x in r.added <==> x in b && x !in a
    ensures forall x :: x in r.removed <==> x in a && x !in b
  {
    ArraysDiffResult(Filter(b, x => x !in a), Filter(a, x => x !in b))
  }

  /**
   * Both lists keep their source array's order and every occurrence of a kept entry,
   * and a class list compared with itself has no difference.
   */
  lemma ArraysDiffKeepsOccurrences(a: seq<string>, b: seq<string>)
    ensures IsSubsequence(ArraysDiff(a, b).added, b) && IsSubsequence(ArraysDiff(a, b).removed, a)
    ensures forall x :: multiset(ArraysDiff(a, b).added)[x] == if x in a then 0 else multiset(b)[x]
    ensures forall x :: multiset(ArraysDiff(a, b).removed)[x] == if x in b then 0 else multiset(a)[x]
  {
    var notInA := x => x !in a;
    var notInB := x => x !in b;
    assert ArraysDiff(a, b) == ArraysDiffResult(Filter(b, notInA), Filter(a, notInB));
    FilterSubsequence(b, notInA);
    FilterSubsequence(a, notInB);
    forall x ensures multiset(Filter(b, notInA))[x] == (if x in a then 0 else multiset(b)[x])
                 && multiset(Filter(a, notInB))[x] == (if x in b then 0 else multiset(a)[x]) {
      FilterMultiplicity(b, notInA, x);
      FilterMultiplicity(a, notInB, x);
    }
  }

  lemma {:induction false} ArraysDiffSelf(a: seq<string>)
    ensures ArraysDiff(a, a) == ArraysDiffResult([], [])
  {
    FilterEmptyWhenNoneKept(a, x => x !in a);
  }

  // ---------------------------------------------------------------------------------
  // arraysDiffSequence
  // ---------------------------------------------------------------------------------

  /**
   * One step of reconciliation. `index` is the position in the array being transformed;
   * `originalIndex` is where the item sat in the old array (or -1 for an added item).
   */
  datatype Operation =
    | Add(item: string, index: nat)
    | Remove(item: string, index: nat)
    | Move(item: string, originalIndex: int, from: nat, index: nat)
    | Noop(item: string, originalIndex: int, index: nat)

  /**
   * What a consumer of the operation list (patchDOM) does with one operation: add inserts,
   * remove deletes the named item, move relocates it, noop leaves the array alone. An
   * operation whose item does not sit where it says has no meaning (`None`).
   */
  function ApplyOperation(s: seq<string>, op: Operation): Option<seq<string>> {
    match op
    case Add(item, i) =>
      if i <= |s| then Some(InsertAt(s, i, item)) else None
    case Remove(item, i) =>
      if i < |s| && s[i] == item then Some(RemoveAt(s, i)) else None
    case Move(item, _, from, i) =>
      if from < |s| && s[from] == item && i < |s| then Some(InsertAt(RemoveAt(s, from), i, item)) else None
    case Noop(item, _, i) =>
      if i < |s| && s[i] == item then Some(s) else None
  }

  /** The operations applied in order, starting from `s`. */
  function ApplyOperations(s: seq<string>, ops: seq<Operation>): Option<seq<string>>
    decreases |ops|
  {
    if ops == [] then Some(s)
    else match ApplyOperations(s, ops[..|ops| - 1])
      case None => None
      case Some(t) => ApplyOperation(t, ops[|ops| - 1])
  }

  lemma ApplyOperationsSnoc(s: seq<string>, ops: seq<Operation>, op: Operation, t: seq<string>)
    requires ApplyOperations(s, ops) == Some(t)
    ensures ApplyOperations(s, ops + [op]) == ApplyOperation(t, op)
  {
    assert (ops + [op])[..|ops|] == ops;
  }

  /** The original positions that noop and move operations report, in order. */
  function ReportedIndices(ops: seq<Operation>): seq<int>
    decreases |ops|
  {
    if ops == [] then []
    else ReportedIndices(ops[..|ops| - 1]) + Reported(ops[|ops| - 1])
  }

  /** The original position one operation reports, if any. */
  function Reported(op: Operation): seq<int> {
    match op
    case Noop(_, oi, _) => [oi]
    case Move(_, oi, _, _) => [oi]
    case _ => []
  }

  lemma ReportedIndicesSnoc(ops: seq<Operation>, op: Operation)
    ensures ReportedIndices(ops + [op]) == ReportedIndices(ops) + Reported(op)
  {
    assert (ops + [op])[..|ops|] == ops;
  }

  /**
   * What each operation of `arraysDiffSequence(oldArray, newArray)` promises on its own:
   * added, kept and moved items land where `newArray` has them; kept and moved items
   * name their true position in `oldArray`; a move only pulls an item forward; a removal
   * inside the new length drops an item that `newArray` does not contain.
   */
  predicate OpFits(op: Operation, oldArray: seq<string>, newArray: seq<string>) {
    match op
    case Add(item, i) => i < |newArray| && newArray[i] == item
    case Noop(item, oi, i) =>
      i < |newArray| && newArray[i] == item && 0 <= oi < |oldArray| && oldArray[oi] == item
    case Move(item, oi, from, i) =>
      i < |newArray| && newArray[i] == item && 0 <= oi < |oldArray| && oldArray[oi] == item && i < from
    case Remove(item, i) => i <= |newArray| && (i < |newArray| ==> item !in newArray)
  }

  /** The working copy of the old array, with the original position of each item. */
  class ArrayWithOriginalIndices {
    /** The `#array` field: the array being transformed. */
    var items: seq<string>
    /** Parallel to `items`: where each item sat in the original array, -1 for an added one. */
    var originalIndices: seq<int>

    ghost predicate Valid()
      reads this
    {
      |items| == |originalIndices|
    }

    constructor (originalArray: seq<string>)
      ensures Valid() && items == originalArray
      ensures forall i :: 0 <= i < |originalArray| ==> originalIndices[i] == i
    {
      items := originalArray;
      originalIndices := seq(|originalArray|, i => i);
    }

    function GetOriginalIndex(index: nat): (r: int)
      reads this
      requires Valid() && index < |items|
      ensures r == originalIndices[index]
    {
      originalIndices[index]
    }

    /** The first position at or after `startPosition` holding `item`, or -1. */
    method GetFromIndex(item: string, startPosition: nat) returns (r: int)
      ensures r == -1 <==> forall k :: startPosition <= k < |items| ==> items[k] != item
      ensures r != -1 ==> startPosition <= r < |items| && items[r] == item
      ensures r != -1 ==> forall k :: startPosition <= k < r ==> items[k] != item
    {
      var i := startPosition;
      while i < |items|
        invariant startPosition <= i
        invariant forall k :: startPosition <= k < i && k < |items| ==> items[k] != item
      {
        if item == items[i] {
          return i;
        }
        i := i + 1;
      }
      return -1;
    }

    /** Inserts `item` at `index`; it has no original position. */
    method AddItem(item: string, index: nat) returns (op: Operation)
      requires Valid() && index <= |items|
      modifies this
      ensures Valid()
      ensures op == Add(item, index)
      ensures items == InsertAt(old(items), index, item)
      ensures originalIndices == InsertAt(old(originalIndices), index, -1)
    {
      items := InsertAt(items, index, item);
      originalIndices := InsertAt(originalIndices, index, -1);
      op := Add(item, index);
    }

    /** Reports the item at `index` as kept in place. */
    method Noop(index: nat) returns (op: Operation)
      requires Valid() && index < |items|
      ensures op == Operation.Noop(items[index], originalIndices[index], index)
    {
      op := Operation.Noop(items[index], GetOriginalIndex(index), index);
    }

    /** Deletes the item at `index` together with its original position. */
    method RemoveItem(index: nat) returns (op: Operation)
      requires Valid() && index < |items|
      modifies this
      ensures Valid()
      ensures op == Remove(old(items)[index], index)
      ensures items == RemoveAt(old(items), index)
      ensures originalIndices == RemoveAt(old(originalIndices), index)
    {
      var item := items[index];
      items := RemoveAt(items, index);
      originalIndices := RemoveAt(originalIndices, index);
      op := Remove(item, index);
    }

    /**
     * Moves the first occurrence of `item` after `toIndex` to `toIndex`, carrying its
     * original position along.
     */
    method MoveItem(item: string, toIndex: nat) returns (op: Operation)
      requires Valid() && toIndex < |items| && item in items[toIndex + 1..]
      modifies this
      ensures Valid() && op.Move?
      ensures toIndex < op.from < |old(items)| && old(items)[op.from] == item
      ensures forall k :: toIndex < k < op.from ==> old(items)[k] != item
      ensures op == Move(item, old(originalIndices)[op.from], op.from, toIndex)
      ensures items == InsertAt(RemoveAt(old(items), op.from), toIndex, item)
      ensures originalIndices ==
                InsertAt(RemoveAt(old(originalIndices), op.from), toIndex, old(originalIndices)[op.from])
    {
      var fromIndex := GetFromIndex(item, toIndex + 1);
      assert fromIndex != -1 by {
        var j :| toIndex + 1 <= j < |items| && items[j] == item by {
          var k :| 0 <= k < |items[toIndex + 1..]| && items[toIndex + 1..][k] == item;
          assert items[toIndex + 1 + k] == item;
        }
      }
      op := Move(item, GetOriginalIndex(fromIndex), fromIndex, toIndex);
      items := RemoveAt(items, fromIndex);
      items := InsertAt(items, toIndex, item);
      var originalIndex := originalIndices[fromIndex];
      originalIndices := RemoveAt(originalIndices, fromIndex);
      originalIndices := InsertAt(originalIndices, toIndex, originalIndex);
    }
  }

  /** The operation list when the two arrays are equal: a noop at every position. */
  function AllNoops(a: seq<string>, n: nat): (r: seq<Operation>)
    requires n <= |a|
    ensures |r| == n && forall i :: 0 <= i < n ==> r[i] == Noop(a[i], i, i)
  {
    seq(n, i requires 0 <= i < n => Noop(a[i], i, i))
  }

  /** The operation list when the old array is empty: an add at every position. */
  function AllAdds(a: seq<string>, n: nat): (r: seq<Operation>)
    requires n <= |a|
    ensures |r| == n && forall i :: 0 <= i < n ==> r[i] == Add(a[i], i)
  {
    seq(n, i requires 0 <= i < n => Add(a[i], i))
  }

  /** Every item at or after `idx` is an original item, and its marker says where it came from. */
  ghost predicate MarkersSound(oldArray: seq<string>, items: seq<string>, marks: seq<int>, idx: nat)
    requires |items| == |marks|
  {
    forall k :: idx <= k < |items| ==> 0 <= marks[k] < |oldArray| && oldArray[marks[k]] == items[k]
  }

  /** Every operation so far fits the two arrays and lies inside the new length. */
  ghost predicate OpsFitInside(ops: seq<Operation>, oldArray: seq<string>, newArray: seq<string>) {
    forall i :: 0 <= i < |ops| ==> OpFits(ops[i], oldArray, newArray) && ops[i].index < |newArray|
  }

  /** For equal arrays without empty strings, only noops have happened and nothing has moved. */
  ghost predicate IdenticalSoFar(oldArray: seq<string>, newArray: seq<string>, items: seq<string>, marks: seq<int>,
                                 ops: seq<Operation>, idx: nat)
  {
    oldArray == newArray && "" !in newArray ==>
      idx <= |newArray| && items == oldArray && ops == AllNoops(newArray, idx) &&
      forall k :: 0 <= k < |marks| ==> marks[k] == k
  }

  /** For an empty old array, only adds have happened. */
  ghost predicate AddedSoFar(oldArray: seq<string>, newArray: seq<string>, items: seq<string>,
                             ops: seq<Operation>, idx: nat)
  {
    oldArray == [] ==> idx <= |newArray| && items == newArray[..idx] && ops == AllAdds(newArray, idx)
  }

  /**
   * The state of the main loop of `arraysDiffSequence` before position `idx`: the working
   * copy agrees with `newArray` up to `idx`, it is what the operations so far produce,
   * the markers ahead are sound and together with the reported ones distinct, and the
   * two special cases (equal arrays, empty old array) have produced what they should.
   */
  ghost predicate MainInv(oldArray: seq<string>, newArray: seq<string>, items: seq<string>, marks: seq<int>,
                          ops: seq<Operation>, idx: nat)
  {
    && |items| == |marks|
    && idx <= |newArray| && idx <= |items|
    && items[..idx] == newArray[..idx]
    && ApplyOperations(oldArray, ops) == Some(items)
    && MarkersSound(oldArray, items, marks, idx)
    && NoDuplicates(ReportedIndices(ops) + marks[idx..])
    && OpsFitInside(ops, oldArray, newArray)
    && IdenticalSoFar(oldArray, newArray, items, marks, ops, idx)
    && AddedSoFar(oldArray, newArray, items, ops, idx)
  }

  lemma MainInvInit(oldArray: seq<string>, newArray: seq<string>)
    ensures MainInv(oldArray, newArray, oldArray, seq(|oldArray|, i => i), [], 0)
  {
    var marks := seq(|oldArray|, i => i);
    assert ReportedIndices([]) + marks[0..] == marks;
  }

  lemma PrefixStep(newArray: seq<string>, items: seq<string>, idx: nat)
    requires idx < |newArray| && idx < |items|
    requires items[..idx] == newArray[..idx] && items[idx] == newArray[idx]
    ensures items[..idx + 1] == newArray[..idx + 1]
  {
    assert items[..idx + 1] == items[..idx] + [items[idx]];
    assert newArray[..idx + 1] == newArray[..idx] + [newArray[idx]];
  }

  lemma MarkersInsert(oldArray: seq<string>, items: seq<string>, marks: seq<int>, idx: nat, x: string, m: int)
    requires |items| == |marks| && idx <= |items| && MarkersSound(oldArray, items, marks, idx)
    ensures MarkersSound(oldArray, InsertAt(items, idx, x), InsertAt(marks, idx, m), idx + 1)
  {
  }

  lemma MarkersRemove(oldArray: seq<string>, items: seq<string>, marks: seq<int>, idx: nat, f: nat)
    requires |items| == |marks| && idx <= f < |items| && MarkersSound(oldArray, items, marks, idx)
    ensures MarkersSound(oldArray, RemoveAt(items, f), RemoveAt(marks, f), idx)
  {
    var items', marks' := RemoveAt(items, f), RemoveAt(marks, f);
    forall k | idx <= k < |items'|
      ensures 0 <= marks'[k] < |oldArray| && oldArray[marks'[k]] == items'[k]
    {
      if k >= f {
        assert items'[k] == items[k + 1] && marks'[k] == marks[k + 1];
      }
    }
  }

  lemma OpsFitSnoc(ops: seq<Operation>, op: Operation, oldArray: seq<string>, newArray: seq<string>)
    requires OpsFitInside(ops, oldArray, newArray) && OpFits(op, oldArray, newArray) && op.index < |newArray|
    ensures OpsFitInside(ops + [op], oldArray, newArray)
  {
  }

  /** An add reports nothing and pushes the markers ahead one place along. */
  lemma UniqueAfterAdd(ops: seq<Operation>, marks: seq<int>, idx: nat, op: Operation)
    requires op.Add? && idx <= |marks| && NoDuplicates(ReportedIndices(ops) + marks[idx..])
    ensures NoDuplicates(ReportedIndices(ops + [op]) + InsertAt(marks, idx, -1)[idx + 1..])
  {
    ReportedIndicesSnoc(ops, op);
    assert ReportedIndices(ops + [op]) == ReportedIndices(ops) + [] == ReportedIndices(ops);
    assert InsertAt(marks, idx, -1)[idx + 1..] == marks[idx..];
  }

  /** A noop reports the marker at `idx`, which leaves the markers ahead. */
  lemma UniqueAfterNoop(ops: seq<Operation>, marks: seq<int>, idx: nat, op: Operation)
    requires idx < |marks| && op.Noop? && op.originalIndex == marks[idx]
    requires NoDuplicates(ReportedIndices(ops) + marks[idx..])
    ensures NoDuplicates(ReportedIndices(ops + [op]) + marks[idx + 1..])
  {
    ReportedIndicesSnoc(ops, op);
    assert Reported(op) == [marks[idx]];
    assert marks[idx..] == [marks[idx]] + marks[idx + 1..];
    ShiftOneKeepsDistinct(ReportedIndices(ops), marks[idx], marks[idx + 1..]);
  }

  lemma ShiftOneKeepsDistinct(a: seq<int>, x: int, b: seq<int>)
    requires NoDuplicates(a + ([x] + b))
    ensures NoDuplicates((a + [x]) + b)
  {
    assert a + ([x] + b) == (a + [x]) + b;
  }

  /** A removal reports nothing and drops the marker at `idx`. */
  lemma UniqueAfterRemove(ops: seq<Operation>, marks: seq<int>, idx: nat, op: Operation)
    requires idx < |marks| && op.Remove? && NoDuplicates(ReportedIndices(ops) + marks[idx..])
    ensures NoDuplicates(ReportedIndices(ops + [op]) + RemoveAt(marks, idx)[idx..])
  {
    ReportedIndicesSnoc(ops, op);
    assert ReportedIndices(ops + [op]) == ReportedIndices(ops) + [] == ReportedIndices(ops);
    assert RemoveAt(marks, idx)[idx..] == marks[idx + 1..];
    assert marks[idx..] == [marks[idx]] + marks[idx + 1..];
    DropOneKeepsDistinct(ReportedIndices(ops), marks[idx], marks[idx + 1..]);
  }

  lemma DropOneKeepsDistinct(a: seq<int>, x: int, b: seq<int>)
    requires NoDuplicates(a + ([x] + b))
    ensures NoDuplicates(a + b)
  {
    assert a + ([x] + b) == (a + [x]) + b;
    NoDuplicatesSubMultiset(a + ([x] + b), a + b);
  }

  /** A move reports the marker it carries from `f`, which leaves the markers ahead. */
  lemma UniqueAfterMove(ops: seq<Operation>, marks: seq<int>, idx: nat, f: nat, op: Operation)
    requires idx < f < |marks| && op.Move? && op.originalIndex == marks[f]
    requires NoDuplicates(ReportedIndices(ops) + marks[idx..])
    ensures NoDuplicates(ReportedIndices(ops + [op]) + InsertAt(RemoveAt(marks, f), idx, marks[f])[idx + 1..])
  {
    ReportedIndicesSnoc(ops, op);
    var removed := RemoveAt(marks, f);
    assert InsertAt(removed, idx, marks[f])[idx + 1..] == removed[idx..];
    assert removed[idx..] == marks[idx..f] + marks[f + 1..];
    assert marks[idx..] == marks[idx..f] + ([marks[f]] + marks[f + 1..]);
    MoveToFrontKeepsDistinct(ReportedIndices(ops), marks[idx..f], marks[f], marks[f + 1..]);
  }

  lemma MoveToFrontKeepsDistinct(a: seq<int>, p: seq<int>, x: int, q: seq<int>)
    requires NoDuplicates(a + (p + ([x] + q)))
    ensures NoDuplicates((a + [x]) + (p + q))
  {
    assert multiset((a + [x]) + (p + q)) == multiset(a + (p + ([x] + q)));
    NoDuplicatesSubMultiset(a + (p + ([x] + q)), (a + [x]) + (p + q));
  }

  /** Adding the new item at `idx` (no old item there, or the new item is not ahead). */
  lemma AddStep(oldArray: seq<string>, newArray: seq<string>, items: seq<string>, marks: seq<int>,
                ops: seq<Operation>, idx: nat)
    requires MainInv(oldArray, newArray, items, marks, ops, idx) && idx < |newArray|
    requires idx >= |items| || items[idx] == "" || (items[idx] != newArray[idx] && newArray[idx] !in items[idx + 1..])
    ensures MainInv(oldArray, newArray, InsertAt(items, idx, newArray[idx]), InsertAt(marks, idx, -1),
                    ops + [Add(newArray[idx], idx)], idx + 1)
  {
    var op := Add(newArray[idx], idx);
    var items' := InsertAt(items, idx, newArray[idx]);
    ApplyOperationsSnoc(oldArray, ops, op, items);
    MarkersInsert(oldArray, items, marks, idx, newArray[idx], -1);
    UniqueAfterAdd(ops, marks, idx, op);
    OpsFitSnoc(ops, op, oldArray, newArray);
    PrefixStep(newArray, items', idx);
    assert IdenticalSoFar(oldArray, newArray, items', InsertAt(marks, idx, -1), ops + [op], idx + 1) by {
      if oldArray == newArray && "" !in newArray {
        assert false;
      }
    }
    assert AddedSoFar(oldArray, newArray, items', ops + [op], idx + 1) by {
      if oldArray == [] {
        assert AllAdds(newArray, idx + 1) == AllAdds(newArray, idx) + [op];
      }
    }
  }

  /** The old item at `idx` is the new one: keep it. */
  lemma NoopStep(oldArray: seq<string>, newArray: seq<string>, items: seq<string>, marks: seq<int>,
                 ops: seq<Operation>, idx: nat)
    requires MainInv(oldArray, newArray, items, marks, ops, idx) && idx < |newArray|
    requires idx < |items| && items[idx] == newArray[idx]
    ensures MainInv(oldArray, newArray, items, marks, ops + [Noop(items[idx], marks[idx], idx)], idx + 1)
  {
    var op := Noop(items[idx], marks[idx], idx);
    ApplyOperationsSnoc(oldArray, ops, op, items);
    UniqueAfterNoop(ops, marks, idx, op);
    OpsFitSnoc(ops, op, oldArray, newArray);
    PrefixStep(newArray, items, idx);
    assert IdenticalSoFar(oldArray, newArray, items, marks, ops + [op], idx + 1) by {
      if oldArray == newArray && "" !in newArray {
        assert AllNoops(newArray, idx + 1) == AllNoops(newArray, idx) + [op];
      }
    }
  }

  /** The old item at `idx` does not occur in `newArray`: remove it and stay at `idx`. */
  lemma RemoveStep(oldArray: seq<string>, newArray: seq<string>, items: seq<string>, marks: seq<int>,
                   ops: seq<Operation>, idx: nat)
    requires MainInv(oldArray, newArray, items, marks, ops, idx) && idx < |newArray|
    requires idx < |items| && items[idx] !in newArray
    ensures MainInv(oldArray, newArray, RemoveAt(items, idx), RemoveAt(marks, idx),
                    ops + [Remove(items[idx], idx)], idx)
  {
    var op := Remove(items[idx], idx);
    var items' := RemoveAt(items, idx);
    ApplyOperationsSnoc(oldArray, ops, op, items);
    MarkersRemove(oldArray, items, marks, idx, idx);
    UniqueAfterRemove(ops, marks, idx, op);
    OpsFitSnoc(ops, op, oldArray, newArray);
    assert items'[..idx] == items[..idx];
    assert IdenticalSoFar(oldArray, newArray, items', RemoveAt(marks, idx), ops + [op], idx) by {
      if oldArray == newArray && "" !in newArray {
        assert false;
      }
    }
    assert AddedSoFar(oldArray, newArray, items', ops + [op], idx) by {
      if oldArray == [] {
        assert false;
      }
    }
  }

  /** The new item occurs first at `f` after `idx`: move it to `idx`. */
  lemma MoveStep(oldArray: seq<string>, newArray: seq<string>, items: seq<string>, marks: seq<int>,
                 ops: seq<Operation>, idx: nat, f: nat)
    requires MainInv(oldArray, newArray, items, marks, ops, idx) && idx < |newArray|
    requires idx < |items| && items[idx] != newArray[idx]
    requires idx < f < |items| && items[f] == newArray[idx]
    ensures MainInv(oldArray, newArray, InsertAt(RemoveAt(items, f), idx, newArray[idx]),
                    InsertAt(RemoveAt(marks, f), idx, marks[f]),
                    ops + [Move(newArray[idx], marks[f], f, idx)], idx + 1)
  {
    var op := Move(newArray[idx], marks[f], f, idx);
    var items' := InsertAt(RemoveAt(items, f), idx, newArray[idx]);
    var marks' := InsertAt(RemoveAt(marks, f), idx, marks[f]);
    ApplyOperationsSnoc(oldArray, ops, op, items);
    MarkersRemove(oldArray, items, marks, idx, f);
    MarkersInsert(oldArray, RemoveAt(items, f), RemoveAt(marks, f), idx, newArray[idx], marks[f]);
    UniqueAfterMove(ops, marks, idx, f, op);
    OpsFitSnoc(ops, op, oldArray, newArray);
    assert items'[..idx] == items[..idx];
    PrefixStep(newArray, items', idx);
    assert IdenticalSoFar(oldArray, newArray, items', marks', ops + [op], idx + 1) by {
      if oldArray == newArray && "" !in newArray {
        assert false;
      }
    }
    assert AddedSoFar(oldArray, newArray, items', ops + [op], idx + 1) by {
      if oldArray == [] {
        assert false;
      }
    }
  }

  /** After the main loop the reported positions alone are distinct. */
  lemma MainInvDone(oldArray: seq<string>, newArray: seq<string>, items: seq<string>, marks: seq<int>,
                    ops: seq<Operation>)
    requires MainInv(oldArray, newArray, items, marks, ops, |newArray|)
    ensures NoDuplicates(ReportedIndices(ops)) && items[..|newArray|] == newArray
  {
    NoDuplicatesSubMultiset(ReportedIndices(ops) + marks[|newArray|..], ReportedIndices(ops));
  }

  /**
   * The state of the trailing loop: the working copy starts with `newArray`, the main
   * loop's operations `mainOps` are followed only by removals at the new length.
   */
  ghost predicate TailInv(oldArray: seq<string>, newArray: seq<string>, items: seq<string>,
                          mainOps: seq<Operation>, ops: seq<Operation>)
  {
    && |items| >= |newArray| && items[..|newArray|] == newArray
    && ApplyOperations(oldArray, ops) == Some(items)
    && |mainOps| <= |ops| && ops[..|mainOps|] == mainOps
    && (forall i :: 0 <= i < |mainOps| ==> mainOps[i].index < |newArray|)
    && (forall i :: |mainOps| <= i < |ops| ==> ops[i] == Remove(ops[i].item, |newArray|))
    && (forall i :: 0 <= i < |ops| ==> OpFits(ops[i], oldArray, newArray))
    && ReportedIndices(ops) == ReportedIndices(mainOps)
  }

  lemma TailStep(oldArray: seq<string>, newArray: seq<string>, items: seq<string>,
                 mainOps: seq<Operation>, ops: seq<Operation>)
    requires TailInv(oldArray, newArray, items, mainOps, ops) && |items| > |newArray|
    ensures TailInv(oldArray, newArray, RemoveAt(items, |newArray|), mainOps,
                    ops + [Remove(items[|newArray|], |newArray|)])
  {
    var op := Remove(items[|newArray|], |newArray|);
    ApplyOperationsSnoc(oldArray, ops, op, items);
    ReportedIndicesSnoc(ops, op);
    assert RemoveAt(items, |newArray|)[..|newArray|] == items[..|newArray|];
    assert (ops + [op])[..|mainOps|] == ops[..|mainOps|];
  }

  /** Once only the trailing removals are left, no operation at the new length precedes one inside it. */
  lemma TailDone(oldArray: seq<string>, newArray: seq<string>, items: seq<string>,
                 mainOps: seq<Operation>, ops: seq<Operation>)
    requires TailInv(oldArray, newArray, items, mainOps, ops)
    ensures forall i, j :: 0 <= i < j < |ops| && ops[i].index == |newArray| ==>
              ops[j] == Remove(ops[j].item, |newArray|)
  {
    forall i, j | 0 <= i < j < |ops| && ops[i].index == |newArray|
      ensures ops[j] == Remove(ops[j].item, |newArray|)
    {
      assert i >= |mainOps|;
    }
  }

  /** The main loop of `arraysDiffSequence`: walks `newArray`, bringing the working copy in line up to each position. */
  method MainPass(current: ArrayWithOriginalIndices, oldArray: seq<string>, newArray: seq<string>) returns (ops: seq<Operation>)
    requires current.Valid() && current.items == oldArray
    requires forall i :: 0 <= i < |oldArray| ==> current.originalIndices[i] == i
    modifies current
    ensures current.Valid()
    ensures MainInv(oldArray, newArray, current.items, current.originalIndices, ops, |newArray|)
  {
    ops := [];
    var idx := 0;
    MainInvInit(oldArray, newArray);
    assert current.originalIndices == seq(|oldArray|, i => i);
    while idx < |newArray|
      invariant current.Valid()
      invariant MainInv(oldArray, newArray, current.items, current.originalIndices, ops, idx)
      decreases |newArray| - idx, |current.items|
    {
      ops, idx := MainStep(current, oldArray, newArray, ops, idx);
    }
  }

  /**
   * One round of the main loop at position `idx`: an add, a noop or a move moves on to the
   * next position, a removal looks at the same position again with one item fewer.
   */
  method MainStep(current: ArrayWithOriginalIndices, oldArray: seq<string>, newArray: seq<string>,
                  ops: seq<Operation>, idx: nat) returns (ops': seq<Operation>, idx': nat)
    requires current.Valid() && idx < |newArray|
    requires MainInv(oldArray, newArray, current.items, current.originalIndices, ops, idx)
    modifies current
    ensures current.Valid()
    ensures MainInv(oldArray, newArray, current.items, current.originalIndices, ops', idx')
    ensures idx' == idx + 1 || (idx' == idx && |current.items| < old(|current.items|))
  {
    var newItem := newArray[idx];
    ghost var items := current.items;
    ghost var marks := current.originalIndices;
    idx' := idx + 1;
    var op;
    if idx >= |current.items| || current.items[idx] == "" {
      // no item at this position (or a falsy one): add the new item here
      AddStep(oldArray, newArray, items, marks, ops, idx);
      op := current.AddItem(newItem, idx);
    } else if newItem == current.items[idx] {
      NoopStep(oldArray, newArray, items, marks, ops, idx);
      op := current.Noop(idx);
    } else if current.items[idx] !in newArray {
      // the old item is gone from the new array: remove it and look at this position again
      RemoveStep(oldArray, newArray, items, marks, ops, idx);
      op := current.RemoveItem(idx);
      idx' := idx;
    } else if newItem in current.items[idx + 1..] {
      op := current.MoveItem(newItem, idx);
      MoveStep(oldArray, newArray, items, marks, ops, idx, op.from);
    } else {
      AddStep(oldArray, newArray, items, marks, ops, idx);
      op := current.AddItem(newItem, idx);
    }
    ops' := ops + [op];
  }

  /** The trailing loop of `arraysDiffSequence`: removes whatever lies past the new length. */
  method TrailingRemovals(current: ArrayWithOriginalIndices, oldArray: seq<string>, newArray: seq<string>,
                          mainOps: seq<Operation>) returns (ops: seq<Operation>)
    requires current.Valid() && TailInv(oldArray, newArray, current.items, mainOps, mainOps)
    modifies current
    ensures current.Valid() && TailInv(oldArray, newArray, current.items, mainOps, ops)
    ensures |current.items| == |newArray|
    ensures old(|current.items|) == |newArray| ==> ops == mainOps
  {
    ops := mainOps;
    while |current.items| > |newArray|
      invariant current.Valid()
      invariant TailInv(oldArray, newArray, current.items, mainOps, ops)
      invariant old(|current.items|) == |newArray| ==> ops == mainOps && |current.items| == |newArray|
      decreases |current.items|
    {
      TailStep(oldArray, newArray, current.items, mainOps, ops);
      var op := current.RemoveItem(|newArray|);
      ops := ops + [op];
    }
  }

  /**
   * `arraysDiffSequence(oldArray, newArray)` with the default `===` comparison. It throws on
   * an empty new array; otherwise the operations, applied in order to `oldArray`, produce
   * `newArray`, each fits the two arrays, no original position is reported twice, and the
   * removals past the new length come last.
   */
  method ArraysDiffSequence(oldArray: seq<string>, newArray: seq<string>) returns (r: Outcome<seq<Operation>>)
    ensures r.Threw? <==> newArray == []
    ensures r.Threw? ==> r.message == "the new array is empty!"
    ensures r.Done? ==> ApplyOperations(oldArray, r.value) == Some(newArray)
    ensures r.Done? ==> forall i :: 0 <= i < |r.value| ==> OpFits(r.value[i], oldArray, newArray)
    ensures r.Done? ==> NoDuplicates(ReportedIndices(r.value))
    ensures r.Done? ==> forall i, j :: 0 <= i < j < |r.value| && r.value[i].index == |newArray| ==>
                          r.value[j] == Remove(r.value[j].item, |newArray|)
    ensures r.Done? && oldArray == newArray && "" !in newArray ==> r.value == AllNoops(newArray, |newArray|)
    ensures r.Done? && oldArray == [] ==> r.value == AllAdds(newArray, |newArray|)
  {
    var current := new ArrayWithOriginalIndices(oldArray);
    if |newArray| < 1 {
      return Threw("the new array is empty!");
    }
    var mainOps := MainPass(current, oldArray, newArray);
    MainInvDone(oldArray, newArray, current.items, current.originalIndices, mainOps);
    assert (oldArray == newArray && "" !in newArray) || oldArray == [] ==> |current.items| == |newArray|;
    var ops := TrailingRemovals(current, oldArray, newArray, mainOps);
    TailDone(oldArray, newArray, current.items, mainOps, ops);
    assert current.items == newArray;
    return Done(ops);
  }
}
