/**
 * Sequence operations that JavaScript arrays provide natively (`filter`, `includes`,
 * `indexOf`, `splice`), stated once and proved once, for the modules that model the runtime.
 */
module Sequences {

  /** `s.filter(p)`: the elements of `s` that satisfy `p`, in their order. */
  function Filter<T>(s: seq<T>, p: T -> bool): (r: seq<T>)
    ensures |r| <= |s|
    ensures forall i :: 0 <= i < |r| ==> r[i] in s && p(r[i])
    ensures forall i :: 0 <= i < |s| && p(s[i]) ==> s[i] in r
  {
    if s == [] then []
    else if p(s[0]) then [s[0]] + Filter(s[1..], p)
    else Filter(s[1..], p)
  }

  /** `a` can be obtained from `b` by deleting elements: `a` keeps `b`'s order. */
  predicate IsSubsequence<T(==)>(a: seq<T>, b: seq<T>)
    decreases |b|
  {
    if a == [] then true
    else if b == [] then false
    else (a[0] == b[0] && IsSubsequence(a[1..], b[1..])) || IsSubsequence(a, b[1..])
  }

  lemma {:induction false} FilterSubsequence<T>(s: seq<T>, p: T -> bool)
    ensures IsSubsequence(Filter(s, p), s)
    decreases |s|
  {
    if s != [] {
      FilterSubsequence(s[1..], p);
    }
  }

  /** Filtering keeps every occurrence of a kept value and no occurrence of a dropped one. */
  lemma {:induction false} FilterMultiplicity<T>(s: seq<T>, p: T -> bool, x: T)
    ensures multiset(Filter(s, p))[x] == if p(x) then multiset(s)[x] else 0
    decreases |s|
  {
    if s != [] {
      FilterMultiplicity(s[1..], p, x);
      assert s == [s[0]] + s[1..];
    }
  }

  lemma {:induction false} FilterConcat<T>(a: seq<T>, b: seq<T>, p: T -> bool)
    ensures Filter(a + b, p) == Filter(a, p) + Filter(b, p)
    decreases |a|
  {
    if a == [] {
      assert a + b == b;
    } else {
      assert Filter(a + b, p) == if p(a[0]) then [a[0]] + Filter(a[1..] + b, p) else Filter(a[1..] + b, p) by {
        assert (a + b)[0] == a[0];
        assert (a + b)[1..] == a[1..] + b;
      }
      FilterConcat(a[1..], b, p);
    }
  }

  /** Pointwise-equal predicates filter alike. */
  lemma {:induction false} FilterExtensional<T>(s: seq<T>, p: T -> bool, q: T -> bool)
    requires forall x :: x in s ==> p(x) == q(x)
    ensures Filter(s, p) == Filter(s, q)
    decreases |s|
  {
    if s != [] {
      FilterExtensional(s[1..], p, q);
    }
  }

  /** A filter that keeps nothing of `s` returns the empty array. */
  lemma {:induction false} FilterEmptyWhenNoneKept<T>(s: seq<T>, p: T -> bool)
    requires forall x :: x in s ==> !p(x)
    ensures Filter(s, p) == []
    decreases |s|
  {
    if s != [] {
      FilterEmptyWhenNoneKept(s[1..], p);
    }
  }

  /** No key occurs twice in a list of entries, as in the entries of an object. */
  predicate DistinctKeys<K(==), V>(s: seq<(K, V)>) {
    forall i, j :: 0 <= i < j < |s| ==> s[i].0 != s[j].0
  }

  /** Some entry has key `k`. */
  predicate HasKey<K(==), V>(s: seq<(K, V)>, k: K) {
    exists i :: 0 <= i < |s| && s[i].0 == k
  }

  lemma {:induction false} FilterDistinctKeys<K, V>(s: seq<(K, V)>, p: ((K, V)) -> bool)
    requires DistinctKeys(s)
    ensures DistinctKeys(Filter(s, p))
    decreases |s|
  {
    if s != [] {
      assert DistinctKeys(s[1..]) by {
        forall i, j | 0 <= i < j < |s[1..]| ensures s[1..][i].0 != s[1..][j].0 {
          assert s[1..][i] == s[i + 1] && s[1..][j] == s[j + 1];
        }
      }
      FilterDistinctKeys(s[1..], p);
      var r := Filter(s[1..], p);
      forall k | 0 <= k < |r| ensures r[k].0 != s[0].0 {
        var j :| 0 <= j < |s[1..]| && s[1..][j] == r[k];
        assert s[1..][j] == s[j + 1];
      }
    }
  }

  /** No value occurs twice. */
  predicate NoDuplicates<T(==)>(s: seq<T>) {
    forall i, j :: 0 <= i < j < |s| ==> s[i] != s[j]
  }

  lemma {:induction false} NoDuplicatesMultiplicity<T>(s: seq<T>)
    requires NoDuplicates(s)
    ensures forall x :: multiset(s)[x] <= 1
    decreases |s|
  {
    if s != [] {
      assert NoDuplicates(s[1..]) by {
        forall i, j | 0 <= i < j < |s[1..]| ensures s[1..][i] != s[1..][j] {
          assert s[1..][i] == s[i + 1] && s[1..][j] == s[j + 1];
        }
      }
      NoDuplicatesMultiplicity(s[1..]);
      assert s == [s[0]] + s[1..];
      assert s[0] !in s[1..] by {
        forall j | 0 <= j < |s[1..]| ensures s[1..][j] != s[0] {
          assert s[1..][j] == s[j + 1];
        }
      }
    }
  }

  lemma {:induction false} MultiplicityNoDuplicates<T>(s: seq<T>)
    requires forall x :: multiset(s)[x] <= 1
    ensures NoDuplicates(s)
    decreases |s|
  {
    if s != [] {
      assert s == [s[0]] + s[1..];
      assert forall x :: multiset(s[1..])[x] <= multiset(s)[x];
      MultiplicityNoDuplicates(s[1..]);
      assert multiset(s)[s[0]] == 1 + multiset(s[1..])[s[0]];
      assert s[0] !in s[1..];
      forall i, j | 0 <= i < j < |s| ensures s[i] != s[j] {
        assert s[j] == s[1..][j - 1];
        if i > 0 {
          assert s[i] == s[1..][i - 1];
        }
      }
    }
  }

  /** Dropping or reordering elements keeps a sequence free of duplicates. */
  lemma NoDuplicatesSubMultiset<T>(s: seq<T>, t: seq<T>)
    requires NoDuplicates(s) && multiset(t) <= multiset(s)
    ensures NoDuplicates(t)
  {
    NoDuplicatesMultiplicity(s);
    MultiplicityNoDuplicates(t);
  }

  /** A non-empty sequence is its prefix followed by its last element. */
  lemma LastSplit<T>(s: seq<T>)
    requires s != []
    ensures s == s[..|s| - 1] + [s[|s| - 1]]
  {
  }

  /** `s.splice(i, 0, x)`. */
  function InsertAt<T>(s: seq<T>, i: nat, x: T): (r: seq<T>)
    requires i <= |s|
    ensures |r| == |s| + 1 && r[i] == x
    ensures r[..i] == s[..i] && r[i + 1..] == s[i..]
    ensures forall k :: 0 <= k < i ==> r[k] == s[k]
    ensures forall k :: i < k <= |s| ==> r[k] == s[k - 1]
  {
    s[..i] + [x] + s[i..]
  }

  /** `s.splice(i, 1)` for an index inside the array. */
  function RemoveAt<T>(s: seq<T>, i: nat): (r: seq<T>)
    requires i < |s|
    ensures |r| == |s| - 1
    ensures r[..i] == s[..i] && r[i..] == s[i + 1..]
    ensures forall k :: 0 <= k < i ==> r[k] == s[k]
    ensures forall k :: i <= k < |s| - 1 ==> r[k] == s[k + 1]
  {
    s[..i] + s[i + 1..]
  }

  /** `s.indexOf(x)`: the first position holding `x`, or -1. */
  function IndexOf<T(==)>(s: seq<T>, x: T): (r: int)
    ensures -1 <= r < |s|
    ensures r == -1 <==> x !in s
    ensures r >= 0 ==> s[r] == x && x !in s[..r]
  {
    if s == [] then -1
    else if s[0] == x then 0
    else var k := IndexOf(s[1..], x); if k == -1 then -1 else k + 1
  }

  /**
   * `s.splice(start, 1)` for any integer `start`: a negative start counts
   * from the end (clamped at 0), a start at or past the end removes nothing.
   */
  function SpliceOne<T>(s: seq<T>, start: int): (r: seq<T>)
    ensures 0 <= start < |s| ==> r == RemoveAt(s, start)
    ensures -|s| <= start < 0 ==> r == RemoveAt(s, |s| + start)
    ensures start < -|s| && s != [] ==> r == RemoveAt(s, 0)
    ensures start >= |s| ==> r == s
    ensures s == [] ==> r == []
  {
    var k := if start < 0 then (if |s| + start < 0 then 0 else |s| + start) else start;
    if k < |s| then s[..k] + s[k + 1..] else s
  }

  /** The values `s` holds. */
  function Elements<T(!new)>(s: seq<T>): (r: set<T>)
    ensures forall x :: x in r <==> x in s
  {
    set x | x in s
  }

  /** `s` with every occurrence of a value in `xs` removed (a DOM parent losing detached children). */
  function Without<T(==)>(s: seq<T>, xs: set<T>): (r: seq<T>)
    ensures forall i :: 0 <= i < |r| ==> r[i] in s && r[i] !in xs
    ensures forall i :: 0 <= i < |s| && s[i] !in xs ==> s[i] in r
  {
    if s == [] then []
    else if s[0] in xs then Without(s[1..], xs)
    else [s[0]] + Without(s[1..], xs)
  }

  lemma {:induction false} WithoutConcat<T>(a: seq<T>, b: seq<T>, xs: set<T>)
    ensures Without(a + b, xs) == Without(a, xs) + Without(b, xs)
    decreases |a|
  {
    if a == [] {
      assert a + b == b;
    } else {
      assert Without(a + b, xs) == if a[0] in xs then Without(a[1..] + b, xs) else [a[0]] + Without(a[1..] + b, xs) by {
        assert (a + b)[0] == a[0];
        assert (a + b)[1..] == a[1..] + b;
      }
      WithoutConcat(a[1..], b, xs);
    }
  }

  lemma {:induction false} WithoutDisjoint<T>(s: seq<T>, xs: set<T>)
    requires forall x :: x in s ==> x !in xs
    ensures Without(s, xs) == s
    decreases |s|
  {
    if s != [] {
      WithoutDisjoint(s[1..], xs);
    }
  }

  lemma {:induction false} WithoutAll<T>(s: seq<T>, xs: set<T>)
    requires forall x :: x in s ==> x in xs
    ensures Without(s, xs) == []
    decreases |s|
  {
    if s != [] {
      WithoutAll(s[1..], xs);
    }
  }

  lemma {:induction false} WithoutUnion<T>(s: seq<T>, xs: set<T>, ys: set<T>)
    ensures Without(Without(s, xs), ys) == Without(s, xs + ys)
    decreases |s|
  {
    if s != [] {
      WithoutUnion(s[1..], xs, ys);
    }
  }

  lemma {:induction false} WithoutEmpty<T>(s: seq<T>)
    ensures Without(s, {}) == s
    decreases |s|
  {
    if s != [] {
      WithoutEmpty(s[1..]);
    }
  }
}
