/**
 * Sequence utilities of the tools: filtering, first match, concatenation
 * and Python's `list.sort`, which is stable also with `reverse=True`,
 * written as a stable insertion sort over a strict "goes before" order:
 * each later element is inserted after every element it does not go
 * strictly before, so ties keep their original order.
 */
module Sorting {

  /** `before` is irreflexive and transitive, as "greater key" and lexicographic "smaller tuple" are. */
  ghost predicate StrictOrder<T(!new)>(before: (T, T) -> bool) {
    (forall a :: !before(a, a))
    && forall a, b, c :: before(a, b) && before(b, c) ==> before(a, c)
  }

  /** No element goes before an element that precedes it. */
  ghost predicate Sorted<T>(xs: seq<T>, before: (T, T) -> bool) {
    forall i, j | 0 <= i < j < |xs| :: !before(xs[j], xs[i])
  }

  /** Inserts `x` into `ys` just before the first element that `x` goes strictly before. */
  function Insert<T>(x: T, ys: seq<T>, before: (T, T) -> bool): (r: seq<T>)
    ensures multiset(r) == multiset(ys) + multiset{x}
    ensures |r| == |ys| + 1
  {
    if ys == [] then [x]
    else if before(x, ys[0]) then [x] + ys
    else
      var rest := Insert(x, ys[1..], before);
      assert ys == [ys[0]] + ys[1..];
      [ys[0]] + rest
  }

  /** The stable sort: elements are inserted in their original order. */
  function Sort<T>(xs: seq<T>, before: (T, T) -> bool): (r: seq<T>)
    ensures multiset(r) == multiset(xs)
    ensures |r| == |xs|
  {
    if xs == [] then []
    else
      var r := Insert(xs[|xs| - 1], Sort(xs[..|xs| - 1], before), before);
      assert xs == xs[..|xs| - 1] + [xs[|xs| - 1]];
      r
  }

  /** What cannot go before `y` cannot go before anything that goes before `y`. */
  lemma NotBeforeChain<T(!new)>(x: T, y: T, z: T, before: (T, T) -> bool)
    requires StrictOrder(before) && before(x, y) && !before(z, y)
    ensures !before(z, x)
  {
  }

  lemma SortedTail<T>(ys: seq<T>, before: (T, T) -> bool)
    requires ys != [] && Sorted(ys, before)
    ensures Sorted(ys[1..], before)
  {
    var tail := ys[1..];
    forall i, j | 0 <= i < j < |tail| ensures !before(tail[j], tail[i]) {
      assert tail[i] == ys[i + 1] && tail[j] == ys[j + 1];
    }
  }

  /** When `x` goes behind the head, the head stays first and the sorted rest follows it. */
  lemma InsertBehindHead<T>(x: T, ys: seq<T>, before: (T, T) -> bool)
    requires ys != [] && !before(x, ys[0]) && Sorted(ys, before)
    requires Sorted(Insert(x, ys[1..], before), before)
    ensures Sorted([ys[0]] + Insert(x, ys[1..], before), before)
  {
    var tail := ys[1..];
    var rest := Insert(x, tail, before);
    var r := [ys[0]] + rest;
    forall j | 0 < j < |r| ensures !before(r[j], r[0]) {
      assert r[j] in multiset(rest);
      assert r[j] in multiset(tail) || r[j] == x;
      if r[j] != x {
        var k :| 0 <= k < |tail| && tail[k] == r[j];
        assert ys[k + 1] == r[j];
      }
    }
    forall i, j | 0 <= i < j < |r| ensures !before(r[j], r[i]) {
      if i > 0 {
        assert r[i] == rest[i - 1] && r[j] == rest[j - 1];
      }
    }
  }

  lemma {:induction false} InsertSorted<T(!new)>(x: T, ys: seq<T>, before: (T, T) -> bool)
    requires StrictOrder(before) && Sorted(ys, before)
    ensures Sorted(Insert(x, ys, before), before)
    decreases |ys|
  {
    if ys != [] && !before(x, ys[0]) {
      var tail := ys[1..];
      SortedTail(ys, before);
      InsertSorted(x, tail, before);
      InsertBehindHead(x, ys, before);
    } else if ys != [] {
      var r := [x] + ys;
      forall i, j | 0 <= i < j < |r| ensures !before(r[j], r[i]) {
        if i == 0 {
          assert r[j] == ys[j - 1];
          NotBeforeChain(x, ys[0], ys[j - 1], before);
        } else {
          assert r[i] == ys[i - 1] && r[j] == ys[j - 1];
        }
      }
    }
  }

  /** The sort puts every element after all those it does not go strictly before, and loses or adds nothing. */
  lemma {:induction false} SortSorted<T(!new)>(xs: seq<T>, before: (T, T) -> bool)
    requires StrictOrder(before)
    ensures Sorted(Sort(xs, before), before)
    ensures multiset(Sort(xs, before)) == multiset(xs)
  {
    if xs != [] {
      SortSorted(xs[..|xs| - 1], before);
      InsertSorted(xs[|xs| - 1], Sort(xs[..|xs| - 1], before), before);
    }
  }

  /** `[x for x in xs if p(x)]`: the elements satisfying `p`, in order. */
  function Filter<T>(xs: seq<T>, p: T -> bool): (r: seq<T>)
    ensures forall i | 0 <= i < |r| :: p(r[i]) && r[i] in xs
    ensures forall i | 0 <= i < |xs| && p(xs[i]) :: xs[i] in r
    ensures |r| <= |xs|
  {
    if xs == [] then []
    else
      var q := xs[..|xs| - 1];
      var f := Filter(q, p);
      assert forall i | 0 <= i < |q| :: q[i] == xs[i];
      if p(xs[|xs| - 1]) then f + [xs[|xs| - 1]] else f
  }

  /** Keeping some elements of a sorted sequence keeps it sorted. */
  lemma {:induction false} FilterSorted<T>(xs: seq<T>, p: T -> bool, before: (T, T) -> bool)
    requires Sorted(xs, before)
    ensures Sorted(Filter(xs, p), before)
  {
    if xs != [] {
      var q := xs[..|xs| - 1];
      var x := xs[|xs| - 1];
      assert Sorted(q, before) by {
        forall i, j | 0 <= i < j < |q| ensures !before(q[j], q[i]) {
          assert q[i] == xs[i] && q[j] == xs[j];
        }
      }
      FilterSorted(q, p, before);
      var f := Filter(q, p);
      if p(x) {
        var r := f + [x];
        forall i, j | 0 <= i < j < |r| ensures !before(r[j], r[i]) {
          if j == |f| {
            assert r[i] == f[i];
            var k :| 0 <= k < |q| && q[k] == r[i];
            assert xs[k] == r[i];
          } else {
            assert r[i] == f[i] && r[j] == f[j];
          }
        }
      }
    }
  }

  /**
   * In a sorted sequence, the first element satisfying `p` is one that no
   * other element satisfying `p` goes before: a first match is a best match.
   */
  lemma FirstIsBest<T(!new)>(xs: seq<T>, i: nat, p: T -> bool, before: (T, T) -> bool)
    requires StrictOrder(before) && Sorted(xs, before)
    requires i < |xs| && p(xs[i]) && forall j | 0 <= j < i :: !p(xs[j])
    ensures forall y | y in xs && p(y) :: !before(y, xs[i])
  {
    forall y | y in xs && p(y) ensures !before(y, xs[i]) {
      var j :| 0 <= j < |xs| && xs[j] == y;
      assert j >= i;
    }
  }

  /** The index of the first element satisfying `p`, or `|xs|` when there is none. */
  function FirstIndex<T>(xs: seq<T>, p: T -> bool): (i: nat)
    ensures i <= |xs|
    ensures i < |xs| ==> p(xs[i])
    ensures forall j | 0 <= j < i :: !p(xs[j])
    decreases |xs|
  {
    if xs == [] then 0
    else if p(xs[0]) then 0
    else
      var k := FirstIndex(xs[1..], p);
      assert forall j | 1 <= j < k + 1 :: xs[j] == xs[1..][j - 1];
      k + 1
  }

  /** An index before which nothing satisfies `p`, and at which `p` holds or the sequence ends, is the first index. */
  lemma FirstIndexAt<T>(xs: seq<T>, p: T -> bool, i: nat)
    requires i <= |xs| && (i < |xs| ==> p(xs[i])) && forall j | 0 <= j < i :: !p(xs[j])
    ensures FirstIndex(xs, p) == i
  {
  }

  /** A scan `for x in xs: if p(x): return x` stopping at the first match. */
  method FindFirst<T>(xs: seq<T>, p: T -> bool) returns (i: nat)
    ensures i == FirstIndex(xs, p)
  {
    i := 0;
    while i < |xs|
      invariant i <= |xs| && forall j | 0 <= j < i :: !p(xs[j])
    {
      if p(xs[i]) {
        FirstIndexAt(xs, p, i);
        return;
      }
      i := i + 1;
    }
    FirstIndexAt(xs, p, i);
  }

  /** Keeping what every element satisfies keeps everything. */
  lemma {:induction false} FilterKeepsAll<T>(xs: seq<T>, p: T -> bool)
    requires forall i | 0 <= i < |xs| :: p(xs[i])
    ensures Filter(xs, p) == xs
  {
    if xs != [] {
      FilterKeepsAll(xs[..|xs| - 1], p);
      assert xs[..|xs| - 1] + [xs[|xs| - 1]] == xs;
    }
  }
  /** The elements of several sequences, one sequence after the other. */
  function Concat<T>(xss: seq<seq<T>>): seq<T> {
    if xss == [] then [] else Concat(xss[..|xss| - 1]) + xss[|xss| - 1]
  }

  lemma {:induction false} ConcatMember<T>(xss: seq<seq<T>>, x: T)
    requires x in Concat(xss)
    ensures exists j | 0 <= j < |xss| :: x in xss[j]
  {
    var p := xss[..|xss| - 1];
    if x in Concat(p) {
      ConcatMember(p, x);
      var j :| 0 <= j < |p| && x in p[j];
      assert xss[j] == p[j];
    } else {
      assert x in xss[|xss| - 1];
    }
  }
  /** Sequences of one length `n` concatenate to `n` elements each. */
  lemma {:induction false} ConcatUniform<T>(xss: seq<seq<T>>, n: nat)
    requires forall j | 0 <= j < |xss| :: |xss[j]| == n
    ensures |Concat(xss)| == |xss| * n
  {
    if xss != [] {
      var k := |xss| - 1;
      var p := xss[..k];
      assert forall j | 0 <= j < |p| :: p[j] == xss[j];
      ConcatUniform(p, n);
      assert |Concat(xss)| == |Concat(p)| + |xss[k]|;
      MultiplySucc(k, n);
    }
  }

  lemma MultiplySucc(k: nat, n: nat)
    ensures (k + 1) * n == k * n + n
  {
  }
  /** `max(xs, key=len)`: the first element of the greatest length. */
  function Longest<T>(xs: seq<seq<T>>): seq<T>
    requires xs != []
  {
    if |xs| == 1 then xs[0]
    else
      var b := Longest(xs[..|xs| - 1]);
      if |xs[|xs| - 1]| > |b| then xs[|xs| - 1] else b
  }

  /** The longest element occurs in `xs`, nothing is longer, and everything before its first position is shorter. */
  lemma {:induction false} LongestIsFirstMaximum<T>(xs: seq<seq<T>>)
    requires xs != []
    ensures exists i | 0 <= i < |xs| :: xs[i] == Longest(xs) && forall j | 0 <= j < i :: |xs[j]| < |Longest(xs)|
    ensures forall j | 0 <= j < |xs| :: |xs[j]| <= |Longest(xs)|
  {
    if |xs| > 1 {
      var k := |xs| - 1;
      var p := xs[..k];
      LongestIsFirstMaximum(p);
      var b := Longest(p);
      var l := Longest(xs);
      var i :| 0 <= i < |p| && p[i] == b && forall j | 0 <= j < i :: |p[j]| < |b|;
      assert forall j | 0 <= j < k :: xs[j] == p[j];
      if |xs[k]| > |b| {
        assert l == xs[k];
        assert xs[k] == l && forall j | 0 <= j < k :: |xs[j]| < |l|;
      } else {
        assert l == b;
        assert xs[i] == l && forall j | 0 <= j < i :: |xs[j]| < |l|;
      }
      assert forall j | 0 <= j < |xs| :: |xs[j]| <= |l|;
    } else {
      assert xs[0] == Longest(xs);
    }
  }

  /** The `max(..., key=len)` scan. */
  method FindLongest<T>(xs: seq<seq<T>>) returns (b: seq<T>)
    requires xs != []
    ensures b == Longest(xs)
  {
    b := xs[0];
    assert xs[..1] == [xs[0]];
    for i := 1 to |xs|
      invariant b == Longest(xs[..i])
    {
      assert xs[..i + 1][..i] == xs[..i];
      if |xs[i]| > |b| {
        b := xs[i];
      }
    }
    assert xs[..|xs|] == xs;
  }
}
