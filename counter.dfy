/**
 * The occurrence counters of the universal, final and smart tools: a
 * dictionary `candidate -> int` where every match does
 * `if c not in d: d[c] = 0` and then `d[c] += 1`, kept as the keys in
 * insertion order plus a map.
 */
module Counting {
  import opened Sorting
  import opened Candidates

  datatype Counter = Counter(keys: seq<string>, counts: map<string, nat>)

  const NoCounts := Counter([], map[])

  /** One match of `k`. */
  function Bump(c: Counter, k: string): Counter {
    Counter(if k in c.counts then c.keys else c.keys + [k],
            c.counts[k := (if k in c.counts then c.counts[k] else 0) + 1])
  }

  /** The counter after the matches `ks`, in order, starting from `{}`. */
  function CountAll(ks: seq<string>): Counter {
    if ks == [] then NoCounts else Bump(CountAll(ks[..|ks| - 1]), ks[|ks| - 1])
  }

  /** Reference definition: how often `k` occurs in `ks`. */
  function Occurrences(ks: seq<string>, k: string): nat {
    if ks == [] then 0
    else Occurrences(ks[..|ks| - 1], k) + (if ks[|ks| - 1] == k then 1 else 0)
  }

  lemma {:induction false} OccurrencesPositive(ks: seq<string>, k: string)
    ensures Occurrences(ks, k) > 0 <==> k in ks
  {
    if ks != [] {
      var p := ks[..|ks| - 1];
      OccurrencesPositive(p, k);
      assert ks == p + [ks[|ks| - 1]];
    }
  }

  lemma {:induction false} OccurrencesAppend(xs: seq<string>, ys: seq<string>, k: string)
    ensures Occurrences(xs + ys, k) == Occurrences(xs, k) + Occurrences(ys, k)
    decreases |ys|
  {
    if ys != [] {
      OccurrencesAppend(xs, ys[..|ys| - 1], k);
      assert (xs + ys)[..|xs + ys| - 1] == xs + ys[..|ys| - 1];
    } else {
      assert xs + ys == xs;
    }
  }

  /** A dictionary whose keys are listed once each, each with a positive count. */
  predicate Valid(c: Counter) {
    DistinctKeys(c.keys)
    && (forall k | k in c.counts :: k in c.keys) && (forall k | k in c.keys :: k in c.counts)
    && forall k | k in c.counts :: c.counts[k] >= 1
  }

  /**
   * The counter of `ks` is a dictionary whose keys are exactly the matched
   * strings, each counting how often it was matched.
   */
  lemma {:induction false} CountAllOccurrences(ks: seq<string>)
    ensures Valid(CountAll(ks))
    ensures forall k :: k in CountAll(ks).counts <==> k in ks
    ensures forall k | k in CountAll(ks).counts :: CountAll(ks).counts[k] == Occurrences(ks, k)
  {
    if ks != [] {
      var p := ks[..|ks| - 1];
      var x := ks[|ks| - 1];
      assert ks == p + [x];
      CountAllOccurrences(p);
      forall k ensures k in CountAll(ks).counts <==> k in ks {
        assert k in ks <==> k in p || k == x;
      }
      forall k | k in CountAll(ks).counts ensures CountAll(ks).counts[k] == Occurrences(ks, k) {
        OccurrencesPositive(p, k);
      }
    }
  }

  /** The counting loop over one list of matches. */
  method AddAll(c0: Counter, ks: seq<string>, ghost before: seq<string>) returns (c: Counter)
    requires c0 == CountAll(before)
    ensures c == CountAll(before + ks)
  {
    c := c0;
    assert before + ks[..0] == before;
    for j := 0 to |ks|
      invariant c == CountAll(before + ks[..j])
    {
      assert (before + ks[..j + 1])[..|before + ks[..j + 1]| - 1] == before + ks[..j];
      assert before + ks[..j + 1] == (before + ks[..j]) + [ks[j]];
      c := Bump(c, ks[j]);
    }
    assert ks[..|ks|] == ks;
  }

  /** The counting loops over several lists of matches, one after the other. */
  method AddGroups(c0: Counter, kss: seq<seq<string>>, ghost before: seq<string>) returns (c: Counter)
    requires c0 == CountAll(before)
    ensures c == CountAll(before + Concat(kss))
  {
    c := c0;
    assert before + Concat(kss[..0]) == before;
    for j := 0 to |kss|
      invariant c == CountAll(before + Concat(kss[..j]))
    {
      assert kss[..j + 1][..j] == kss[..j];
      assert before + Concat(kss[..j + 1]) == (before + Concat(kss[..j])) + kss[j];
      c := AddAll(c, kss[j], before + Concat(kss[..j]));
    }
    assert kss[..|kss|] == kss;
  }

  // ------------------------------------------------------ sorted items

  /** `candidates.items()`: the pairs in insertion order. */
  datatype Item = Item(key: string, count: nat)

  function Items(c: Counter): (its: seq<Item>)
    requires forall k | k in c.keys :: k in c.counts
    ensures |its| == |c.keys|
    ensures forall i | 0 <= i < |its| :: its[i] == Item(c.keys[i], c.counts[c.keys[i]])
  {
    seq(|c.keys|, i requires 0 <= i < |c.keys| => Item(c.keys[i], c.counts[c.keys[i]]))
  }

  method ItemList(c: Counter) returns (its: seq<Item>)
    requires forall k | k in c.keys :: k in c.counts
    ensures its == Items(c)
  {
    its := [];
    for i := 0 to |c.keys|
      invariant |its| == i
      invariant forall j | 0 <= j < i :: its[j] == Item(c.keys[j], c.counts[c.keys[j]])
    {
      its := its + [Item(c.keys[i], c.counts[c.keys[i]])];
    }
  }

  /** Descending count, the order of `sorted(d.items(), key=lambda x: x[1], reverse=True)`. */
  predicate MoreFrequent(a: Item, b: Item) {
    a.count > b.count
  }

  lemma StrictOrderMoreFrequent()
    ensures StrictOrder(MoreFrequent)
  {
  }

  /** Some key of the counter satisfies `p`. */
  ghost predicate AnyItem(c: Counter, p: Item -> bool) {
    exists k | k in c.counts :: p(Item(k, c.counts[k]))
  }

  /** Key `k` satisfies `p` and is counted at least as often as every key that does. */
  ghost predicate TopItem(c: Counter, k: string, p: Item -> bool) {
    k in c.counts && p(Item(k, c.counts[k]))
    && forall k' | k' in c.counts && p(Item(k', c.counts[k'])) :: c.counts[k'] <= c.counts[k]
  }

  /**
   * One stage of a counter selector: in the items sorted by descending
   * count, the first item satisfying `p` is a most frequent such key, and
   * there is no such item exactly when no key satisfies `p`.
   */
  lemma CountStage(c: Counter, sorted: seq<Item>, p: Item -> bool)
    requires Valid(c)
    requires multiset(sorted) == multiset(Items(c)) && Sorted(sorted, MoreFrequent)
    ensures var i := FirstIndex(sorted, p);
      (i < |sorted| ==> TopItem(c, sorted[i].key, p) && sorted[i] == Item(sorted[i].key, c.counts[sorted[i].key]))
      && (i == |sorted| <==> !AnyItem(c, p))
  {
    var i := FirstIndex(sorted, p);
    forall k | k in c.counts ensures Item(k, c.counts[k]) in sorted {
      var j :| 0 <= j < |c.keys| && c.keys[j] == k;
      assert Items(c)[j] == Item(k, c.counts[k]);
      assert Item(k, c.counts[k]) in multiset(sorted);
    }
    if i < |sorted| {
      StrictOrderMoreFrequent();
      FirstIsBest(sorted, i, p, MoreFrequent);
      assert sorted[i] in multiset(Items(c));
      var j :| 0 <= j < |c.keys| && Items(c)[j] == sorted[i];
    } else {
      forall k | k in c.counts ensures !p(Item(k, c.counts[k])) {
        var n :| 0 <= n < |sorted| && sorted[n] == Item(k, c.counts[k]);
      }
    }
  }
}
