/**
 * The candidate table of the EasyOCR and PaddleOCR tools: a dictionary
 * `candidate -> {"score", "count", "sources"}` filled one hit at a time,
 * kept here as the keys in insertion order plus a map.
 */
module Candidates {
  import opened Sorting

  /** One recognized line: its text, the recognizer's confidence and the region it came from. */
  datatype Observation = Observation(text: string, confidence: real, region: string)

  /** What the source string `f"{region}({confidence:.2f})"` records, unformatted. */
  datatype Source = Source(region: string, content: bool, confidence: real)

  datatype Stat = Stat(score: real, count: nat, sources: seq<Source>)

  /** One extraction: `candidates[key]["score"] += score`, `count += 1`, `sources.append(source)`. */
  datatype Hit = Hit(key: string, score: real, source: Source)

  /** A dictionary: its keys in insertion order and its entries. */
  datatype Table = Table(keys: seq<string>, stats: map<string, Stat>)

  const NoStat := Stat(0.0, 0, [])

  const EmptyTable := Table([], map[])

  predicate DistinctKeys(keys: seq<string>) {
    forall i, j | 0 <= i < j < |keys| :: keys[i] != keys[j]
  }

  /** The table is a dictionary and every entry has one source per hit, and at least one hit. */
  predicate WellFormed(t: Table) {
    DistinctKeys(t.keys)
    && (forall k | k in t.stats :: k in t.keys) && (forall k | k in t.keys :: k in t.stats)
    && forall k | k in t.stats :: t.stats[k].count >= 1 && |t.stats[k].sources| == t.stats[k].count
  }

  function StatOf(t: Table, k: string): Stat {
    if k in t.stats then t.stats[k] else NoStat
  }

  /** One hit: a new key is created with zero score and no sources, then updated. */
  function Add(t: Table, h: Hit): Table {
    var s := StatOf(t, h.key);
    Table(if h.key in t.stats then t.keys else t.keys + [h.key],
          t.stats[h.key := Stat(s.score + h.score, s.count + 1, s.sources + [h.source])])
  }

  /** The table after the hits `hs`, in order, starting from `{}`. */
  function Build(hs: seq<Hit>): Table
  {
    if hs == [] then EmptyTable else Add(Build(hs[..|hs| - 1]), hs[|hs| - 1])
  }

  // ---------------------------------------------- reference definition

  /** The hits for key `k`, in order. */
  function HitsFor(hs: seq<Hit>, k: string): (r: seq<Hit>)
    ensures forall i | 0 <= i < |r| :: r[i].key == k
  {
    if hs == [] then []
    else HitsFor(hs[..|hs| - 1], k) + (if hs[|hs| - 1].key == k then [hs[|hs| - 1]] else [])
  }

  function SumScores(hs: seq<Hit>): real
  {
    if hs == [] then 0.0 else SumScores(hs[..|hs| - 1]) + hs[|hs| - 1].score
  }

  function SourcesOf(hs: seq<Hit>): (r: seq<Source>)
    ensures |r| == |hs|
  {
    seq(|hs|, i requires 0 <= i < |hs| => hs[i].source)
  }

  /** The entry that key `k` must end with: the sum, number and sources of its hits. */
  function Tally(hs: seq<Hit>, k: string): Stat {
    var mine := HitsFor(hs, k);
    Stat(SumScores(mine), |mine|, SourcesOf(mine))
  }

  predicate HasKey(hs: seq<Hit>, k: string) {
    exists i | 0 <= i < |hs| :: hs[i].key == k
  }

  lemma {:induction false} HitsForEmpty(hs: seq<Hit>, k: string)
    ensures HitsFor(hs, k) == [] <==> !HasKey(hs, k)
  {
    if hs != [] {
      var p := hs[..|hs| - 1];
      HitsForEmpty(p, k);
      assert HasKey(p, k) ==> HasKey(hs, k) by {
        if HasKey(p, k) {
          var i :| 0 <= i < |p| && p[i].key == k;
          assert hs[i] == p[i];
        }
      }
      assert HasKey(hs, k) && hs[|hs| - 1].key != k ==> HasKey(p, k) by {
        if HasKey(hs, k) && hs[|hs| - 1].key != k {
          var i :| 0 <= i < |hs| && hs[i].key == k;
          assert p[i] == hs[i];
        }
      }
    }
  }

  lemma AddOne(p: seq<Hit>, h: Hit, k: string)
    ensures Tally(p + [h], k) == if h.key == k
      then Stat(Tally(p, k).score + h.score, Tally(p, k).count + 1, Tally(p, k).sources + [h.source])
      else Tally(p, k)
  {
    assert (p + [h])[..|p + [h]| - 1] == p;
    var mine := HitsFor(p, k);
    if h.key == k {
      assert HitsFor(p + [h], k) == mine + [h];
      assert (mine + [h])[..|mine + [h]| - 1] == mine;
      assert SourcesOf(mine + [h]) == SourcesOf(mine) + [h.source];
    } else {
      assert HitsFor(p + [h], k) == mine;
    }
  }

  /**
   * The table built from `hs` is a dictionary whose keys are exactly the
   * keys of the hits, each entry holding the sum of its hits' scores, their
   * number and their sources in order, so `len(sources) == count >= 1`.
   */
  lemma {:induction false} BuildTally(hs: seq<Hit>)
    ensures WellFormed(Build(hs))
    ensures forall k :: k in Build(hs).stats <==> HasKey(hs, k)
    ensures forall k | k in Build(hs).stats :: Build(hs).stats[k] == Tally(hs, k)
  {
    if hs != [] {
      var p := hs[..|hs| - 1];
      var h := hs[|hs| - 1];
      assert hs == p + [h];
      BuildTally(p);
      AddWellFormed(Build(p), h);
      AddTally(Build(p), p, h);
    }
  }

  /** One hit keeps the table a dictionary with one source per hit. */
  lemma AddWellFormed(t: Table, h: Hit)
    requires WellFormed(t)
    ensures WellFormed(Add(t, h))
  {
    var u := Add(t, h);
    if h.key !in t.stats {
      forall i, j | 0 <= i < j < |u.keys| ensures u.keys[i] != u.keys[j] {
        if j == |t.keys| {
          assert u.keys[i] == t.keys[i] && t.keys[i] in t.keys;
        }
      }
    }
  }

  /** One hit changes the entry of its key, and only that one, as the reference definition does. */
  lemma AddTally(t: Table, p: seq<Hit>, h: Hit)
    requires forall k :: k in t.stats <==> HasKey(p, k)
    requires forall k | k in t.stats :: t.stats[k] == Tally(p, k)
    ensures forall k :: k in Add(t, h).stats <==> HasKey(p + [h], k)
    ensures forall k | k in Add(t, h).stats :: Add(t, h).stats[k] == Tally(p + [h], k)
  {
    AddKeys(t, p, h);
    var u := Add(t, h);
    forall k | k in u.stats ensures u.stats[k] == Tally(p + [h], k) {
      AddOne(p, h, k);
      HitsForEmpty(p, k);
      assert StatOf(t, k) == Tally(p, k);
    }
  }

  lemma AddKeys(t: Table, p: seq<Hit>, h: Hit)
    requires forall k :: k in t.stats <==> HasKey(p, k)
    ensures forall k :: k in Add(t, h).stats <==> HasKey(p + [h], k)
  {
    var hs := p + [h];
    forall k ensures k in Add(t, h).stats <==> HasKey(hs, k) {
      if HasKey(p, k) {
        var i :| 0 <= i < |p| && p[i].key == k;
        assert hs[i] == p[i];
      }
      if HasKey(hs, k) && k != h.key {
        var i :| 0 <= i < |hs| && hs[i].key == k;
        assert i < |p| && p[i] == hs[i];
      }
      assert hs[|p|] == h;
    }
  }

  // ------------------------------------------------------------- ranking

  /** `final_score = data["score"] * data["count"]`. */
  function Rank(s: Stat): real {
    s.score * (s.count as real)
  }

  /** `data["score"] / data["count"]`, the average confidence. */
  function Average(s: Stat): real
    requires s.count > 0
  {
    s.score / (s.count as real)
  }

  /** `for candidate, data in candidates.items()`: the entries in insertion order. */
  datatype Entry = Entry(key: string, stat: Stat)

  function Entries(t: Table): (es: seq<Entry>)
    requires forall k | k in t.keys :: k in t.stats
    ensures |es| == |t.keys|
    ensures forall i | 0 <= i < |es| :: es[i].key == t.keys[i] && es[i].stat == t.stats[t.keys[i]]
  {
    seq(|t.keys|, i requires 0 <= i < |t.keys| => Entry(t.keys[i], t.stats[t.keys[i]]))
  }

  /** Descending final score, the order of `sort(key=lambda x: x[1], reverse=True)`. */
  predicate HigherRank(a: Entry, b: Entry) {
    Rank(a.stat) > Rank(b.stat)
  }

  /** The per-category loops of the extractors, each hit updating the dictionary in place. */
  method AddHits(t0: Table, hs: seq<Hit>, ghost before: seq<Hit>) returns (t: Table)
    requires t0 == Build(before)
    ensures t == Build(before + hs)
  {
    t := t0;
    assert before + hs[..0] == before;
    for j := 0 to |hs|
      invariant t == Build(before + hs[..j])
    {
      assert (before + hs[..j + 1])[..|before + hs[..j + 1]| - 1] == before + hs[..j];
      assert before + hs[..j + 1] == (before + hs[..j]) + [hs[j]];
      t := Add(t, hs[j]);
    }
    assert hs[..|hs|] == hs;
  }

  /** The per-category loops of one observation, each category in turn. */
  method AddCategories(t0: Table, hss: seq<seq<Hit>>, ghost before: seq<Hit>) returns (t: Table)
    requires t0 == Build(before)
    ensures t == Build(before + Concat(hss))
  {
    t := t0;
    assert before + Concat(hss[..0]) == before;
    for j := 0 to |hss|
      invariant t == Build(before + Concat(hss[..j]))
    {
      assert hss[..j + 1][..j] == hss[..j];
      assert before + Concat(hss[..j + 1]) == (before + Concat(hss[..j])) + hss[j];
      t := AddHits(t, hss[j], before + Concat(hss[..j]));
    }
    assert hss[..|hss|] == hss;
  }

  /** `for candidate, data in candidates.items(): scored_candidates.append(...)`. */
  method EntryList(t: Table) returns (entries: seq<Entry>)
    requires forall k | k in t.keys :: k in t.stats
    ensures entries == Entries(t)
  {
    entries := [];
    for i := 0 to |t.keys|
      invariant |entries| == i
      invariant forall j | 0 <= j < i :: entries[j] == Entry(t.keys[j], t.stats[t.keys[j]])
    {
      entries := entries + [Entry(t.keys[i], t.stats[t.keys[i]])];
    }
  }

  /** The hits for the matches `keys` of one category, keeping those of length at least `minLen`. */
  function Scored(keys: seq<string>, minLen: nat, weight: real, o: Observation, content: bool): (hs: seq<Hit>)
    ensures forall i | 0 <= i < |hs| ::
      (hs[i].key in keys && |hs[i].key| >= minLen
       && hs[i].score == o.confidence * weight && hs[i].source == Source(o.region, content, o.confidence))
  {
    if keys == [] then []
    else
      var p := Scored(keys[..|keys| - 1], minLen, weight, o, content);
      var k := keys[|keys| - 1];
      assert forall x | x in keys[..|keys| - 1] :: x in keys;
      p + (if |k| >= minLen then [Hit(k, o.confidence * weight, Source(o.region, content, o.confidence))] else [])
  }

  lemma StrictOrderHigherRank()
    ensures StrictOrder(HigherRank)
  {
  }

  /** The entry of key `k`. */
  function EntryOf(t: Table, k: string): Entry
    requires k in t.stats
  {
    Entry(k, t.stats[k])
  }

  lemma EntryOfInEntries(t: Table, k: string)
    requires WellFormed(t) && k in t.stats
    ensures EntryOf(t, k) in Entries(t)
  {
    var j :| 0 <= j < |t.keys| && t.keys[j] == k;
    assert Entries(t)[j] == EntryOf(t, k);
  }

  /**
   * The selection scans of the selectors: in the entries sorted by
   * descending rank and then narrowed to those satisfying `q`, the first
   * entry satisfying `p` is a table entry with the highest rank among all
   * entries satisfying both.
   */
  lemma FirstMatchIsBest(t: Table, scored: seq<Entry>, sub: seq<Entry>, q: Entry -> bool, p: Entry -> bool, i: nat)
    requires WellFormed(t)
    requires multiset(scored) == multiset(Entries(t)) && Sorted(scored, HigherRank)
    requires sub == Filter(scored, q)
    requires i < |sub| && p(sub[i]) && forall j | 0 <= j < i :: !p(sub[j])
    ensures sub[i].key in t.stats && sub[i] == EntryOf(t, sub[i].key) && q(sub[i])
    ensures forall k | k in t.stats && q(EntryOf(t, k)) && p(EntryOf(t, k)) :: Rank(t.stats[k]) <= Rank(sub[i].stat)
  {
    StrictOrderHigherRank();
    FilterSorted(scored, q, HigherRank);
    FirstIsBest(sub, i, p, HigherRank);
    assert sub[i] in scored;
    assert sub[i] in multiset(Entries(t));
    var j :| 0 <= j < |Entries(t)| && Entries(t)[j] == sub[i];
    forall k | k in t.stats && q(EntryOf(t, k)) && p(EntryOf(t, k))
      ensures Rank(t.stats[k]) <= Rank(sub[i].stat)
    {
      EntryOfInEntries(t, k);
      assert EntryOf(t, k) in multiset(scored);
      var n :| 0 <= n < |scored| && scored[n] == EntryOf(t, k);
      assert EntryOf(t, k) in sub;
    }
  }

  /** Every table entry is among the sorted entries. */
  lemma SortedEntriesComplete(t: Table, scored: seq<Entry>, k: string)
    requires WellFormed(t) && k in t.stats && multiset(scored) == multiset(Entries(t))
    ensures EntryOf(t, k) in scored
  {
    EntryOfInEntries(t, k);
    assert EntryOf(t, k) in multiset(scored);
  }

  /** The stage condition that every entry meets. */
  const Everything: Entry -> bool := (e: Entry) => true

  /** Some table entry satisfies both `q` and `p`. */
  ghost predicate AnyAmong(t: Table, q: Entry -> bool, p: Entry -> bool) {
    exists k | k in t.stats :: q(EntryOf(t, k)) && p(EntryOf(t, k))
  }

  /** Key `k` satisfies `q` and `p` and has the highest final score of all entries that do. */
  ghost predicate TopAmong(t: Table, k: string, q: Entry -> bool, p: Entry -> bool) {
    k in t.stats && q(EntryOf(t, k)) && p(EntryOf(t, k))
    && forall k' | k' in t.stats && q(EntryOf(t, k')) && p(EntryOf(t, k')) :: Rank(t.stats[k']) <= Rank(t.stats[k])
  }

  /**
   * One stage of a selector: in the sorted entries narrowed to `q`, the
   * first entry satisfying `p` is a best such entry, and when there is
   * none no entry of the table satisfies both.
   */
  lemma StageOutcome(t: Table, scored: seq<Entry>, q: Entry -> bool, p: Entry -> bool)
    requires WellFormed(t)
    requires multiset(scored) == multiset(Entries(t)) && Sorted(scored, HigherRank)
    ensures var sub := Filter(scored, q); var i := FirstIndex(sub, p);
      (i < |sub| ==> TopAmong(t, sub[i].key, q, p)) && (i == |sub| <==> !AnyAmong(t, q, p))
  {
    var sub := Filter(scored, q);
    var i := FirstIndex(sub, p);
    if i < |sub| {
      FirstMatchIsBest(t, scored, sub, q, p, i);
      assert q(EntryOf(t, sub[i].key)) && p(EntryOf(t, sub[i].key));
    } else {
      forall k | k in t.stats && q(EntryOf(t, k)) ensures !p(EntryOf(t, k)) {
        SortedEntriesComplete(t, scored, k);
        var n :| 0 <= n < |scored| && scored[n] == EntryOf(t, k);
        var m :| 0 <= m < |sub| && sub[m] == EntryOf(t, k);
      }
    }
  }
}
