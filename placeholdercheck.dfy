/**
 * The placeholder report: for every dataset, the records whose answer
 * still carries one of the crawler's marker strings, how many there are,
 * what share of the dataset they are, and the first ten of them.
 */
module PlaceholderCheck {
  import opened Wrappers
  import opened Text
  import opened Records
  import opened BatchUpdate

  /** `placeholder_patterns` of the report. */
  const CheckPatterns: seq<string> := ["1查看色弱滤镜", "查看色弱滤镜", "placeholder", "待识别", "未识别"]

  /** `any(pattern in answer for pattern in placeholder_patterns)`. */
  predicate Marked(r: Record) {
    ContainsAny(r.answer, CheckPatterns)
  }

  const MarkedRecord: Record -> bool := r => Marked(r)

  /** The report flags exactly the records the batch refresher selects, the stored placeholder among them. */
  lemma MarkedAgreesWithBatch(r: Record)
    ensures Marked(r) <==> IsPlaceholderAnswer(r.answer)
    ensures Marked(Record(r.filename, r.url, Placeholder))
  {
    assert CheckPatterns == SinglePatterns;
    SelectionsAgree(r.answer);
    SelectionsAgree(Placeholder);
  }

  // ---------------------------------------------------------------- items

  /** One entry of `placeholder_items`; `index` counts from 1. */
  datatype Item = Item(index: nat, filename: string, answer: string, url: string)

  function ItemOf(r: Record, index: nat): Item {
    Item(index, r.filename, r.answer, r.url)
  }

  /** `placeholder_items`: the marked records in file order. */
  function Marks(rs: seq<Record>): (ms: seq<Item>)
    ensures |ms| <= |rs|
  {
    if rs == [] then []
    else
      var k := |rs| - 1;
      Marks(rs[..k]) + (if Marked(rs[k]) then [ItemOf(rs[k], k + 1)] else [])
  }

  /**
   * The items are the marked records, one per record, in file order: the
   * `m`-th item is the record at the `m`-th marked position, numbered
   * from 1.
   */
  lemma {:induction false} MarksFollowIndices(rs: seq<Record>)
    ensures |Marks(rs)| == |Indices(MarkedRecord, rs)|
    ensures forall m | 0 <= m < |Marks(rs)| ::
      Marks(rs)[m] == ItemOf(rs[Indices(MarkedRecord, rs)[m]], Indices(MarkedRecord, rs)[m] + 1)
  {
    if rs != [] {
      var k := |rs| - 1;
      MarksFollowIndices(rs[..k]);
      var idx := Indices(MarkedRecord, rs[..k]);
      forall m | 0 <= m < |idx| ensures rs[..k][idx[m]] == rs[idx[m]] {
      }
    }
  }

  /** Every item names a marked record at its position, and every marked record has its item. */
  lemma MarksExact(rs: seq<Record>)
    ensures forall m | 0 <= m < |Marks(rs)| ::
      1 <= Marks(rs)[m].index <= |rs| && Marked(rs[Marks(rs)[m].index - 1])
      && Marks(rs)[m] == ItemOf(rs[Marks(rs)[m].index - 1], Marks(rs)[m].index)
    ensures forall m, n | 0 <= m < n < |Marks(rs)| :: Marks(rs)[m].index < Marks(rs)[n].index
    ensures forall i | 0 <= i < |rs| && Marked(rs[i]) :: ItemOf(rs[i], i + 1) in Marks(rs)
  {
    MarksFollowIndices(rs);
    var idx := Indices(MarkedRecord, rs);
    forall i | 0 <= i < |rs| && Marked(rs[i]) ensures ItemOf(rs[i], i + 1) in Marks(rs) {
      assert MarkedRecord(rs[i]);
      var m :| 0 <= m < |idx| && idx[m] == i;
      assert Marks(rs)[m] == ItemOf(rs[i], i + 1);
    }
  }

  // --------------------------------------------------------------- report

  /** `results[name]`. */
  datatype Info = Info(total: nat, placeholderCount: nat, percentage: real, items: seq<Item>)

  /** Only datasets with a marked record get an entry; `items` keeps the first ten. */
  function DatasetInfo(rs: seq<Record>): Option<Info> {
    var ms := Marks(rs);
    if ms == [] then None
    else Some(Info(|rs|, |ms|, Percent(|ms|, |rs|), if |ms| <= 10 then ms else ms[..10]))
  }

  /** The loop over one dataset's entries. */
  method CheckDataset(rs: seq<Record>) returns (info: Option<Info>)
    ensures info == DatasetInfo(rs)
  {
    var count := 0;
    var items: seq<Item> := [];
    for i := 0 to |rs|
      invariant items == Marks(rs[..i]) && count == |items|
    {
      assert rs[..i + 1][..i] == rs[..i];
      if ContainsAny(rs[i].answer, CheckPatterns) {
        count := count + 1;
        items := items + [ItemOf(rs[i], i + 1)];
      }
    }
    assert rs[..|rs|] == rs;
    if count > 0 {
      info := Some(Info(|rs|, count, Percent(count, |rs|), if |items| <= 10 then items else items[..10]));
    } else {
      info := None;
    }
  }

  /** A dataset has no items exactly when none of its records is marked. */
  lemma {:induction false} MarksEmpty(rs: seq<Record>)
    ensures Marks(rs) == [] <==> forall i | 0 <= i < |rs| :: !Marked(rs[i])
  {
    if rs != [] {
      var k := |rs| - 1;
      MarksEmpty(rs[..k]);
      assert forall i | 0 <= i < k :: rs[..k][i] == rs[i];
    }
  }

  /** No entry exactly when no record of the dataset is marked. */
  lemma DatasetInfoNone(rs: seq<Record>)
    ensures DatasetInfo(rs).None? <==> forall i | 0 <= i < |rs| :: !Marked(rs[i])
  {
    MarksEmpty(rs);
  }

  /**
   * An entry holds the dataset size, the number of marked records (at
   * least one, at most the size), its percentage of the size, and the
   * first `min(10, count)` items.
   */
  lemma DatasetInfoShape(rs: seq<Record>)
    requires DatasetInfo(rs).Some?
    ensures var info := DatasetInfo(rs).value;
      info.total == |rs| && 1 <= info.placeholderCount <= info.total
      && info.placeholderCount == |Indices(MarkedRecord, rs)|
      && 0.0 < info.percentage <= 100.0
      && |info.items| == (if info.placeholderCount <= 10 then info.placeholderCount else 10)
      && info.items <= Marks(rs)
  {
    var ms := Marks(rs);
    MarksFollowIndices(rs);
    PercentPositive(|ms|, |rs|);
  }

  lemma PercentPositive(n: nat, total: nat)
    requires 0 < n <= total
    ensures 0.0 < Percent(n, total) <= 100.0
  {
    var x, t := n as real, total as real;
    assert 0.0 < x / t;
  }

  /** The `results` dictionary over the datasets, in directory order. */
  function Results(ds: seq<(string, seq<Record>)>): map<string, Info> {
    if ds == [] then map[]
    else
      var k := |ds| - 1;
      var rest := Results(ds[..k]);
      match DatasetInfo(ds[k].1)
      case Some(info) => rest[ds[k].0 := info]
      case None => rest
  }

  /** `check_placeholder_answers`: `None` (the bare `return`) when no dataset has a marked record. */
  method CheckAll(ds: seq<(string, seq<Record>)>) returns (r: Option<map<string, Info>>)
    ensures r == if Results(ds) == map[] then None else Some(Results(ds))
  {
    var results: map<string, Info> := map[];
    for i := 0 to |ds|
      invariant results == Results(ds[..i])
    {
      assert ds[..i + 1][..i] == ds[..i];
      var info := CheckDataset(ds[i].1);
      if info.Some? {
        results := results[ds[i].0 := info.value];
      }
    }
    assert ds[..|ds|] == ds;
    if results == map[] {
      return None;
    }
    return Some(results);
  }

  /** A name is reported exactly when some dataset of that name has a marked record. */
  lemma {:induction false} ResultsNames(ds: seq<(string, seq<Record>)>, name: string)
    ensures name in Results(ds) <==> exists i | 0 <= i < |ds| :: ds[i].0 == name && DatasetInfo(ds[i].1).Some?
  {
    if ds != [] {
      var k := |ds| - 1;
      var q := ds[..k];
      ResultsNames(q, name);
      assert forall i | 0 <= i < k :: q[i] == ds[i];
    }
  }

  /** A reported name carries the entry of the last dataset of that name that has a marked record. */
  lemma {:induction false} ResultsLastWins(ds: seq<(string, seq<Record>)>, name: string)
    requires name in Results(ds)
    ensures exists i | 0 <= i < |ds| ::
      ds[i].0 == name && DatasetInfo(ds[i].1) == Some(Results(ds)[name])
      && forall j | i < j < |ds| :: ds[j].0 != name || DatasetInfo(ds[j].1).None?
  {
    var k := |ds| - 1;
    var q := ds[..k];
    var last := DatasetInfo(ds[k].1);
    if ds[k].0 == name && last.Some? {
      assert Results(ds) == Results(q)[name := last.value];
    } else {
      assert name in Results(q) && Results(ds)[name] == Results(q)[name];
      ResultsLastWins(q, name);
      var i :| 0 <= i < |q| && q[i].0 == name && DatasetInfo(q[i].1) == Some(Results(q)[name])
        && forall j | i < j < |q| :: q[j].0 != name || DatasetInfo(q[j].1).None?;
      assert ds[i] == q[i];
      forall j | i < j < |ds| ensures ds[j].0 != name || DatasetInfo(ds[j].1).None? {
        if j < k {
          assert ds[j] == q[j];
        }
      }
    }
  }
}
