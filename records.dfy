/**
 * The record list that every tool reads from `answers.json`: an ordered
 * list of `{filename, original_url, answer}` entries, and the loop that
 * walks it, asks the recognizer for an answer for the records it selects
 * and overwrites their `answer` field when the recognizer returned one.
 */
module Records {
  import opened Wrappers

  datatype Record = Record(filename: string, url: string, answer: string)

  /** The answer the crawler stores when it could not read the answer image. */
  const Placeholder: string := "1查看色弱滤镜"

  /** Which records a tool's update loop passes to the recognizer. */
  datatype Rule =
    | PlaceholderOnly       // `if current_answer == '1查看色弱滤镜'`
    | PlaceholderWithUrl    // `if current_answer == '1查看色弱滤镜'`, then `if not original_url: continue`
    | Unanswered            // `if current_answer and current_answer != '1查看色弱滤镜': continue`
    | UnansweredWithUrl     // the above, then `if not original_url: continue`, then the image must exist
    | PresentAndUnanswered  // the image file must exist, then the `Unanswered` test

  /** The answer is empty or the placeholder. */
  predicate IsUnanswered(r: Record) {
    r.answer == [] || r.answer == Placeholder
  }

  /** Record `r` reaches the recognizer under `rule`; `available` says its image file exists. */
  predicate Eligible(rule: Rule, r: Record, available: bool) {
    match rule
    case PlaceholderOnly => r.answer == Placeholder
    case PlaceholderWithUrl => r.answer == Placeholder && r.url != []
    case Unanswered => IsUnanswered(r)
    case UnansweredWithUrl => IsUnanswered(r) && r.url != [] && available
    case PresentAndUnanswered => available && IsUnanswered(r)
  }

  /** `if answer: entry['answer'] = answer`: only the answer of an eligible record, only to a non-empty answer. */
  function Revised(rule: Rule, r: Record, ocr: string, available: bool): (s: Record)
    ensures s.filename == r.filename && s.url == r.url
    ensures s != r ==> Eligible(rule, r, available) && ocr != [] && s.answer == ocr
    ensures Eligible(rule, r, available) && ocr != [] ==> s.answer == ocr
  {
    if Eligible(rule, r, available) && ocr != [] then r.(answer := ocr) else r
  }

  /** The number of records the loop updates: eligible ones with a non-empty recognizer answer. */
  function CountUpdated(rule: Rule, rs: seq<Record>, ocr: seq<string>, available: seq<bool>): (n: nat)
    requires |ocr| == |rs| == |available|
    ensures n <= |rs|
  {
    if rs == [] then 0
    else
      var k := |rs| - 1;
      CountUpdated(rule, rs[..k], ocr[..k], available[..k])
      + (if Eligible(rule, rs[k], available[k]) && ocr[k] != [] then 1 else 0)
  }

  /** `placeholder_count`: the records whose answer is exactly the placeholder. */
  function CountPlaceholders(rs: seq<Record>): (n: nat)
    ensures n <= |rs|
  {
    if rs == [] then 0
    else CountPlaceholders(rs[..|rs| - 1]) + (if rs[|rs| - 1].answer == Placeholder then 1 else 0)
  }

  /**
   * The update loop of `process_answers_file` and its relatives. `ocr[i]`
   * is the answer the recognizer pipeline gives for record `i` (consulted
   * only when the record is eligible) and `available[i]` whether its image
   * file exists. The new list differs from the old only in the `answer` of
   * updated records, `updated` counts them, `pending` counts the
   * placeholders, and the file is saved only when `updateFile` is set and
   * something was updated.
   */
  method UpdateAnswers(rule: Rule, rs: seq<Record>, ocr: seq<string>, available: seq<bool>, updateFile: bool)
    returns (result: seq<Record>, updated: nat, pending: nat, saved: bool)
    requires |ocr| == |rs| == |available|
    ensures |result| == |rs|
    ensures forall i | 0 <= i < |rs| :: result[i] == Revised(rule, rs[i], ocr[i], available[i])
    ensures updated == CountUpdated(rule, rs, ocr, available)
    ensures pending == CountPlaceholders(rs)
    ensures saved <==> updateFile && updated > 0
  {
    result := [];
    updated := 0;
    pending := 0;
    for i := 0 to |rs|
      invariant |result| == i
      invariant forall j | 0 <= j < i :: result[j] == Revised(rule, rs[j], ocr[j], available[j])
      invariant updated == CountUpdated(rule, rs[..i], ocr[..i], available[..i])
      invariant pending == CountPlaceholders(rs[..i])
    {
      CountsStep(rule, rs, ocr, available, i);
      var entry := rs[i];
      if entry.answer == Placeholder {
        pending := pending + 1;
      }
      if Eligible(rule, entry, available[i]) && ocr[i] != [] {
        entry := entry.(answer := ocr[i]);
        updated := updated + 1;
      }
      assert entry == Revised(rule, rs[i], ocr[i], available[i]);
      result := result + [entry];
    }
    assert rs[..|rs|] == rs;
    assert ocr[..|ocr|] == ocr;
    assert available[..|available|] == available;
    saved := updateFile && updated > 0;
  }

  /** How both counts grow by one record. */
  lemma CountsStep(rule: Rule, rs: seq<Record>, ocr: seq<string>, available: seq<bool>, i: nat)
    requires |ocr| == |rs| == |available| && i < |rs|
    ensures CountUpdated(rule, rs[..i + 1], ocr[..i + 1], available[..i + 1])
      == CountUpdated(rule, rs[..i], ocr[..i], available[..i]) + (if Eligible(rule, rs[i], available[i]) && ocr[i] != [] then 1 else 0)
    ensures CountPlaceholders(rs[..i + 1]) == CountPlaceholders(rs[..i]) + (if rs[i].answer == Placeholder then 1 else 0)
  {
    assert rs[..i + 1][..i] == rs[..i];
    assert ocr[..i + 1][..i] == ocr[..i];
    assert available[..i + 1][..i] == available[..i];
  }

  /** Under the placeholder rules the loop never updates more records than it counts as pending. */
  lemma {:induction false} UpdatedAtMostPending(rule: Rule, rs: seq<Record>, ocr: seq<string>, available: seq<bool>)
    requires rule == PlaceholderOnly || rule == PlaceholderWithUrl
    requires |ocr| == |rs| == |available|
    ensures CountUpdated(rule, rs, ocr, available) <= CountPlaceholders(rs)
  {
    if rs != [] {
      var k := |rs| - 1;
      UpdatedAtMostPending(rule, rs[..k], ocr[..k], available[..k]);
    }
  }

  /** Something is updated exactly when some eligible record got a non-empty answer. */
  lemma {:induction false} UpdatedPositive(rule: Rule, rs: seq<Record>, ocr: seq<string>, available: seq<bool>)
    requires |ocr| == |rs| == |available|
    ensures CountUpdated(rule, rs, ocr, available) > 0
      <==> exists i | 0 <= i < |rs| :: Eligible(rule, rs[i], available[i]) && ocr[i] != []
  {
    if rs != [] {
      var k := |rs| - 1;
      UpdatedPositive(rule, rs[..k], ocr[..k], available[..k]);
      if exists i | 0 <= i < |rs| :: Eligible(rule, rs[i], available[i]) && ocr[i] != [] {
        var i :| 0 <= i < |rs| && Eligible(rule, rs[i], available[i]) && ocr[i] != [];
        if i < k {
          assert rs[..k][i] == rs[i] && ocr[..k][i] == ocr[i] && available[..k][i] == available[i];
        }
      }
      if CountUpdated(rule, rs[..k], ocr[..k], available[..k]) > 0 {
        var i :| 0 <= i < k && Eligible(rule, rs[..k][i], available[..k][i]) && ocr[..k][i] != [];
        assert rs[..k][i] == rs[i] && ocr[..k][i] == ocr[i] && available[..k][i] == available[i];
      }
    }
  }

  /**
   * The placeholder loop of the EasyOCR, PaddleOCR, universal and final
   * tools: `ocr[i]` is what the tool's image pipeline returns for record
   * `i`. Only placeholder records with a URL change, only their `answer`,
   * and only to a non-empty answer; no more records are updated than were
   * pending, and the file is written only when `updateFile` is set and
   * something was updated.
   */
  method UpdatePlaceholders(rs: seq<Record>, ocr: seq<string>, updateFile: bool)
    returns (result: seq<Record>, updated: nat, pending: nat, saved: bool)
    requires |ocr| == |rs|
    ensures |result| == |rs|
    ensures forall i | 0 <= i < |rs| ::
      result[i].filename == rs[i].filename && result[i].url == rs[i].url
      && (result[i] != rs[i] ==> rs[i].answer == Placeholder && rs[i].url != [] && result[i].answer == ocr[i] != [])
      && (rs[i].answer == Placeholder && rs[i].url != [] && ocr[i] != [] ==> result[i].answer == ocr[i])
    ensures updated <= pending == CountPlaceholders(rs)
    ensures saved <==> updateFile && updated > 0
  {
    var available := seq(|rs|, i => true);
    result, updated, pending, saved := UpdateAnswers(PlaceholderWithUrl, rs, ocr, available, updateFile);
    UpdatedAtMostPending(PlaceholderWithUrl, rs, ocr, available);
  }

  // ------------------------------------------------------ two-pass updates

  /*
   * The refreshers that first collect the indexes of the records to look
   * at and then walk those indexes: `sel` says which records the first
   * pass collects and `assign` which answer, if any, the second pass
   * writes into a record, given what the recognizer returned for it.
   */

  /** The indexes of the records `sel` picks, in file order. */
  function Indices(sel: Record -> bool, rs: seq<Record>): (items: seq<nat>)
    ensures forall m | 0 <= m < |items| :: items[m] < |rs| && sel(rs[items[m]])
    ensures forall m, n | 0 <= m < n < |items| :: items[m] < items[n]
    ensures forall j | 0 <= j < |rs| && sel(rs[j]) :: j in items
  {
    if rs == [] then []
    else
      var k := |rs| - 1;
      var items := Indices(sel, rs[..k]);
      assert forall j | 0 <= j < k :: rs[..k][j] == rs[j];
      items + (if sel(rs[k]) then [k] else [])
  }

  /** The number of assignments the loop makes over the indexes `idx`. */
  function AssignedAmong(assign: (Record, string) -> Option<string>, rs: seq<Record>, ocr: seq<string>, idx: seq<nat>): nat
    requires |ocr| == |rs|
    requires forall m | 0 <= m < |idx| :: idx[m] < |rs|
  {
    if idx == [] then 0
    else
      var n := |idx| - 1;
      AssignedAmong(assign, rs, ocr, idx[..n]) + (if assign(rs[idx[n]], ocr[idx[n]]).Some? then 1 else 0)
  }

  /** `updated_count`: the records of the dataset that get an answer. */
  function CountAssigned(assign: (Record, string) -> Option<string>, rs: seq<Record>, ocr: seq<string>): nat
    requires |ocr| == |rs|
  {
    if rs == [] then 0
    else
      var k := |rs| - 1;
      CountAssigned(assign, rs[..k], ocr[..k]) + (if assign(rs[k], ocr[k]).Some? then 1 else 0)
  }

  lemma {:induction false} AssignedAmongPrefix(assign: (Record, string) -> Option<string>, rs: seq<Record>, ocr: seq<string>, idx: seq<nat>, k: nat)
    requires |ocr| == |rs| && k <= |rs|
    requires forall m | 0 <= m < |idx| :: idx[m] < k
    ensures AssignedAmong(assign, rs, ocr, idx) == AssignedAmong(assign, rs[..k], ocr[..k], idx)
  {
    if idx != [] {
      AssignedAmongPrefix(assign, rs, ocr, idx[..|idx| - 1], k);
    }
  }

  /** When only picked records get answers, counting over the picked indexes is counting over the whole dataset. */
  lemma {:induction false} AssignedAmongIndices(sel: Record -> bool, assign: (Record, string) -> Option<string>, rs: seq<Record>, ocr: seq<string>)
    requires |ocr| == |rs|
    requires forall r, o :: assign(r, o).Some? ==> sel(r)
    ensures AssignedAmong(assign, rs, ocr, Indices(sel, rs)) == CountAssigned(assign, rs, ocr)
  {
    if rs != [] {
      var k := |rs| - 1;
      var items := Indices(sel, rs[..k]);
      AssignedAmongIndices(sel, assign, rs[..k], ocr[..k]);
      AssignedAmongPrefix(assign, rs, ocr, items, k);
      if sel(rs[k]) {
        assert (items + [k])[..|items|] == items;
        assert AssignedAmong(assign, rs, ocr, items + [k])
          == AssignedAmong(assign, rs, ocr, items) + (if assign(rs[k], ocr[k]).Some? then 1 else 0);
      } else {
        assert assign(rs[k], ocr[k]).None?;
        assert Indices(sel, rs) == items;
      }
    }
  }

  /** `updated_count <= len(placeholder_items)`. */
  lemma {:induction false} CountAssignedBound(sel: Record -> bool, assign: (Record, string) -> Option<string>, rs: seq<Record>, ocr: seq<string>)
    requires |ocr| == |rs|
    requires forall r, o :: assign(r, o).Some? ==> sel(r)
    ensures CountAssigned(assign, rs, ocr) <= |Indices(sel, rs)|
  {
    if rs != [] {
      CountAssignedBound(sel, assign, rs[..|rs| - 1], ocr[..|rs| - 1]);
    }
  }

  /** Something is counted exactly when some record gets an answer. */
  lemma {:induction false} CountAssignedPositive(assign: (Record, string) -> Option<string>, rs: seq<Record>, ocr: seq<string>)
    requires |ocr| == |rs|
    ensures CountAssigned(assign, rs, ocr) > 0 <==> exists i | 0 <= i < |rs| :: assign(rs[i], ocr[i]).Some?
  {
    if rs != [] {
      var k := |rs| - 1;
      CountAssignedPositive(assign, rs[..k], ocr[..k]);
      assert forall i | 0 <= i < k :: rs[..k][i] == rs[i] && ocr[..k][i] == ocr[i];
    }
  }

  // ------------------------------------------------------------ reports

  /** `n / total * 100`, a percentage when `n <= total`. */
  function Percent(n: nat, total: nat): (p: real)
    requires total > 0
    ensures n <= total ==> 0.0 <= p <= 100.0
  {
    var x, t := n as real, total as real;
    assert n <= total ==> x / t <= 1.0;
    x / t * 100.0
  }

  /** Percentages of the same total add up. */
  lemma PercentAdd(a: nat, b: nat, total: nat)
    requires total > 0
    ensures Percent(a, total) + Percent(b, total) == Percent(a + b, total)
  {
    var x, y, t := a as real, b as real, total as real;
    assert x / t + y / t == (x + y) / t;
    assert x / t * 100.0 + y / t * 100.0 == (x / t + y / t) * 100.0;
  }

  /** Fewer than the whole is less than 100 percent. */
  lemma PercentBelowWhole(n: nat, total: nat)
    requires n < total
    ensures Percent(n, total) < 100.0
  {
    var x, t := n as real, total as real;
    assert x / t < 1.0;
  }
}
