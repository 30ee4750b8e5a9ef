/**
 * The sequence-error fixer: the records the analyzer's criterion flags
 * are sent through the EasyOCR pipeline again and get its answer when it
 * is new.
 */
module SequenceFix {
  import opened Wrappers
  import opened Text
  import opened Scan
  import opened Records
  import opened SequenceAnalysis

  /** The answer the loop writes into `entry['answer']`; `ocr` is what `process_single_image` returns. */
  function FixAnswer(r: Record, ocr: string): (a: Option<string>)
    ensures a.Some? <==> IsSequenceError(r) && r.url != [] && ocr != [] && ocr != r.answer
    ensures a.Some? ==> a.value == ocr
  {
    if IsSequenceError(r) && r.url != [] && ocr != [] && ocr != r.answer then Some(ocr) else None
  }

  const FixFor: (Record, string) -> Option<string> := (r, o) => FixAnswer(r, o)

  /** The records after the loop. */
  function Fixed(r: Record, ocr: string): Record {
    match FixAnswer(r, ocr)
    case Some(a) => r.(answer := a)
    case None => r
  }

  /** The first loop: the 0-based `index` of every sequence error, in file order. */
  method FindSequenceErrors(rs: seq<Record>) returns (items: seq<nat>)
    ensures items == Indices(ErrorRecord, rs)
  {
    items := [];
    for i := 0 to |rs|
      invariant items == Indices(ErrorRecord, rs[..i])
    {
      assert rs[..i + 1][..i] == rs[..i];
      match FirstNumber(rs[i].filename)
      case Some(f) =>
        if AllDigits(rs[i].answer) && NatValue(rs[i].answer) == f {
          items := items + [i];
        }
      case None =>
    }
    assert rs[..|rs|] == rs;
  }

  /** The second loop, over `sequence_errors`. */
  method FixAll(rs: seq<Record>, ocr: seq<string>, items: seq<nat>) returns (data: seq<Record>, fixed: nat)
    requires |ocr| == |rs|
    requires forall m | 0 <= m < |items| :: items[m] < |rs| && IsSequenceError(rs[items[m]])
    requires forall m, n | 0 <= m < n < |items| :: items[m] < items[n]
    ensures |data| == |rs|
    ensures forall j | 0 <= j < |rs| :: data[j] == if j in items then Fixed(rs[j], ocr[j]) else rs[j]
    ensures fixed == AssignedAmong(FixFor, rs, ocr, items)
  {
    data := rs;
    fixed := 0;
    for k := 0 to |items|
      invariant |data| == |rs|
      invariant forall j | 0 <= j < |rs| :: data[j] == if j in items[..k] then Fixed(rs[j], ocr[j]) else rs[j]
      invariant fixed == AssignedAmong(FixFor, rs, ocr, items[..k])
    {
      assert items[..k + 1][..k] == items[..k];
      var index := items[k];
      assert index !in items[..k];
      var entry := rs[index];
      if entry.url == [] {
        continue;
      }
      var answer := ocr[index];
      if answer != [] && answer != entry.answer {
        data := data[index := entry.(answer := answer)];
        fixed := fixed + 1;
      }
    }
    assert items[..|items|] == items;
  }

  /**
   * `fix_sequence_errors`: only flagged records with a URL whose new OCR
   * answer is non-empty and different change, only in their answer;
   * `fixed_count` counts them and is at most the number of errors found;
   * nothing is saved when nothing was fixed (in particular when no error
   * was found).
   */
  method FixSequenceErrors(rs: seq<Record>, ocr: seq<string>) returns (data: seq<Record>, fixed: nat, saved: bool)
    requires |ocr| == |rs|
    ensures |data| == |rs| && forall i | 0 <= i < |rs| :: data[i] == Fixed(rs[i], ocr[i])
    ensures fixed == CountAssigned(FixFor, rs, ocr) <= |Indices(ErrorRecord, rs)|
    ensures saved <==> fixed > 0
  {
    var items := FindSequenceErrors(rs);
    assert forall r, o :: FixFor(r, o).Some? ==> ErrorRecord(r);
    AssignedAmongIndices(ErrorRecord, FixFor, rs, ocr);
    CountAssignedBound(ErrorRecord, FixFor, rs, ocr);
    if items == [] {
      forall j | 0 <= j < |rs| ensures Fixed(rs[j], ocr[j]) == rs[j] {
        assert !ErrorRecord(rs[j]);
      }
      return rs, 0, false;
    }
    data, fixed := FixAll(rs, ocr, items);
    forall j | 0 <= j < |rs| ensures data[j] == Fixed(rs[j], ocr[j]) {
      if j !in items {
        assert !ErrorRecord(rs[j]);
      }
    }
    saved := fixed > 0;
  }

  /** The fixer flags exactly the records the analyzer lists as errors (0-based here, 1-based there). */
  lemma SameCriterion(rs: seq<Record>)
    ensures forall i | 0 <= i < |rs| :: i in Indices(ErrorRecord, rs) <==> Numbered(rs[i]) && EntryOf(rs[i], i + 1) in Errors(rs)
  {
    ListsExact(rs);
    forall i | 0 <= i < |rs| && Numbered(rs[i]) && EntryOf(rs[i], i + 1) in Errors(rs) ensures ErrorRecord(rs[i]) {
      var m :| 0 <= m < |Errors(rs)| && Errors(rs)[m] == EntryOf(rs[i], i + 1);
    }
  }
}
