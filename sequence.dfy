/**
 * The sequence-error analyzer: a record whose answer is a number equal to
 * the first number in its filename was "recognized" from the image's
 * serial label, not from its answer.
 */
module SequenceAnalysis {
  import opened Wrappers
  import opened Text
  import opened Scan
  import opened Records

  /** The filename carries a number (`re.search(r'(\d+)', filename)` matches). */
  predicate Numbered(r: Record) {
    HasCharIn(r.filename, IsDigit)
  }

  /** `answer.isdigit() and int(answer) == file_num`. */
  predicate IsSequenceError(r: Record) {
    match FirstNumber(r.filename)
    case None => false
    case Some(f) => AllDigits(r.answer) && NatValue(r.answer) == f
  }

  /** One dictionary of `sequence_errors` or `correct_answers`; `index` counts from 1. */
  datatype Entry = Entry(index: nat, filename: string, answer: string, fileNumber: nat)

  function EntryOf(r: Record, index: nat): Entry
    requires Numbered(r)
  {
    Entry(index, r.filename, r.answer, FirstNumber(r.filename).value)
  }

  /** The entries, at 1-based positions, of the records of `rs` that `keep` picks. */
  function Picked(rs: seq<Record>, keep: Record -> bool): seq<Entry>
    requires forall r | keep(r) :: Numbered(r)
  {
    if rs == [] then []
    else
      var k := |rs| - 1;
      Picked(rs[..k], keep) + (if keep(rs[k]) then [EntryOf(rs[k], |rs|)] else [])
  }

  const ErrorRecord: Record -> bool := r => IsSequenceError(r)
  const CorrectRecord: Record -> bool := r => Numbered(r) && !IsSequenceError(r)

  lemma SequenceErrorNumbered()
    ensures forall r | ErrorRecord(r) :: Numbered(r)
  {
  }

  /** `sequence_errors` after the records `rs`. */
  function Errors(rs: seq<Record>): seq<Entry> {
    SequenceErrorNumbered();
    Picked(rs, ErrorRecord)
  }

  /** `correct_answers` after the records `rs`. */
  function Correct(rs: seq<Record>): seq<Entry> {
    Picked(rs, CorrectRecord)
  }

  /** The records whose filename carries a number. */
  function CountNumbered(rs: seq<Record>): (n: nat)
    ensures n <= |rs|
  {
    if rs == [] then 0 else CountNumbered(rs[..|rs| - 1]) + (if Numbered(rs[|rs| - 1]) then 1 else 0)
  }

  /** What `analyze_sequence_errors` returns, with the two rates it prints. */
  datatype Report = Report(errors: seq<Entry>, correct: seq<Entry>, errorRate: real, correctRate: real)

  /** The loop `for i, entry in enumerate(data, 1)`. */
  method Classify(rs: seq<Record>) returns (errors: seq<Entry>, correct: seq<Entry>)
    ensures errors == Errors(rs) && correct == Correct(rs)
  {
    errors, correct := [], [];
    for i := 0 to |rs|
      invariant errors == Errors(rs[..i]) && correct == Correct(rs[..i])
    {
      assert rs[..i + 1][..i] == rs[..i];
      var entry := rs[i];
      match FirstNumber(entry.filename)
      case Some(f) =>
        if AllDigits(entry.answer) && NatValue(entry.answer) == f {
          errors := errors + [Entry(i + 1, entry.filename, entry.answer, f)];
        } else {
          correct := correct + [Entry(i + 1, entry.filename, entry.answer, f)];
        }
      case None =>
    }
    assert rs[..|rs|] == rs;
  }

  /** `analyze_sequence_errors`: the rates divide by `len(data)`, so an empty file raises before returning. */
  method AnalyzeSequenceErrors(rs: seq<Record>) returns (r: Result<Report>)
    ensures r.Err? <==> rs == []
    ensures r.Err? ==> r.error == ZeroDivision
    ensures r.Ok? ==>
      (r.value.errors == Errors(rs) && r.value.correct == Correct(rs)
       && r.value.errorRate == Percent(|Errors(rs)|, |rs|) && r.value.correctRate == Percent(|Correct(rs)|, |rs|))
  {
    var errors, correct := Classify(rs);
    if |rs| == 0 {
      return Err(ZeroDivision);
    }
    r := Ok(Report(errors, correct, Percent(|errors|, |rs|), Percent(|correct|, |rs|)));
  }

  /** The entries describe the records they come from, at their 1-based position. */
  ghost predicate Describes(es: seq<Entry>, rs: seq<Record>) {
    forall m | 0 <= m < |es| ::
      1 <= es[m].index <= |rs| && Numbered(rs[es[m].index - 1]) && es[m] == EntryOf(rs[es[m].index - 1], es[m].index)
  }

  /** Positions strictly increase: file order. */
  ghost predicate InFileOrder(es: seq<Entry>) {
    forall m, n | 0 <= m < n < |es| :: es[m].index < es[n].index
  }

  /** Every entry describes the record it was made from, which `keep` picks. */
  lemma {:induction false} PickedDescribe(rs: seq<Record>, keep: Record -> bool)
    requires forall r | keep(r) :: Numbered(r)
    ensures Describes(Picked(rs, keep), rs)
    ensures forall m | 0 <= m < |Picked(rs, keep)| :: keep(rs[Picked(rs, keep)[m].index - 1])
  {
    if rs != [] {
      var k := |rs| - 1;
      var p := Picked(rs[..k], keep);
      PickedDescribe(rs[..k], keep);
      var e := Picked(rs, keep);
      forall m | 0 <= m < |e|
        ensures 1 <= e[m].index <= |rs| && Numbered(rs[e[m].index - 1]) && e[m] == EntryOf(rs[e[m].index - 1], e[m].index)
        ensures keep(rs[e[m].index - 1])
      {
        if m < |p| {
          assert e[m] == p[m];
          assert rs[p[m].index - 1] == rs[..k][p[m].index - 1];
        }
      }
    }
  }

  lemma {:induction false} PickedInOrder(rs: seq<Record>, keep: Record -> bool)
    requires forall r | keep(r) :: Numbered(r)
    ensures InFileOrder(Picked(rs, keep))
    ensures forall m | 0 <= m < |Picked(rs, keep)| :: 1 <= Picked(rs, keep)[m].index <= |rs|
  {
    if rs != [] {
      var k := |rs| - 1;
      PickedInOrder(rs[..k], keep);
    }
  }

  /** Every record `keep` picks has its entry. */
  lemma {:induction false} PickedComplete(rs: seq<Record>, keep: Record -> bool)
    requires forall r | keep(r) :: Numbered(r)
    ensures forall i | 0 <= i < |rs| && keep(rs[i]) :: EntryOf(rs[i], i + 1) in Picked(rs, keep)
  {
    if rs != [] {
      var k := |rs| - 1;
      PickedComplete(rs[..k], keep);
      forall i | 0 <= i < |rs| && keep(rs[i]) ensures EntryOf(rs[i], i + 1) in Picked(rs, keep) {
        if i < k {
          assert rs[..k][i] == rs[i];
          assert EntryOf(rs[i], i + 1) in Picked(rs[..k], keep);
        }
      }
    }
  }

  /**
   * `sequence_errors` holds, in file order and at its 1-based position,
   * exactly the records whose digit answer equals their file number, and
   * `correct_answers` exactly the other records with a number in their
   * filename.
   */
  lemma ListsExact(rs: seq<Record>)
    ensures Describes(Errors(rs), rs) && InFileOrder(Errors(rs))
    ensures forall m | 0 <= m < |Errors(rs)| :: IsSequenceError(rs[Errors(rs)[m].index - 1])
    ensures forall i | 0 <= i < |rs| && IsSequenceError(rs[i]) :: EntryOf(rs[i], i + 1) in Errors(rs)
    ensures Describes(Correct(rs), rs) && InFileOrder(Correct(rs))
    ensures forall m | 0 <= m < |Correct(rs)| :: !IsSequenceError(rs[Correct(rs)[m].index - 1])
    ensures forall i | 0 <= i < |rs| && Numbered(rs[i]) && !IsSequenceError(rs[i]) :: EntryOf(rs[i], i + 1) in Correct(rs)
  {
    SequenceErrorNumbered();
    PickedDescribe(rs, ErrorRecord);
    PickedInOrder(rs, ErrorRecord);
    PickedComplete(rs, ErrorRecord);
    PickedDescribe(rs, CorrectRecord);
    PickedInOrder(rs, CorrectRecord);
    PickedComplete(rs, CorrectRecord);
  }

  /**
   * The two lists split the numbered records: together they hold one
   * entry per record whose filename carries a number, and the records
   * without one are in neither.
   */
  lemma {:induction false} Partition(rs: seq<Record>)
    ensures |Errors(rs)| + |Correct(rs)| == CountNumbered(rs) <= |rs|
  {
    if rs != [] {
      Partition(rs[..|rs| - 1]);
      SequenceErrorNumbered();
    }
  }

  /** The two printed rates are percentages that add up to at most 100. */
  lemma RatesBounded(rs: seq<Record>)
    requires rs != []
    ensures 0.0 <= Percent(|Errors(rs)|, |rs|) <= 100.0 && 0.0 <= Percent(|Correct(rs)|, |rs|) <= 100.0
    ensures Percent(|Errors(rs)|, |rs|) + Percent(|Correct(rs)|, |rs|) <= 100.0
  {
    Partition(rs);
    PercentAdd(|Errors(rs)|, |Correct(rs)|, |rs|);
  }
}
