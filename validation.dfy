/**
 * The validation report: the first `known` records of the current answer
 * file compared position by position with a backup that holds the right
 * answers, an accuracy over `known`, the mismatches, and a classification
 * of the records from position `known` on, which the recognizer wrote.
 */
module Validation {
  import opened Wrappers
  import opened Text
  import opened Records
  import opened AnswerKinds
  import OcrSummary

  // ------------------------------------------------------------ comparison

  /** `min(known_correct_count, len(current_data), len(backup_data))`, as a `range` bound. */
  function Compared(cur: seq<Record>, bak: seq<Record>, known: int): (n: nat)
    ensures n <= |cur| && n <= |bak| && (known >= 0 ==> n <= known)
    ensures known >= 0 ==> n == known || n == |cur| || n == |bak|
    ensures known < 0 ==> n == 0
  {
    var m := if known < |cur| then known else |cur|;
    var m' := if m < |bak| then m else |bak|;
    if m' < 0 then 0 else m'
  }

  /** How many of the first `n` positions carry the same answer in both files. */
  function Agreements(cur: seq<Record>, bak: seq<Record>, n: nat): (c: nat)
    requires n <= |cur| && n <= |bak|
    ensures c <= n
  {
    if n == 0 then 0
    else Agreements(cur, bak, n - 1) + (if bak[n - 1].answer == cur[n - 1].answer then 1 else 0)
  }

  /** One line of `错误详情`: expected answer from the backup, actual from the current file. */
  datatype Mismatch = Mismatch(filename: string, expected: string, actual: string)

  /** The mismatches among the first `n` positions, in file order. */
  function Mismatches(cur: seq<Record>, bak: seq<Record>, n: nat): (ms: seq<Mismatch>)
    requires n <= |cur| && n <= |bak|
    ensures |ms| == n - Agreements(cur, bak, n)
  {
    if n == 0 then []
    else
      var i := n - 1;
      Mismatches(cur, bak, i)
      + (if bak[i].answer != cur[i].answer then [Mismatch(cur[i].filename, bak[i].answer, cur[i].answer)] else [])
  }

  /**
   * A mismatch is listed exactly for every compared position whose answers
   * differ, with the current file's name and both answers.
   */
  lemma {:induction false} MismatchesExact(cur: seq<Record>, bak: seq<Record>, n: nat)
    requires n <= |cur| && n <= |bak|
    ensures forall i | 0 <= i < n && bak[i].answer != cur[i].answer ::
      Mismatch(cur[i].filename, bak[i].answer, cur[i].answer) in Mismatches(cur, bak, n)
    ensures forall m | m in Mismatches(cur, bak, n) :: exists i | 0 <= i < n ::
      bak[i].answer != cur[i].answer && m == Mismatch(cur[i].filename, bak[i].answer, cur[i].answer)
  {
    if n > 0 {
      MismatchesExact(cur, bak, n - 1);
    }
  }

  /** The comparison loop: `correct_count` and `incorrect_count`. */
  method Compare(cur: seq<Record>, bak: seq<Record>, known: int) returns (correct: nat, incorrect: nat)
    ensures correct == Agreements(cur, bak, Compared(cur, bak, known))
    ensures correct + incorrect == Compared(cur, bak, known)
  {
    var n := Compared(cur, bak, known);
    correct, incorrect := 0, 0;
    for i := 0 to n
      invariant correct == Agreements(cur, bak, i) && correct + incorrect == i
    {
      if bak[i].answer == cur[i].answer {
        correct := correct + 1;
      } else {
        incorrect := incorrect + 1;
      }
    }
  }

  /** The second loop, run only when something was wrong. */
  method ListMismatches(cur: seq<Record>, bak: seq<Record>, n: nat) returns (ms: seq<Mismatch>)
    requires n <= |cur| && n <= |bak|
    ensures ms == Mismatches(cur, bak, n)
  {
    ms := [];
    for i := 0 to n
      invariant ms == Mismatches(cur, bak, i)
    {
      if bak[i].answer != cur[i].answer {
        ms := ms + [Mismatch(cur[i].filename, bak[i].answer, cur[i].answer)];
      }
    }
  }

  /** `correct_count / known_correct_count * 100`, with `known` non-zero. */
  function Accuracy(correct: nat, known: int): real
    requires known != 0
  {
    (correct as real) / (known as real) * 100.0
  }

  /**
   * The accuracy is a percentage of `known`, not of the records compared:
   * all compared answers right still gives less than 100 when a file is
   * shorter than `known`; a negative `known` compares nothing and gives 0.
   */
  lemma AccuracyOverKnown(cur: seq<Record>, bak: seq<Record>, known: int)
    requires known != 0
    ensures var n := Compared(cur, bak, known);
      var a := Accuracy(Agreements(cur, bak, n), known);
      0.0 <= a <= 100.0
      && (known > 0 ==> a == Percent(Agreements(cur, bak, n), known))
      && (known < 0 ==> a == 0.0)
      && (n < known ==> a < 100.0)
  {
    var n := Compared(cur, bak, known);
    var c := Agreements(cur, bak, n);
    if known > 0 {
      assert Accuracy(c, known) == Percent(c, known);
      if n < known {
        PercentBelowWhole(c, known);
      }
    } else {
      assert c == 0;
      ZeroOver(known);
    }
  }

  lemma ZeroOver(known: int)
    requires known < 0
    ensures Accuracy(0, known) == 0.0
  {
    var t := known as real;
    assert 0.0 / t == 0.0;
  }

  // ------------------------------------------------------------------ tail

  /** `current_data[known:]`, Python's slice for either sign of `known`. */
  function Tail<T>(xs: seq<T>, known: int): (t: seq<T>)
    ensures |t| <= |xs| && t == xs[|xs| - |t|..]
    ensures known >= 0 ==> |t| == if known < |xs| then |xs| - known else 0
    ensures known < 0 ==> |t| == if -known < |xs| then -known else |xs|
  {
    if known >= 0 then (if known < |xs| then xs[known..] else [])
    else (if -known < |xs| then xs[|xs| + known..] else xs)
  }

  /** `animals` of the validation report. */
  const Animals: seq<string> := ["熊猫", "兔子", "老虎", "狼", "骆驼", "马", "牛", "羊", "金鱼", "蝴蝶", "蜻蜓", "鹅", "燕子", "袋鼠", "大象"]

  /** `objects` of the validation report. */
  const Objects: seq<string> := ["手枪", "冲锋枪", "军舰", "卡车", "摩托车", "拖拉机", "剪刀", "壶", "高射炮", "飞机"]

  /** The `if/elif` chain: digits, capitals, animals, objects, CJK, other. */
  function KindOf(a: string): Kind {
    if AllDigits(a) then Digits
    else if IsLetters(a) then Letters
    else if a in Animals then Animal
    else if a in Objects then Object
    else if ContainsCjk(a) then Chinese
    else Other
  }

  /** Every character is a CJK ideograph. */
  predicate AllCjk(s: string) {
    s != [] && forall i | 0 <= i < |s| :: IsCjk(s[i])
  }

  /** A word of ideographs is neither a number nor a run of capitals, and is Chinese. */
  lemma CjkWord(s: string)
    requires AllCjk(s)
    ensures !AllDigits(s) && !IsLetters(s) && ContainsCjk(s)
  {
    assert IsCjk(s[0]) && !IsDigit(s[0]);
    assert !HasCharIn(s, IsUpperChar);
  }

  lemma WordsAreCjk()
    ensures forall w | w in Animals :: AllCjk(w)
    ensures forall w | w in Objects :: AllCjk(w)
  {
  }

  /** The words this report lists beyond those of the summary report. */
  const Additions: seq<string> := ["袋鼠", "大象", "飞机"]

  /**
   * The validation report and the summary report test in different orders
   * and with different word lists, yet put every answer in the same
   * category, except the three added words, which the summary calls
   * Chinese.
   */
  lemma AgreesWithSummary(a: string)
    ensures a !in Additions ==> KindOf(a) == OcrSummary.KindOf(a)
    ensures a == "袋鼠" || a == "大象" ==> KindOf(a) == Animal && OcrSummary.KindOf(a) == Chinese
    ensures a == "飞机" ==> KindOf(a) == Object && OcrSummary.KindOf(a) == Chinese
  {
    WordsAreCjk();
    WordListsRelated();
    if a in Animals || a in Objects {
      CjkWord(a);
    }
  }

  /** The summary's lists are this report's lists without the additions; no word is both an animal and an object. */
  lemma WordListsRelated()
    ensures forall w :: w in OcrSummary.Animals <==> w in Animals && w !in Additions
    ensures forall w :: w in OcrSummary.Objects <==> w in Objects && w !in Additions
    ensures forall w | w in Objects :: w !in Animals
  {
  }

  /** One line of a category: the displayed index, the filename and the answer. */
  datatype Line = Line(index: int, filename: string, answer: string)

  /** The lines of category `k` for the tail `ts` whose first record is shown as `start`. */
  function Bucket(ts: seq<Record>, start: int, k: Kind): seq<Line> {
    if ts == [] then []
    else
      var j := |ts| - 1;
      Bucket(ts[..j], start, k) + (if KindOf(ts[j].answer) == k then [Line(start + j, ts[j].filename, ts[j].answer)] else [])
  }

  function Types(ts: seq<Record>, start: int): (types: map<Kind, seq<Line>>)
    ensures forall k: Kind :: k in types && types[k] == Bucket(ts, start, k)
  {
    map k: Kind | k in NoTypes<Line>() :: Bucket(ts, start, k)
  }

  /** The classification loop `for i, entry in enumerate(ocr_generated, start=known_correct_count+1)`. */
  method Classify(ts: seq<Record>, start: int) returns (types: map<Kind, seq<Line>>)
    ensures types == Types(ts, start)
  {
    types := NoTypes();
    assert types == Types(ts[..0], start);
    for j := 0 to |ts|
      invariant types == Types(ts[..j], start)
    {
      var k := KindOf(ts[j].answer);
      TypesStep(ts, start, j);
      types := types[k := types[k] + [Line(start + j, ts[j].filename, ts[j].answer)]];
    }
    assert ts[..|ts|] == ts;
  }

  /** One more record appends its line to its own category and leaves the others. */
  lemma TypesStep(ts: seq<Record>, start: int, j: nat)
    requires j < |ts|
    ensures var k := KindOf(ts[j].answer);
      Types(ts[..j + 1], start) == Types(ts[..j], start)[k := Types(ts[..j], start)[k] + [Line(start + j, ts[j].filename, ts[j].answer)]]
  {
    var q := ts[..j + 1];
    assert q[..j] == ts[..j] && q[j] == ts[j];
    var k := KindOf(ts[j].answer);
    var before := Types(ts[..j], start);
    var after := before[k := before[k] + [Line(start + j, ts[j].filename, ts[j].answer)]];
    var types := Types(q, start);
    forall k': Kind ensures k' in types && k' in after && types[k'] == after[k'] {
      assert types[k'] == Bucket(q, start, k');
    }
    assert types.Keys == after.Keys;
  }

  /** Every record of the tail is listed once, in one category. */
  lemma {:induction false} TypesTotal(ts: seq<Record>, start: int)
    ensures Total(Types(ts, start)) == |ts|
  {
    if ts != [] {
      TypesTotal(ts[..|ts| - 1], start);
    }
  }

  /**
   * A line of category `k` shows the `j`-th tail record, of category `k`,
   * numbered `start + j`: for `0 <= known < len(current_data)` that is the
   * record's own 1-based position in the file.
   */
  lemma {:induction false} BucketLines(ts: seq<Record>, start: int, k: Kind)
    ensures forall l | l in Bucket(ts, start, k) :: exists j | 0 <= j < |ts| ::
      l == Line(start + j, ts[j].filename, ts[j].answer) && KindOf(ts[j].answer) == k
  {
    if ts != [] {
      var j := |ts| - 1;
      BucketLines(ts[..j], start, k);
      assert forall i | 0 <= i < j :: ts[..j][i] == ts[i];
    }
  }

  lemma TailPositions(cur: seq<Record>, known: int)
    requires 0 <= known < |cur|
    ensures |Tail(cur, known)| == |cur| - known
    ensures forall j | 0 <= j < |Tail(cur, known)| :: Tail(cur, known)[j] == cur[known + j]
  {
  }

  // ---------------------------------------------------------------- report

  datatype Report = Report(correct: nat, incorrect: nat, accuracy: real, mismatches: seq<Mismatch>, types: map<Kind, seq<Line>>)

  /**
   * `compare_ocr_results` on the two loaded files: the accuracy divides by
   * `known`, so `known == 0` raises after the comparison and nothing after
   * it happens.
   */
  method CompareOcrResults(cur: seq<Record>, bak: seq<Record>, known: int) returns (r: Result<Report>)
    ensures r.Err? <==> known == 0
    ensures r.Err? ==> r.error == ZeroDivision
    ensures r.Ok? ==>
      var n := Compared(cur, bak, known);
      r.value.correct == Agreements(cur, bak, n) && r.value.correct + r.value.incorrect == n
      && r.value.accuracy == Accuracy(r.value.correct, known)
      && r.value.mismatches == Mismatches(cur, bak, n)
      && r.value.types == Types(Tail(cur, known), known + 1)
  {
    var correct, incorrect := Compare(cur, bak, known);
    if known == 0 {
      return Err(ZeroDivision);
    }
    var accuracy := Accuracy(correct, known);
    var n := Compared(cur, bak, known);
    var types := Classify(Tail(cur, known), known + 1);
    var mismatches: seq<Mismatch> := [];
    if incorrect > 0 {
      mismatches := ListMismatches(cur, bak, n);
    } else {
      NoMismatches(cur, bak, n);
    }
    var report := Report(correct, incorrect, accuracy, mismatches, types);
    r := Ok(report);
  }

  /** All compared answers agree: nothing to list. */
  lemma NoMismatches(cur: seq<Record>, bak: seq<Record>, n: nat)
    requires n <= |cur| && n <= |bak| && Agreements(cur, bak, n) == n
    ensures Mismatches(cur, bak, n) == []
  {
    assert |Mismatches(cur, bak, n)| == 0;
  }
}
