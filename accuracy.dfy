/**
 * The accuracy check against known answers: every reading is split into
 * candidate words (CJK runs, upper-cased Latin runs, digit runs, symbol
 * runs), the candidates are grouped by value in first-seen order, and a
 * record counts as recognized when its known answer is among them.
 */
module AccuracyCheck {
  import opened Wrappers
  import opened Text
  import opened Scan
  import opened Imaging
  import opened Records
  import opened Counting
  import opened Tesseract

  /** `configs` of `extract_text_comprehensive`. */
  const Configs: seq<string> := [
    "--oem 3 --psm 6", "--oem 3 --psm 7", "--oem 3 --psm 8", "--oem 3 --psm 13",
    "--oem 3 --psm 6 -c tessedit_char_whitelist=0123456789ABCDEFGHIJKLMNOPQRSTUVWXYZabcdefghijklmnopqrstuvwxyz",
    "--oem 3 --psm 7 -c tessedit_char_whitelist=0123456789"]

  /** `processed_images[:20]`. */
  const ImageLimit: nat := 20

  predicate IsSymbol(c: char) {
    c == '△' || c == '○' || c == '□' || c == '/' || c == '-'
  }

  /** `[w.upper() for w in words]`. */
  function UpperAll(ws: seq<string>): (us: seq<string>)
    ensures |us| == |ws| && forall i | 0 <= i < |ws| :: us[i] == Upper(ws[i])
  {
    seq(|ws|, i requires 0 <= i < |ws| => Upper(ws[i]))
  }

  /** `clean_and_extract_answer`: the four `findall` passes over the collapsed text, in this order. */
  function Candidates(text: string): seq<string> {
    if text == [] then []
    else
      var t := Collapse(Strip(text));
      Chunks(t, IsCjk, 1, 4) + UpperAll(Chunks(t, IsAsciiLetter, 2, 10))
      + Chunks(t, IsDigit, 1, 4) + Chunks(t, IsSymbol, 1, 3)
  }

  /** `[w.upper() for w in english_words]`. */
  method UpperWords(ws: seq<string>) returns (us: seq<string>)
    ensures us == UpperAll(ws)
  {
    us := [];
    for i := 0 to |ws|
      invariant |us| == i && forall j | 0 <= j < i :: us[j] == Upper(ws[j])
    {
      us := us + [Upper(ws[i])];
    }
  }

  method CleanAndExtract(text: string) returns (candidates: seq<string>)
    ensures candidates == Candidates(text)
  {
    if text == [] {
      return [];
    }
    var t := Collapse(Strip(text));
    var english := Chunks(t, IsAsciiLetter, 2, 10);
    var upper := UpperWords(english);
    candidates := Chunks(t, IsCjk, 1, 4) + upper + Chunks(t, IsDigit, 1, 4) + Chunks(t, IsSymbol, 1, 3);
  }

  /** One of the four kinds of candidate, read from `t`. */
  predicate CandidateOf(w: string, t: string) {
    (All(w, IsCjk) && 1 <= |w| <= 4 && InText(w, t))
    || (exists u | u in Chunks(t, IsAsciiLetter, 2, 10) :: w == Upper(u))
    || (All(w, IsDigit) && 1 <= |w| <= 4 && InText(w, t))
    || (All(w, IsSymbol) && 1 <= |w| <= 3 && InText(w, t))
  }

  /** Upper-casing a run of Latin letters of 2 to 10 gives a run of capitals of the same length. */
  lemma UpperLatin(t: string)
    ensures forall u | u in UpperAll(Chunks(t, IsAsciiLetter, 2, 10)) :: 2 <= |u| <= 10 && All(u, IsAsciiUpper)
  {
    var latin := Chunks(t, IsAsciiLetter, 2, 10);
    forall u | u in UpperAll(latin) ensures 2 <= |u| <= 10 && All(u, IsAsciiUpper) {
      var i :| 0 <= i < |latin| && u == Upper(latin[i]);
      assert All(latin[i], IsAsciiLetter);
    }
  }

  lemma CandidatesOf(t: string, ws: seq<string>)
    requires ws == Chunks(t, IsCjk, 1, 4) + UpperAll(Chunks(t, IsAsciiLetter, 2, 10))
      + Chunks(t, IsDigit, 1, 4) + Chunks(t, IsSymbol, 1, 3)
    ensures forall w | w in ws :: CandidateOf(w, t)
  {
    var latin := Chunks(t, IsAsciiLetter, 2, 10);
    forall w | w in ws ensures CandidateOf(w, t) {
      if w in UpperAll(latin) {
        var i :| 0 <= i < |latin| && w == Upper(latin[i]);
        assert latin[i] in latin;
      }
    }
  }

  /**
   * Empty text has no candidates. Otherwise every candidate is a run
   * found in the collapsed text (CJK of 1 to 4, digits of 1 to 4,
   * symbols of 1 to 3 characters) or an upper-cased Latin run of 2 to 10
   * letters, whose letters are then all capitals, and the CJK runs come
   * first.
   */
  lemma CandidatesShape(text: string)
    ensures text == [] ==> Candidates(text) == []
    ensures text != [] ==> forall w | w in Candidates(text) :: CandidateOf(w, Collapse(Strip(text)))
    ensures text != [] ==> Chunks(Collapse(Strip(text)), IsCjk, 1, 4) <= Candidates(text)
    ensures forall u | u in UpperAll(Chunks(Collapse(Strip(text)), IsAsciiLetter, 2, 10)) ::
      2 <= |u| <= 10 && All(u, IsAsciiUpper)
  {
    UpperLatin(Collapse(Strip(text)));
    if text != [] {
      CandidatesOf(Collapse(Strip(text)), Candidates(text));
    }
  }

  // -------------------------------------------------------------- grouping

  /** `all_candidates`: the candidates of every reading, in order. */
  function AllCandidates(texts: seq<string>): seq<string> {
    if texts == [] then [] else AllCandidates(texts[..|texts| - 1]) + Candidates(texts[|texts| - 1])
  }

  /** The candidate loop over `ocr_results`. */
  method CollectCandidates(texts: seq<string>) returns (all: seq<string>)
    ensures all == AllCandidates(texts)
  {
    all := [];
    for i := 0 to |texts|
      invariant all == AllCandidates(texts[..i])
    {
      assert texts[..i + 1][..i] == texts[..i];
      var cs := CleanAndExtract(texts[i]);
      all := all + cs;
    }
    assert texts[..|texts|] == texts;
  }

  /** `for candidate, sources in unique_candidates.items(): if candidate == expected: correct_found = True`. */
  method FindCorrect(keys: seq<string>, expected: string) returns (found: bool)
    ensures found <==> expected in keys
  {
    found := false;
    for i := 0 to |keys|
      invariant found <==> expected in keys[..i]
    {
      assert keys[..i + 1] == keys[..i] + [keys[i]];
      if keys[i] == expected {
        found := true;
      }
    }
    assert keys[..|keys|] == keys;
  }

  /** One entry of `test_results`. */
  datatype TestResult = TestResult(filename: string, expected: string, candidates: seq<string>, correctFound: bool)

  /**
   * The entry for record `r`: none without a URL, without the original
   * image (`available` false after the download attempt) or without
   * preprocessed images; otherwise the grouped candidates of the readings
   * of the first 20 images.
   */
  function Evaluate(r: Record, available: bool, images: seq<Variant>, recognize: Recognizer): Option<TestResult> {
    if r.url == [] || !available || images == [] then None
    else
      var keys := CountAll(AllCandidates(Texts(AllReadings(Take(images, ImageLimit), Configs, recognize)))).keys;
      Some(TestResult(r.filename, r.answer, keys, r.answer in keys))
  }

  method EvaluateRecord(r: Record, available: bool, images: seq<Variant>, recognize: Recognizer) returns (e: Option<TestResult>)
    ensures e == Evaluate(r, available, images, recognize)
  {
    if r.url == [] || !available || images == [] {
      return None;
    }
    var readings := RecognizeAll(Take(images, ImageLimit), Configs, recognize);
    var all := CollectCandidates(Texts(readings));
    var counts := AddAll(NoCounts, all, []);
    assert [] + all == all;
    var found := FindCorrect(counts.keys, r.answer);
    e := Some(TestResult(r.filename, r.answer, counts.keys, found));
  }

  /**
   * A record is recognized exactly when its known answer is one of the
   * candidates of the readings; the listed candidates are those values,
   * each once, in first-seen order.
   */
  lemma EvaluateCorrect(r: Record, available: bool, images: seq<Variant>, recognize: Recognizer)
    requires Evaluate(r, available, images, recognize).Some?
    ensures var e := Evaluate(r, available, images, recognize).value;
      var all := AllCandidates(Texts(AllReadings(Take(images, ImageLimit), Configs, recognize)));
      (e.correctFound <==> r.answer in all)
      && (forall k :: k in e.candidates <==> k in all)
      && forall i, j | 0 <= i < j < |e.candidates| :: e.candidates[i] != e.candidates[j]
  {
    var all := AllCandidates(Texts(AllReadings(Take(images, ImageLimit), Configs, recognize)));
    CountAllOccurrences(all);
  }

  /** The entries of the records tested, in order. */
  function Results(rs: seq<Record>, available: seq<bool>, images: seq<seq<Variant>>, recognizers: seq<Recognizer>): seq<TestResult>
    requires |available| == |rs| && |images| == |rs| && |recognizers| == |rs|
  {
    if rs == [] then []
    else
      var k := |rs| - 1;
      var e := Evaluate(rs[k], available[k], images[k], recognizers[k]);
      Results(rs[..k], available[..k], images[..k], recognizers[..k]) + (if e.Some? then [e.value] else [])
  }

  /** `correct_count`. */
  function CorrectCount(results: seq<TestResult>): (n: nat)
    ensures n <= |results|
  {
    if results == [] then 0
    else CorrectCount(results[..|results| - 1]) + (if results[|results| - 1].correctFound then 1 else 0)
  }

  /** `correct_count/len(test_results)*100`, which raises on an empty list. */
  function Accuracy(results: seq<TestResult>): (a: Result<real>)
    ensures a.Err? <==> results == []
    ensures a.Ok? ==> 0.0 <= a.value <= 100.0
  {
    if results == [] then Err(ZeroDivision)
    else Ok(CorrectCount(results) as real / |results| as real * 100.0)
  }

  lemma ResultsNext(rs: seq<Record>, available: seq<bool>, images: seq<seq<Variant>>, recognizers: seq<Recognizer>, i: nat)
    requires |available| == |rs| && |images| == |rs| && |recognizers| == |rs| && i < |rs|
    ensures var e := Evaluate(rs[i], available[i], images[i], recognizers[i]);
      Results(rs[..i + 1], available[..i + 1], images[..i + 1], recognizers[..i + 1])
      == Results(rs[..i], available[..i], images[..i], recognizers[..i]) + (if e.Some? then [e.value] else [])
  {
    assert rs[..i + 1][..i] == rs[..i];
    assert available[..i + 1][..i] == available[..i];
    assert images[..i + 1][..i] == images[..i];
    assert recognizers[..i + 1][..i] == recognizers[..i];
  }

  /** The record loop of `test_ocr_on_known_answers` over the first `n` records. */
  method EvaluateAll(rs: seq<Record>, n: nat, available: seq<bool>, images: seq<seq<Variant>>, recognizers: seq<Recognizer>)
    returns (results: seq<TestResult>)
    requires |available| == |rs| && |images| == |rs| && |recognizers| == |rs| && n <= |rs|
    ensures results == Results(rs[..n], available[..n], images[..n], recognizers[..n])
  {
    results := [];
    for i := 0 to n
      invariant results == Results(rs[..i], available[..i], images[..i], recognizers[..i])
    {
      ResultsNext(rs, available, images, recognizers, i);
      var e := EvaluateRecord(rs[i], available[i], images[i], recognizers[i]);
      if e.Some? {
        results := results + [e.value];
      }
    }
  }

  /** `sum(1 for r in test_results if r["correct_found"])`. */
  method CountCorrect(results: seq<TestResult>) returns (correct: nat)
    ensures correct == CorrectCount(results)
  {
    correct := 0;
    for i := 0 to |results|
      invariant correct == CorrectCount(results[..i])
    {
      assert results[..i + 1][..i] == results[..i];
      if results[i].correctFound {
        correct := correct + 1;
      }
    }
    assert results[..|results|] == results;
  }

  /**
   * The length of `xs[:n]` for a list of length `len`: a negative `n`
   * counts from the end, as `--count` (an unchecked `int`) allows.
   */
  function HeadLength(n: int, len: nat): (k: nat)
    ensures k <= len
    ensures n >= 0 ==> k == if n < len then n else len
    ensures n < 0 ==> k == if len + n > 0 then len + n else 0
  {
    if n >= 0 then (if n < len then n else len)
    else if len + n > 0 then len + n else 0
  }

  /**
   * `test_ocr_on_known_answers` over `answers_data[:test_count]`: per record
   * whether its original image is available, the preprocessed images and
   * the recognizer for them. The summary divides by the number of entries,
   * so a run that produced none ends in `ZeroDivisionError`; otherwise the
   * entries are returned, and `correct` is the count the summary prints.
   */
  method TestKnownAnswers(rs: seq<Record>, testCount: int, available: seq<bool>, images: seq<seq<Variant>>, recognizers: seq<Recognizer>)
    returns (r: Result<seq<TestResult>>, correct: nat)
    requires |available| == |rs| && |images| == |rs| && |recognizers| == |rs|
    ensures var n := HeadLength(testCount, |rs|);
      var results := Results(rs[..n], available[..n], images[..n], recognizers[..n]);
      (r.Err? <==> results == [])
      && (r.Err? ==> r.error == ZeroDivision)
      && (r.Ok? ==> r.value == results)
      && correct == CorrectCount(results)
  {
    var n := HeadLength(testCount, |rs|);
    var results := EvaluateAll(rs, n, available, images, recognizers);
    correct := CountCorrect(results);
    var accuracy := Accuracy(results);
    if accuracy.Err? {
      return Err(accuracy.error), correct;
    }
    return Ok(results), correct;
  }

  /**
   * No more entries than records tested, and the correct count is the
   * number of records whose known answer was among their candidates.
   */
  lemma {:induction false} ResultsCount(rs: seq<Record>, available: seq<bool>, images: seq<seq<Variant>>, recognizers: seq<Recognizer>)
    requires |available| == |rs| && |images| == |rs| && |recognizers| == |rs|
    ensures |Results(rs, available, images, recognizers)| <= |rs|
    ensures forall e | e in Results(rs, available, images, recognizers) :: e.correctFound <==> e.expected in e.candidates
    ensures |Results(rs, available, images, recognizers)| == 0 ==> forall i | 0 <= i < |rs| :: rs[i].url == [] || !available[i] || images[i] == []
  {
    if rs != [] {
      var k := |rs| - 1;
      ResultsCount(rs[..k], available[..k], images[..k], recognizers[..k]);
      if |Results(rs, available, images, recognizers)| == 0 {
        forall i | 0 <= i < |rs| ensures rs[i].url == [] || !available[i] || images[i] == [] {
          if i < k {
            assert rs[..k][i] == rs[i] && available[..k][i] == available[i] && images[..k][i] == images[i];
          }
        }
      }
    }
  }
}
