/**
 * The placeholder refresher: the records whose answer carries one of the
 * placeholder markers get an answer derived from the marker text itself
 * (batch mode) or from the EasyOCR pipeline, once the markers are cut out
 * of the recognized text.
 */
module BatchUpdate {
  import opened Wrappers
  import opened Text
  import opened Records

  // -------------------------------------------------------- placeholders

  /** `placeholder_patterns` of `is_placeholder_answer` and of the batch cleaning loop. */
  const BatchPatterns: seq<string> := ["查看色弱滤镜", "placeholder", "待识别", "未识别"]

  /** `placeholder_patterns` of `update_single_dataset`. */
  const SinglePatterns: seq<string> := ["1查看色弱滤镜", "查看色弱滤镜", "placeholder", "待识别", "未识别"]

  /** `any(pattern in s for pattern in ps)`. */
  function ContainsAny(s: string, ps: seq<string>): (b: bool)
    ensures b <==> exists k | 0 <= k < |ps| :: Contains(s, ps[k])
  {
    if ps == [] then false
    else
      var k := |ps| - 1;
      var b := ContainsAny(s, ps[..k]);
      assert forall j | 0 <= j < k :: ps[..k][j] == ps[j];
      b || Contains(s, ps[k])
  }

  /** `is_placeholder_answer`. */
  function IsPlaceholderAnswer(a: string): bool {
    a != [] && ContainsAny(a, BatchPatterns)
  }

  /** `p` occurs in `s` whenever `q + p` does. */
  lemma ContainsTailOf(s: string, q: string, p: string)
    requires Contains(s, q + p)
    ensures Contains(s, p)
  {
    var i :| OccursAt(s, q + p, i);
    assert s[i + |q|..i + |q| + |p|] == (q + p)[|q|..];
    assert OccursAt(s, p, i + |q|);
  }

  lemma SingleImpliesBatch(a: string)
    requires ContainsAny(a, SinglePatterns)
    ensures IsPlaceholderAnswer(a)
  {
    var k :| 0 <= k < |SinglePatterns| && Contains(a, SinglePatterns[k]);
    var j := if k == 0 then 0 else k - 1;
    if k == 0 {
      assert SinglePatterns[0] == "1" + BatchPatterns[0];
      ContainsTailOf(a, "1", BatchPatterns[0]);
    } else {
      assert BatchPatterns[k - 1] == SinglePatterns[k];
    }
    assert Contains(a, BatchPatterns[j]);
    var i :| OccursAt(a, BatchPatterns[j], i);
    assert BatchPatterns[j] != [];
  }

  lemma BatchImpliesSingle(a: string)
    requires IsPlaceholderAnswer(a)
    ensures ContainsAny(a, SinglePatterns)
  {
    var k :| 0 <= k < |BatchPatterns| && Contains(a, BatchPatterns[k]);
    assert SinglePatterns[k + 1] == BatchPatterns[k];
  }

  /**
   * The two tests agree: an answer carries one of the five markers of
   * `update_single_dataset` exactly when `is_placeholder_answer` holds,
   * and the crawler's placeholder is one.
   */
  lemma SelectionsAgree(a: string)
    ensures ContainsAny(a, SinglePatterns) <==> IsPlaceholderAnswer(a)
    ensures IsPlaceholderAnswer(Placeholder)
  {
    if ContainsAny(a, SinglePatterns) {
      SingleImpliesBatch(a);
    }
    if IsPlaceholderAnswer(a) {
      BatchImpliesSingle(a);
    }
    assert OccursAt(Placeholder, BatchPatterns[0], 1);
  }

  // --------------------------------------------- extraction from the marker

  /** `patterns_to_remove`, each anchored with `$`. */
  const SuffixPatterns: seq<string> := ["查看色弱滤镜", "1查看色弱滤镜", "placeholder", "待识别", "未识别"]

  predicate EndsWith(s: string, p: string) {
    |p| <= |s| && s[|s| - |p|..] == p
  }

  /**
   * `re.sub(p + '$', '', s)` for a pattern without a newline: `$` matches
   * at the end and just before a final newline, and there is at most one
   * match.
   */
  function SubSuffix(s: string, p: string): (r: string)
    ensures |r| <= |s|
    ensures !EndsWith(s, p) && !(s != [] && s[|s| - 1] == '\n') ==> r == s
  {
    if EndsWith(s, p) then s[..|s| - |p|]
    else if s != [] && s[|s| - 1] == '\n' && EndsWith(s[..|s| - 1], p) then s[..|s| - 1 - |p|] + "\n"
    else s
  }

  /** `cleaned` after the first `k` patterns. */
  function Stage(s: string, k: nat): (c: string)
    requires k <= |SuffixPatterns|
    ensures |c| <= |s|
    ensures k > 0 ==> IsStripped(c)
  {
    if k == 0 then s else Strip(SubSuffix(Stage(s, k - 1), SuffixPatterns[k - 1]))
  }

  /** The `for pattern in patterns_to_remove` loop. */
  method RemoveSuffixes(s: string) returns (cleaned: string)
    ensures cleaned == Stage(s, |SuffixPatterns|)
  {
    cleaned := s;
    for k := 0 to |SuffixPatterns|
      invariant cleaned == Stage(s, k)
    {
      cleaned := Strip(SubSuffix(cleaned, SuffixPatterns[k]));
    }
  }

  /** `extract_answer_from_placeholder` as evidently intended, with `re` imported. */
  function ExtractFromPlaceholder(s: string): string {
    if s == [] then []
    else
      var c := Stage(s, |SuffixPatterns|);
      if c != [] && c != s then c else []
  }

  method ExtractAnswerFromPlaceholder(s: string) returns (r: string)
    ensures r == ExtractFromPlaceholder(s)
  {
    if s == [] {
      return [];
    }
    var cleaned := RemoveSuffixes(s);
    if cleaned != [] && cleaned != s {
      return cleaned;
    }
    return [];
  }

  /**
   * The result is `""` or a stripped, non-empty text no longer than the
   * argument and different from it; `""` gives `""`.
   */
  lemma ExtractShape(s: string)
    ensures s == [] ==> ExtractFromPlaceholder(s) == []
    ensures ExtractFromPlaceholder(s) != [] ==>
      ExtractFromPlaceholder(s) != s && IsStripped(ExtractFromPlaceholder(s)) && |ExtractFromPlaceholder(s)| <= |s|
  {
  }

  /** The marker-free tail of the pattern list leaves a marker-free stripped text alone. */
  lemma {:induction false} StagesKeep(s: string, x: string, k: nat)
    requires 1 <= k <= |SuffixPatterns|
    requires x != [] && IsStripped(x) && forall p | p in SuffixPatterns :: !EndsWith(x, p)
    requires Stage(s, 1) == x
    ensures Stage(s, k) == x
  {
    if k > 1 {
      StagesKeep(s, x, k - 1);
      var p := SuffixPatterns[k - 1];
      assert p in SuffixPatterns;
      assert !IsSpace(x[|x| - 1]);
      assert SubSuffix(x, p) == x;
      StripStripped(x);
    }
  }

  /** A stripped answer that ends with no marker carries nothing to extract. */
  lemma PlainGivesNothing(x: string)
    requires IsStripped(x) && forall p | p in SuffixPatterns :: !EndsWith(x, p)
    ensures ExtractFromPlaceholder(x) == []
  {
    if x != [] {
      assert SuffixPatterns[0] in SuffixPatterns;
      StripStripped(x);
      StagesKeep(x, x, |SuffixPatterns|);
    }
  }

  /** The text before a trailing `查看色弱滤镜` is recovered when it is stripped and ends with no marker. */
  lemma ExtractRecoversPrefix(x: string)
    requires x != [] && IsStripped(x) && forall p | p in SuffixPatterns :: !EndsWith(x, p)
    ensures ExtractFromPlaceholder(x + SuffixPatterns[0]) == x
  {
    var s := x + SuffixPatterns[0];
    assert EndsWith(s, SuffixPatterns[0]) && s[..|s| - |SuffixPatterns[0]|] == x;
    assert SubSuffix(s, SuffixPatterns[0]) == x;
    StripStripped(x);
    assert Stage(s, 1) == x;
    StagesKeep(s, x, |SuffixPatterns|);
    assert |s| > |x|;
  }

  lemma PatternsLong()
    ensures forall p | p in SuffixPatterns :: |p| >= 3
  {
  }

  /** The crawler's placeholder itself yields `"1"`, too short to be used. */
  lemma PlaceholderYieldsOne()
    ensures ExtractFromPlaceholder(Placeholder) == "1"
  {
    assert Placeholder == "1" + SuffixPatterns[0];
    PatternsLong();
    assert !IsSpace('1');
    ExtractRecoversPrefix("1");
  }

  // ----------------------------------------------------- as written

  /** `extract_answer_from_placeholder` as written: `re` is never imported, so any non-empty argument raises. */
  function ExtractAsWritten(s: string): (r: Result<string>)
    ensures r.Err? <==> s != []
  {
    if s == [] then Ok([]) else Err(NameError("re"))
  }

  /** The first loop of `batch_update_answers`: `placeholder_items`, or the exception `extract` raises. */
  function Scan(rs: seq<Record>, extract: string -> Result<string>): Result<seq<(nat, string)>> {
    if rs == [] then Ok([])
    else
      var k := |rs| - 1;
      match Scan(rs[..k], extract)
      case Err(e) => Err(e)
      case Ok(items) =>
        if !IsPlaceholderAnswer(rs[k].answer) then Ok(items)
        else
          match extract(rs[k].answer)
          case Err(e) => Err(e)
          case Ok(x) => Ok(items + [(k, x)])
  }

  /** With the extraction as written the scan fails exactly when some answer is a placeholder, and otherwise finds nothing. */
  lemma {:induction false} ScanAsWrittenCases(rs: seq<Record>)
    ensures Scan(rs, ExtractAsWritten).Err? <==> exists i | 0 <= i < |rs| :: IsPlaceholderAnswer(rs[i].answer)
    ensures Scan(rs, ExtractAsWritten).Ok? ==> Scan(rs, ExtractAsWritten).value == []
  {
    if rs != [] {
      var k := |rs| - 1;
      ScanAsWrittenCases(rs[..k]);
      assert forall i | 0 <= i < k :: rs[..k][i] == rs[i];
    }
  }

  /**
   * One dataset of `batch_update_answers` as written: the exception is
   * caught by the handler around the dataset, which is then left as it
   * was; a dataset without placeholders is skipped.
   */
  function BatchDatasetAsWritten(rs: seq<Record>, ocr: seq<string>): (seq<Record>, bool)
    requires |ocr| == |rs|
  {
    match Scan(rs, ExtractAsWritten)
    case Err(_) => (rs, false)
    case Ok(items) => if items == [] then (rs, false) else (DatasetRevised(Batch, rs, ocr), true)
  }

  /** As written the batch mode never changes a record and never writes the file. */
  lemma AsWrittenNeverUpdates(rs: seq<Record>, ocr: seq<string>)
    requires |ocr| == |rs|
    ensures BatchDatasetAsWritten(rs, ocr) == (rs, false)
  {
    ScanAsWrittenCases(rs);
  }

  // ---------------------------------------------------- the update loops

  /** `batch_update_answers` (one dataset) or `update_single_dataset`. */
  datatype Mode = Batch | Single

  /** The records the first loop puts in `placeholder_items`. */
  predicate Selected(mode: Mode, r: Record) {
    match mode
    case Batch => IsPlaceholderAnswer(r.answer)
    case Single => ContainsAny(r.answer, SinglePatterns)
  }

  /** `for pattern in placeholder_patterns: clean_answer = clean_answer.replace(pattern, '').strip()`. */
  function CleanedOcr(s: string, ps: seq<string>): (c: string)
    ensures ps != [] ==> IsStripped(c)
  {
    if ps == [] then s else Strip(Replace(CleanedOcr(s, ps[..|ps| - 1]), ps[|ps| - 1], []))
  }

  /** A stripped text without any of the markers comes out of the cleaning loop unchanged. */
  lemma {:induction false} CleanedOcrKeeps(s: string, ps: seq<string>)
    requires IsStripped(s)
    requires forall k | 0 <= k < |ps| :: ps[k] != [] && !Contains(s, ps[k])
    ensures CleanedOcr(s, ps) == s
  {
    if ps != [] {
      var k := |ps| - 1;
      CleanedOcrKeeps(s, ps[..k]);
      ReplaceAbsent(s, ps[k], []);
      StripStripped(s);
    }
  }

  /** `if answer and answer != current_answer` and then `if clean_answer`: the answer the OCR path assigns. */
  function OcrAssigned(current: string, ocr: string, ps: seq<string>): (a: Option<string>)
    ensures a.Some? ==> a.value != [] && IsStripped(a.value) && ocr != [] && ocr != current
  {
    if ps != [] && ocr != [] && ocr != current && CleanedOcr(ocr, ps) != [] then Some(CleanedOcr(ocr, ps)) else None
  }

  /** The answer the second loop writes into `data[i]['answer']`, if any; `ocr` is what `process_single_image` returns. */
  function Assigned(mode: Mode, r: Record, ocr: string): (a: Option<string>)
    ensures a.Some? ==> Selected(mode, r) && a.value != []
  {
    if !Selected(mode, r) then None
    else match mode
      case Batch =>
        var x := ExtractFromPlaceholder(r.answer);
        if |x| > 1 then Some(x)
        else if r.url == [] then None
        else OcrAssigned(r.answer, ocr, BatchPatterns)
      case Single =>
        if r.url == [] then None else OcrAssigned(r.answer, ocr, SinglePatterns)
  }

  function Revised(mode: Mode, r: Record, ocr: string): Record {
    match Assigned(mode, r, ocr)
    case Some(a) => r.(answer := a)
    case None => r
  }

  /** Every record after the loop. */
  function DatasetRevised(mode: Mode, rs: seq<Record>, ocr: seq<string>): (data: seq<Record>)
    requires |ocr| == |rs|
    ensures |data| == |rs| && forall i | 0 <= i < |rs| :: data[i] == Revised(mode, rs[i], ocr[i])
  {
    seq(|rs|, i requires 0 <= i < |rs| => Revised(mode, rs[i], ocr[i]))
  }

  /**
   * What an assignment can be: only a selected record, only its answer,
   * only to a non-empty text; in batch mode the text recovered from the
   * marker when it is longer than one character, else (with a URL) the
   * cleaned OCR answer; in single mode (with a URL) the cleaned OCR answer.
   */
  lemma AssignedCases(mode: Mode, r: Record, ocr: string)
    ensures Revised(mode, r, ocr).filename == r.filename && Revised(mode, r, ocr).url == r.url
    ensures Revised(mode, r, ocr) != r ==> Selected(mode, r) && Revised(mode, r, ocr).answer != []
    ensures mode == Batch && Selected(mode, r) && |ExtractFromPlaceholder(r.answer)| > 1 ==>
      Revised(mode, r, ocr).answer == ExtractFromPlaceholder(r.answer)
    ensures mode == Batch && Selected(mode, r) && |ExtractFromPlaceholder(r.answer)| <= 1 ==>
      Assigned(mode, r, ocr) == (if r.url == [] then None else OcrAssigned(r.answer, ocr, BatchPatterns))
    ensures mode == Single && Selected(mode, r) ==>
      Assigned(mode, r, ocr) == (if r.url == [] then None else OcrAssigned(r.answer, ocr, SinglePatterns))
  {
  }

  /**
   * The intended batch mode assigns the text in front of a trailing
   * `查看色弱滤镜` when it is longer than one character, stripped and
   * ends with no marker: `骆驼查看色弱滤镜` becomes `骆驼`.
   */
  lemma BatchRecoversPrefix(x: string, f: string, u: string, o: string)
    requires |x| > 1 && IsStripped(x) && forall p | p in SuffixPatterns :: !EndsWith(x, p)
    ensures Revised(Batch, Record(f, u, x + SuffixPatterns[0]), o).answer == x
  {
    var a := x + SuffixPatterns[0];
    ExtractRecoversPrefix(x);
    assert a[|x|..|x| + |BatchPatterns[0]|] == BatchPatterns[0];
    assert OccursAt(a, BatchPatterns[0], |x|);
    assert Contains(a, BatchPatterns[0]);
  }

  lemma CamelRecovered(f: string, u: string, o: string)
    ensures Revised(Batch, Record(f, u, "骆驼" + SuffixPatterns[0]), o).answer == "骆驼"
  {
    PatternsLong();
    assert !IsSpace('骆') && !IsSpace('驼');
    BatchRecoversPrefix("骆驼", f, u, o);
  }

  /** `Selected` and `Assigned` of one mode as values, for the counting below. */
  function SelectFor(mode: Mode): Record -> bool {
    r => Selected(mode, r)
  }

  function AssignFor(mode: Mode): (Record, string) -> Option<string> {
    (r, o) => Assigned(mode, r, o)
  }

  lemma AssignForSelects(mode: Mode)
    ensures forall r, o :: AssignFor(mode)(r, o).Some? ==> SelectFor(mode)(r)
  {
  }

  /** The first loop, `for i, entry in enumerate(data)`. */
  method CollectPlaceholders(mode: Mode, rs: seq<Record>) returns (items: seq<nat>)
    ensures items == Indices(SelectFor(mode), rs)
  {
    items := [];
    for i := 0 to |rs|
      invariant items == Indices(SelectFor(mode), rs[..i])
    {
      assert rs[..i + 1][..i] == rs[..i];
      var answer := rs[i].answer;
      var selected: bool;
      if mode == Batch {
        selected := IsPlaceholderAnswer(answer);
      } else {
        selected := ContainsAny(answer, SinglePatterns);
      }
      if selected {
        items := items + [i];
      }
    }
    assert rs[..|rs|] == rs;
  }

  /** The replace loop over `placeholder_patterns`. */
  method CleanOcrAnswer(s: string, ps: seq<string>) returns (c: string)
    ensures c == CleanedOcr(s, ps)
  {
    c := s;
    for k := 0 to |ps|
      invariant c == CleanedOcr(s, ps[..k])
    {
      assert ps[..k + 1][..k] == ps[..k];
      c := Strip(Replace(c, ps[k], []));
    }
    assert ps[..|ps|] == ps;
  }

  /** The body of the second loop for one selected record. */
  method AssignAnswer(mode: Mode, r: Record, ocr: string) returns (a: Option<string>)
    requires Selected(mode, r)
    ensures a == Assigned(mode, r, ocr)
  {
    var ps := SinglePatterns;
    if mode == Batch {
      var x := ExtractAnswerFromPlaceholder(r.answer);
      if x != [] && |x| > 1 {
        return Some(x);
      }
      ps := BatchPatterns;
    }
    if r.url == [] {
      return None;
    }
    if ocr != [] && ocr != r.answer {
      var clean := CleanOcrAnswer(ocr, ps);
      if clean != [] {
        return Some(clean);
      }
    }
    return None;
  }

  /** The second loop, `for idx, (i, entry, ...) in enumerate(placeholder_items)`. */
  method ApplyAssignments(mode: Mode, rs: seq<Record>, ocr: seq<string>, items: seq<nat>)
    returns (data: seq<Record>, updated: nat)
    requires |ocr| == |rs|
    requires forall m | 0 <= m < |items| :: items[m] < |rs| && Selected(mode, rs[items[m]])
    requires forall m, n | 0 <= m < n < |items| :: items[m] < items[n]
    ensures |data| == |rs|
    ensures forall j | 0 <= j < |rs| :: data[j] == if j in items then Revised(mode, rs[j], ocr[j]) else rs[j]
    ensures updated == AssignedAmong(AssignFor(mode), rs, ocr, items)
  {
    data := rs;
    updated := 0;
    for k := 0 to |items|
      invariant |data| == |rs|
      invariant forall j | 0 <= j < |rs| :: data[j] == if j in items[..k] then Revised(mode, rs[j], ocr[j]) else rs[j]
      invariant updated == AssignedAmong(AssignFor(mode), rs, ocr, items[..k])
    {
      assert items[..k + 1][..k] == items[..k];
      var i := items[k];
      assert i !in items[..k];
      assert forall j :: j in items[..k + 1] <==> j in items[..k] || j == i;
      ghost var before := data;
      var a := AssignAnswer(mode, rs[i], ocr[i]);
      assert a == AssignFor(mode)(rs[i], ocr[i]);
      if a.Some? {
        data := data[i := rs[i].(answer := a.value)];
        updated := updated + 1;
      }
      assert data == before[i := Revised(mode, rs[i], ocr[i])];
    }
    assert items[..|items|] == items;
  }

  /**
   * One dataset: `data` is the list after the loop, `updated` is
   * `updated_count` and `saved` says whether the file is rewritten, which
   * (`CountAssignedPositive`) happens exactly when some record got an answer.
   */
  method UpdateDataset(mode: Mode, rs: seq<Record>, ocr: seq<string>) returns (data: seq<Record>, updated: nat, saved: bool)
    requires |ocr| == |rs|
    ensures data == DatasetRevised(mode, rs, ocr)
    ensures updated == CountAssigned(AssignFor(mode), rs, ocr) <= |Indices(SelectFor(mode), rs)|
    ensures saved <==> updated > 0
  {
    var items := CollectPlaceholders(mode, rs);
    AssignForSelects(mode);
    AssignedAmongIndices(SelectFor(mode), AssignFor(mode), rs, ocr);
    CountAssignedBound(SelectFor(mode), AssignFor(mode), rs, ocr);
    if items == [] {
      forall j | 0 <= j < |rs| ensures DatasetRevised(mode, rs, ocr)[j] == rs[j] {
        assert !SelectFor(mode)(rs[j]);
      }
      return rs, 0, false;
    }
    data, updated := ApplyAssignments(mode, rs, ocr, items);
    forall j | 0 <= j < |rs| ensures data[j] == Revised(mode, rs[j], ocr[j]) {
      if j !in items {
        assert !SelectFor(mode)(rs[j]);
      }
    }
    saved := updated > 0;
  }
}
