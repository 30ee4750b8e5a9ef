/**
 * The PaddleOCR answer tool: a smaller region table, the same cleaner,
 * known answers weighted 2 and every other category weighted 1, and a
 * selector that prefers the best-ranked known answer.
 */
module PaddleOcr {
  import opened Wrappers
  import opened Text
  import opened Scan
  import opened Cleaning
  import opened Sorting
  import opened Candidates
  import opened Regions

  /** `self.known_answers`, in the order the set literal lists them; the repeated `壶` is a set element once. */
  const Animals: seq<string> := [
    "熊猫", "兔子", "老虎", "狼", "骆驼", "马", "牛", "羊", "金鱼", "蝴蝶", "蜻蜓", "鹅", "燕子",
    "大熊猫", "壶", "鸡", "鸭", "猪", "狗", "猫", "鸟"]
  const Objects: seq<string> := [
    "手枪", "冲锋枪", "军舰", "卡车", "摩托车", "拖拉机", "剪刀", "高射炮",
    "飞机", "坦克", "大炮", "轮船", "火车", "汽车", "自行车"]
  const Shapes: seq<string> := ["五角星", "三角形", "圆形", "正方形", "△", "○", "□", "两颗星星", "星星"]
  const Descriptions: seq<string> := [
    "单色图-红色", "单色图-黄色", "单色图-蓝色", "单色图-绿色", "单色图-紫色", "单色图", "两颗"]
  const Words: seq<string> := ["洪水", "人", "和", "了", "的", "在", "是", "有", "不", "这", "那"]
  const KnownAnswers: seq<string> := Animals + Objects + Shapes + Descriptions + Words

  /** `clean_text`, identical to the EasyOCR cleaner. */
  const PaddleClean := CleanConfig(SerialPrefixes, false)

  /** The five rectangles of `preprocess_image_for_ocr`. */
  function RegionTable(w: nat, h: nat): seq<Region> {
    [ Region("left_bottom", 0, At(h, 75), At(w, 30), h),
      Region("left_bottom_large", 0, At(h, 70), At(w, 40), h),
      Region("right_bottom", At(w, 70), At(h, 75), w, h),
      Region("center_bottom", At(w, 30), At(h, 80), At(w, 70), h),
      Region("full_bottom", 0, At(h, 85), w, h) ]
  }

  lemma RegionTableWithin(w: nat, h: nat)
    ensures |RegionTable(w, h)| == 5
    ensures forall r | r in RegionTable(w, h) :: Within(r, w, h)
  {
    var t := RegionTable(w, h);
    forall i | 0 <= i < |t| ensures Within(t[i], w, h) {
      AtBounded(w, 30); AtBounded(w, 40); AtBounded(w, 70);
      AtBounded(h, 70); AtBounded(h, 75); AtBounded(h, 80); AtBounded(h, 85);
      AtMonotone(w, 30, 70);
    }
  }

  /** `preprocess_image_for_ocr` on a readable image: the non-empty crops, in table order. */
  method PreprocessRegions(w: nat, h: nat) returns (regions: seq<Region>)
    ensures regions == KeepNonEmpty(RegionTable(w, h))
    ensures forall r | r in regions :: Within(r, w, h) && NonEmpty(r)
  {
    RegionTableWithin(w, h);
    regions := CropRegions(RegionTable(w, h));
  }

  predicate IsSymbol(c: char) {
    c == '△' || c == '○' || c == '□' || c == '/' || c == '-'
  }

  /** The categories of one observation: known answers (weight 2), `\b\d{2,4}\b`, `\b[A-Z]{2,6}\b`, CJK runs, symbol runs (weight 1). */
  function Categories(o: Observation): seq<seq<Hit>> {
    [ Scored(Filter(KnownAnswers, k => Contains(o.text, k)), 0, 2.0, o, false),
      Scored(WholeWords(o.text, IsDigit, 2, 4), 0, 1.0, o, false),
      Scored(WholeWords(o.text, IsAsciiUpper, 2, 6), 0, 1.0, o, false),
      Scored(Chunks(o.text, IsCjk, 1, 4), 1, 1.0, o, false),
      Scored(Chunks(o.text, IsSymbol, 1, 5), 0, 1.0, o, false) ]
  }

  function LineHits(o: Observation): seq<Hit> {
    if Cleaned(o.text, PaddleClean) == [] then [] else Concat(Categories(o))
  }

  function AllHits(obs: seq<Observation>): seq<Hit> {
    if obs == [] then [] else AllHits(obs[..|obs| - 1]) + LineHits(obs[|obs| - 1])
  }

  lemma AllHitsNext(obs: seq<Observation>, i: nat)
    requires i < |obs|
    ensures AllHits(obs[..i + 1]) == AllHits(obs[..i]) + LineHits(obs[i])
  {
    assert obs[..i + 1][..i] == obs[..i];
  }

  /** `extract_answer_candidates`. */
  method ExtractCandidates(obs: seq<Observation>) returns (t: Table)
    ensures t == Build(AllHits(obs))
  {
    t := EmptyTable;
    for i := 0 to |obs|
      invariant t == Build(AllHits(obs[..i]))
    {
      AllHitsNext(obs, i);
      var o := obs[i];
      var cleaned := CleanText(o.text, PaddleClean);
      if cleaned == [] {
        assert AllHits(obs[..i]) + LineHits(o) == AllHits(obs[..i]);
        continue;
      }
      t := AddCategories(t, Categories(o), AllHits(obs[..i]));
    }
    assert obs[..|obs|] == obs;
  }

  /**
   * The weights of this tool: a known answer scores twice the confidence,
   * every other hit the confidence itself; numbers have 2 to 4 digits; no
   * hit is a content hit; every hit carries its observation's region.
   */
  predicate Weighted(h: Hit, o: Observation) {
    h.source == Source(o.region, false, o.confidence)
    && ((h.score == o.confidence * 2.0 && h.key in KnownAnswers) || h.score == o.confidence * 1.0)
    && (AllDigits(h.key) && h.key !in KnownAnswers ==> 2 <= |h.key| <= 4)
  }

  lemma AnimalsNotDigit() ensures NoDigitStart(Animals) {}
  lemma ObjectsNotDigit() ensures NoDigitStart(Objects) {}
  lemma ShapesNotDigit() ensures NoDigitStart(Shapes) {}
  lemma DescriptionsNotDigit() ensures NoDigitStart(Descriptions) {}
  lemma WordsNotDigit() ensures NoDigitStart(Words) {}

  /** No known answer starts with a digit. */
  lemma KnownNotDigit()
    ensures NoDigitStart(KnownAnswers)
  {
    AnimalsNotDigit();
    ObjectsNotDigit();
    ShapesNotDigit();
    DescriptionsNotDigit();
    WordsNotDigit();
  }

  lemma NotDigits(ws: seq<string>, p: char -> bool, minLen: nat, o: Observation)
    requires forall i | 0 <= i < |ws| :: All(ws[i], p) && ws[i] != []
    requires forall c :: p(c) ==> !IsDigit(c)
    ensures forall h | h in Scored(ws, minLen, 1.0, o, false) :: !AllDigits(h.key)
  {
    forall h | h in Scored(ws, minLen, 1.0, o, false) ensures !AllDigits(h.key) {
      var i :| 0 <= i < |ws| && ws[i] == h.key;
      assert p(h.key[0]);
    }
  }

  lemma CategoryWeighted(o: Observation, j: nat)
    requires j < |Categories(o)|
    ensures forall h | h in Categories(o)[j] :: Weighted(h, o)
  {
    match j
    case 0 => KnownNotDigit();
    case 1 =>
    case 2 => NotDigits(WholeWords(o.text, IsAsciiUpper, 2, 6), IsAsciiUpper, 0, o);
    case 3 => NotDigits(Chunks(o.text, IsCjk, 1, 4), IsCjk, 1, o);
    case 4 => NotDigits(Chunks(o.text, IsSymbol, 1, 5), IsSymbol, 0, o);
  }

  lemma LineHitsWeighted(o: Observation)
    ensures forall h | h in LineHits(o) :: Weighted(h, o)
    ensures Cleaned(o.text, PaddleClean) == [] ==> LineHits(o) == []
  {
    forall h | h in LineHits(o) ensures Weighted(h, o) {
      ConcatMember(Categories(o), h);
      var j :| 0 <= j < |Categories(o)| && h in Categories(o)[j];
      CategoryWeighted(o, j);
    }
  }

  /**
   * The table built from a list of observations is a dictionary with one
   * source per hit; every hit comes from one of the observations with
   * this tool's weights.
   */
  lemma {:induction false} AllHitsWeighted(obs: seq<Observation>)
    ensures WellFormed(Build(AllHits(obs)))
    ensures forall h | h in AllHits(obs) :: exists i | 0 <= i < |obs| :: Weighted(h, obs[i])
  {
    BuildTally(AllHits(obs));
    if obs != [] {
      var p := obs[..|obs| - 1];
      var last := obs[|obs| - 1];
      AllHitsWeighted(p);
      LineHitsWeighted(last);
      WeightedAppend(AllHits(p), LineHits(last), p, obs);
    }
  }

  lemma WeightedAppend(hp: seq<Hit>, ho: seq<Hit>, p: seq<Observation>, obs: seq<Observation>)
    requires obs != [] && p == obs[..|obs| - 1]
    requires forall h | h in hp :: exists i | 0 <= i < |p| :: Weighted(h, p[i])
    requires forall h | h in ho :: Weighted(h, obs[|obs| - 1])
    ensures forall h | h in hp + ho :: exists i | 0 <= i < |obs| :: Weighted(h, obs[i])
  {
    forall h | h in hp + ho ensures exists i | 0 <= i < |obs| :: Weighted(h, obs[i]) {
      if h in hp {
        var i :| 0 <= i < |p| && Weighted(h, p[i]);
        assert obs[i] == p[i];
      } else {
        assert Weighted(h, obs[|obs| - 1]);
      }
    }
  }

  // -------------------------------------------------------------- selector

  const KnownPick: Entry -> bool := (e: Entry) => e.key in KnownAnswers

  /** The answer `select_best_answer` returns. */
  function Selected(t: Table): string
    requires WellFormed(t)
  {
    if t.keys == [] then []
    else
      var scored := Sort(Entries(t), HigherRank);
      var i := FirstIndex(scored, KnownPick);
      if i < |scored| then scored[i].key else scored[0].key
  }

  /** `select_best_answer`: the sorted scan for a known answer, else the top candidate. */
  method SelectBestAnswer(t: Table) returns (r: string)
    requires WellFormed(t)
    ensures r == Selected(t)
  {
    if t.keys == [] {
      return [];
    }
    var entries := EntryList(t);
    var scored := Sort(entries, HigherRank);
    var i := FindFirst(scored, KnownPick);
    if i < |scored| {
      return scored[i].key;
    }
    return scored[0].key;
  }

  /**
   * An empty table gives `""`; a non-empty one gives `""` only when the
   * empty string is itself one of its candidates. For a non-empty table
   * the answer is the top-ranked known answer when the table holds one,
   * whatever its confidence, and the top-ranked candidate when not.
   */
  lemma SelectedStages(t: Table)
    requires WellFormed(t)
    ensures Selected(t) == [] ==> t.stats == map[] || [] in t.stats
    ensures t.stats == map[] ==> Selected(t) == []
    ensures t.stats != map[] ==>
      if AnyAmong(t, Everything, KnownPick) then TopAmong(t, Selected(t), Everything, KnownPick)
      else TopAmong(t, Selected(t), Everything, Everything)
  {
    if t.keys == [] {
      assert t.stats == map[];
    } else {
      var scored := Sort(Entries(t), HigherRank);
      StrictOrderHigherRank();
      SortSorted(Entries(t), HigherRank);
      FilterKeepsAll(scored, Everything);
      StageOutcome(t, scored, Everything, KnownPick);
      StageOutcome(t, scored, Everything, Everything);
      FirstIndexAt(scored, Everything, 0);
      assert t.keys[0] in t.stats;
    }
  }
  // ----------------------------------------------------------------- lines

  /**
   * One line of `result[0]` from `ocr`: its text, and its confidence when
   * `line[1]` is a tuple that carries one.
   */
  datatype Line = Line(text: string, score: Option<real>, region: string)

  /** `text and text.strip()`. */
  predicate Passes(l: Line) {
    Strip(l.text) != []
  }

  /** The `all_results` entry a passing line becomes: its text stripped, confidence 1.0 when absent. */
  function Observe(l: Line): Observation {
    Observation(Strip(l.text), if l.score.Some? then l.score.value else 1.0, l.region)
  }

  /** `ocr_results` of `extract_text_with_paddleocr`: the non-blank lines, stripped, in call order. */
  function Observed(raw: seq<Line>): (obs: seq<Observation>)
    ensures |obs| <= |raw|
    ensures forall k | 0 <= k < |obs| :: obs[k].text != [] && IsStripped(obs[k].text)
  {
    if raw == [] then []
    else
      var l := raw[|raw| - 1];
      Observed(raw[..|raw| - 1]) + (if Passes(l) then [Observe(l)] else [])
  }

  /** Every line observed, one for one. */
  function ObserveAll(ls: seq<Line>): (obs: seq<Observation>)
    ensures |obs| == |ls| && forall k | 0 <= k < |ls| :: obs[k] == Observe(ls[k])
  {
    seq(|ls|, k requires 0 <= k < |ls| => Observe(ls[k]))
  }

  lemma ObserveAllSnoc(ls: seq<Line>, l: Line)
    ensures ObserveAll(ls + [l]) == ObserveAll(ls) + [Observe(l)]
  {
    var a, b := ObserveAll(ls + [l]), ObserveAll(ls) + [Observe(l)];
    assert |a| == |b|;
    forall k | 0 <= k < |a|
      ensures a[k] == b[k]
    {
      if k < |ls| {
        assert (ls + [l])[k] == ls[k];
      }
    }
  }

  /** The observations are exactly the non-blank lines, in order, each stripped. */
  lemma {:induction false} ObservedFilter(raw: seq<Line>)
    ensures Observed(raw) == ObserveAll(Filter(raw, Passes))
  {
    if raw != [] {
      var q := raw[..|raw| - 1];
      ObservedFilter(q);
      var f := Filter(q, Passes);
      if Passes(raw[|raw| - 1]) {
        assert Filter(raw, Passes) == f + [raw[|raw| - 1]];
        ObserveAllSnoc(f, raw[|raw| - 1]);
      } else {
        assert Filter(raw, Passes) == f;
      }
    }
  }

  /** The line loop over the regions' `ocr` results, in call order. */
  method ExtractTextWithPaddleOcr(raw: seq<Line>) returns (obs: seq<Observation>)
    ensures obs == Observed(raw)
  {
    obs := [];
    for i := 0 to |raw|
      invariant obs == Observed(raw[..i])
    {
      assert raw[..i + 1][..i] == raw[..i];
      var text := Strip(raw[i].text);
      if text != [] {
        var confidence := if raw[i].score.Some? then raw[i].score.value else 1.0;
        obs := obs + [Observation(text, confidence, raw[i].region)];
      }
    }
    assert raw[..|raw|] == raw;
  }

  /** A line without a confidence counts as fully confident. */
  lemma UnscoredConfident(raw: seq<Line>, k: nat)
    requires k < |raw| && Passes(raw[k]) && raw[k].score.None?
    ensures Observation(Strip(raw[k].text), 1.0, raw[k].region) in Observed(raw)
  {
    ObservedFilter(raw);
    var f := Filter(raw, Passes);
    assert raw[k] in f;
    var j :| 0 <= j < |f| && f[j] == raw[k];
    assert ObserveAll(f)[j] == Observe(raw[k]);
  }

  // ------------------------------------------------------------- pipeline

  /** The answer for one image whose readings are `obs`: `""` without readings or candidates. */
  function ImageAnswer(obs: seq<Observation>): string {
    AllHitsWeighted(obs);
    var t := Build(AllHits(obs));
    if obs == [] || t.keys == [] then [] else Selected(t)
  }

  /**
   * `process_single_image` after the recognizer has produced the lines `raw`:
   * they are filtered into `ocr_results`, which give `""` when empty or
   * without candidates, and otherwise a candidate of the table.
   */
  method ProcessSingleImage(raw: seq<Line>) returns (answer: string)
    ensures answer == ImageAnswer(Observed(raw))
    ensures answer == [] || answer in Build(AllHits(Observed(raw))).stats
  {
    var obs := ExtractTextWithPaddleOcr(raw);
    if obs == [] {
      return [];
    }
    var t := ExtractCandidates(obs);
    AllHitsWeighted(obs);
    if t.keys == [] {
      return [];
    }
    SelectedStages(t);
    answer := SelectBestAnswer(t);
  }
}
