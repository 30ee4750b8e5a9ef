/**
 * The clean-answer extractor: every pattern's matches in the reading,
 * then the leftmost match of the first priority group that matches, else
 * the longest match; and the hand-made table of answers it applies to the
 * placeholder records.
 */
module CleanAnswers {
  import opened Text
  import opened Scan
  import opened Sorting
  import opened Records
  import opened Wrappers

  const Animals: seq<string> := ["熊猫", "兔子", "老虎", "狼", "骆驼", "马", "牛", "羊", "金鱼", "蝴蝶", "蜻蜓", "鹅", "燕子"]
  const Objects: seq<string> := ["手枪", "冲锋枪", "军舰", "卡车", "摩托车", "拖拉机", "剪刀", "壶"]
  const ShapeWords: seq<string> := ["五角星", "三角形", "圆形", "正方形"]
  /** `(五角星|三角形|圆形|正方形|△|○|□)`. */
  const Shapes: seq<string> := ShapeWords + ["△", "○", "□"]
  const Terms: seq<string> := ["单色图", "两颗", "星星", "红色", "黄色", "蓝色", "绿色", "紫色"]

  lemma AlternativesNonEmpty()
    ensures forall a | a in Animals :: a != []
    ensures forall a | a in Objects :: a != []
    ensures forall a | a in Shapes :: a != []
    ensures forall a | a in ShapeWords :: a != []
    ensures forall a | a in Terms :: a != []
  {
  }

  /** The six `findall` passes of `extract_answer_from_text`, in pattern order. */
  function Passes(text: string): seq<seq<string>> {
    AlternativesNonEmpty();
    [AltFindAll(text, Animals), AltFindAll(text, Objects), AltFindAll(text, Shapes),
     Chunks(text, IsDigit, 1, 4), Chunks(text, IsAsciiUpper, 2, 6), AltFindAll(text, Terms)]
  }

  /** `candidates`: the matches of all passes, one pass after the other. */
  function Candidates(text: string): seq<string> {
    Concat(Passes(text))
  }

  /** The priority groups, in the order they are tried. */
  function PriorityGroups(): seq<seq<string>> {
    [Animals, Objects, ShapeWords]
  }

  /** The matches of priority group `g` in `text`. */
  function PriorityMatches(text: string, g: nat): seq<string>
    requires g < 3
  {
    AlternativesNonEmpty();
    AltFindAll(text, PriorityGroups()[g])
  }

  /** The first priority group with a match, or 3 when none has one. */
  function FirstPriority(text: string): (g: nat)
    ensures g <= 3
    ensures forall h | 0 <= h < g :: PriorityMatches(text, h) == []
    ensures g < 3 ==> PriorityMatches(text, g) != []
  {
    if PriorityMatches(text, 0) != [] then 0
    else if PriorityMatches(text, 1) != [] then 1
    else if PriorityMatches(text, 2) != [] then 2
    else 3
  }

  /** The answer `extract_answer_from_text` returns. */
  function Extracted(text: string): string {
    var cs := Candidates(text);
    if text == [] || cs == [] then []
    else
      var g := FirstPriority(text);
      if g < 3 then PriorityMatches(text, g)[0] else Longest(cs)
  }

  /** The loop `for pattern in self.compiled_patterns: candidates.extend(pattern.findall(text))`. */
  method CollectCandidates(text: string) returns (candidates: seq<string>)
    ensures candidates == Candidates(text)
  {
    var passes := Passes(text);
    candidates := [];
    for i := 0 to |passes|
      invariant candidates == Concat(passes[..i])
    {
      assert passes[..i + 1][..i] == passes[..i];
      candidates := candidates + passes[i];
    }
    assert passes[..|passes|] == passes;
  }

  /** The loop over `priority_patterns`: the first match of the first group that has one. */
  method FindPriority(text: string) returns (g: nat, m: string)
    ensures g == FirstPriority(text)
    ensures g < 3 ==> m == PriorityMatches(text, g)[0]
  {
    g := 0;
    m := [];
    while g < 3
      invariant g <= 3
      invariant forall h | 0 <= h < g :: PriorityMatches(text, h) == []
    {
      var matches := PriorityMatches(text, g);
      if matches != [] {
        m := matches[0];
        return;
      }
      g := g + 1;
    }
  }

  /** `extract_answer_from_text`: the `extend` loop, the priority loop with early return, then `max(key=len)`. */
  method ExtractAnswer(text: string) returns (r: string)
    ensures r == Extracted(text)
  {
    if text == [] {
      return [];
    }
    var candidates := CollectCandidates(text);
    if candidates == [] {
      return [];
    }
    var g, m := FindPriority(text);
    if g < 3 {
      return m;
    }
    r := FindLongest(candidates);
  }

  /** Every candidate occurs in the text. */
  lemma CandidatesInText(text: string)
    ensures forall w | w in Candidates(text) :: InText(w, text)
  {
    var ps := Passes(text);
    PassesInText(text);
    forall w | w in Concat(ps) ensures InText(w, text) {
      ConcatMember(ps, w);
    }
  }

  lemma PassesInText(text: string)
    ensures forall j, w | 0 <= j < |Passes(text)| && w in Passes(text)[j] :: InText(w, text)
  {
    var ps := Passes(text);
    AltPassesInText(text);
    ChunksInText(ps[3], text);
    ChunksInText(ps[4], text);
    forall j, w | 0 <= j < |ps| && w in ps[j] ensures InText(w, text) {
      if j == 0 {} else if j == 1 {} else if j == 2 {} else if j == 3 {} else if j == 4 {} else {}
    }
  }

  lemma AltPassesInText(text: string)
    ensures forall w | w in AltFindAll(text, Animals) :: InText(w, text)
    ensures forall w | w in AltFindAll(text, Objects) :: InText(w, text)
    ensures forall w | w in AltFindAll(text, Shapes) :: InText(w, text)
    ensures forall w | w in AltFindAll(text, Terms) :: InText(w, text)
  {
    AlternativesNonEmpty();
    AltFindAllSound(text, Animals);
    AltFindAllSound(text, Objects);
    AltFindAllSound(text, Shapes);
    AltFindAllSound(text, Terms);
  }

  lemma ChunksInText(ws: seq<string>, text: string)
    requires forall k | 0 <= k < |ws| :: InText(ws[k], text)
    ensures forall w | w in ws :: InText(w, text)
  {
  }

  /**
   * Empty text and text matching no pattern give `""`. Otherwise the
   * answer is the match at the leftmost position of the first priority
   * group (animals, objects, shape words) that occurs anywhere, and
   * without one the longest candidate, the first of those on ties. A
   * non-empty answer always occurs in the text.
   */
  lemma ExtractedCases(text: string)
    ensures text == [] || Candidates(text) == [] ==> Extracted(text) == []
    ensures Extracted(text) == [] || InText(Extracted(text), text)
    ensures text != [] && Candidates(text) != [] && FirstPriority(text) < 3 ==>
      var alts := PriorityGroups()[FirstPriority(text)];
      Extracted(text) in alts
      && exists i | 0 <= i < |text| :: FirstAltAt(text, alts, i) == Some(Extracted(text)) && NoAltIn(text, alts, i)
    ensures text != [] && Candidates(text) != [] && FirstPriority(text) == 3 ==>
      (forall w | w in Candidates(text) :: |w| <= |Extracted(text)|)
      && exists i | 0 <= i < |Candidates(text)| :: Candidates(text)[i] == Extracted(text)
           && forall j | 0 <= j < i :: |Candidates(text)[j]| < |Extracted(text)|
  {
    CandidatesInText(text);
    AlternativesNonEmpty();
    var cs := Candidates(text);
    if text != [] && cs != [] {
      var g := FirstPriority(text);
      if g < 3 {
        AltFindAllSound(text, PriorityGroups()[g]);
        AltFindAllFirst(text, PriorityGroups()[g]);
      } else {
        LongestIsFirstMaximum(cs);
      }
    }
  }

  // ------------------------------------------------------- manual answers

  /** `manual_answers` of `process_ocr_results`. */
  const ManualAnswers: map<string, string> := map[
    "009.jpg" := "拖拉机", "029.jpg" := "骆驼", "033.jpg" := "老虎", "035.jpg" := "冲锋枪",
    "037.jpg" := "高射炮", "038.jpg" := "洪水", "039.jpg" := "卡车", "040.jpg" := "军舰",
    "047.jpg" := "手枪", "048.jpg" := "金鱼", "049.jpg" := "摩托车", "050.jpg" := "狼",
    "053.jpg" := "五角星", "055.jpg" := "骆驼"]

  lemma ManualAnswersNonEmpty()
    ensures forall f | f in ManualAnswers :: ManualAnswers[f] != []
  {
  }

  /** The answer the table has for `filename`, `""` when it has none. */
  function ManualAnswer(filename: string): string {
    if filename in ManualAnswers then ManualAnswers[filename] else []
  }

  /**
   * `process_ocr_results`: every placeholder record whose file is in the
   * table takes the table's answer and nothing else changes; the file is
   * written exactly when some record was updated.
   */
  method ApplyManualAnswers(rs: seq<Record>) returns (result: seq<Record>, updated: nat, saved: bool)
    ensures |result| == |rs|
    ensures forall i | 0 <= i < |rs| ::
      result[i] == if rs[i].answer == Placeholder && rs[i].filename in ManualAnswers
                   then rs[i].(answer := ManualAnswers[rs[i].filename]) else rs[i]
    ensures updated == CountUpdated(PlaceholderOnly, rs, seq(|rs|, i requires 0 <= i < |rs| => ManualAnswer(rs[i].filename)), seq(|rs|, i => true))
    ensures updated <= CountPlaceholders(rs)
    ensures saved <==> exists i | 0 <= i < |rs| :: rs[i].answer == Placeholder && rs[i].filename in ManualAnswers
  {
    var ocr := seq(|rs|, i requires 0 <= i < |rs| => ManualAnswer(rs[i].filename));
    var available := seq(|rs|, i => true);
    ManualAnswersNonEmpty();
    var pending;
    result, updated, pending, saved := UpdateAnswers(PlaceholderOnly, rs, ocr, available, true);
    UpdatedAtMostPending(PlaceholderOnly, rs, ocr, available);
    UpdatedPositive(PlaceholderOnly, rs, ocr, available);
  }
}
