/**
 * The smart tesseract extractor: keyword answers first, then the most
 * frequent (and then longest) number, then the most frequent (and then
 * longest) run of capitals.
 */
module SmartOcr {
  import opened Text
  import opened Scan
  import opened Sorting
  import opened Regions
  import opened Imaging
  import opened Counting
  import opened Keywords
  import opened Records

  /** `self.answer_keywords` in insertion order, split in two for the verifier. */
  const CreaturePatterns: seq<Pattern> := [
    Pattern("熊猫", ["熊猫", "panda"]),
    Pattern("兔子", ["兔子", "rabbit"]),
    Pattern("老虎", ["老虎", "tiger"]),
    Pattern("狼", ["狼", "wolf"]),
    Pattern("骆驼", ["骆驼", "camel"]),
    Pattern("马", ["马", "horse"]),
    Pattern("牛", ["牛", "cow", "bull"]),
    Pattern("羊", ["羊", "sheep"]),
    Pattern("金鱼", ["金鱼", "goldfish"]),
    Pattern("蝴蝶", ["蝴蝶", "butterfly"]),
    Pattern("蜻蜓", ["蜻蜓", "dragonfly"]),
    Pattern("鹅", ["鹅", "goose"]),
    Pattern("燕子", ["燕子", "swallow"])]
  const ThingPatterns: seq<Pattern> := [
    Pattern("手枪", ["手枪", "pistol", "gun"]),
    Pattern("冲锋枪", ["冲锋枪", "submachine"]),
    Pattern("军舰", ["军舰", "warship", "ship"]),
    Pattern("卡车", ["卡车", "truck"]),
    Pattern("摩托车", ["摩托车", "motorcycle"]),
    Pattern("拖拉机", ["拖拉机", "tractor"]),
    Pattern("剪刀", ["剪刀", "scissors"]),
    Pattern("壶", ["壶", "pot", "kettle"]),
    Pattern("高射炮", ["高射炮", "炮"]),
    Pattern("五角星", ["五角星", "星星", "star"]),
    Pattern("三角形", ["三角形", "triangle", "△"]),
    Pattern("圆形", ["圆形", "circle", "○"]),
    Pattern("正方形", ["正方形", "square", "□"]),
    Pattern("单色图", ["单色图", "单色"]),
    Pattern("两颗", ["两颗", "两个"])]
  const Patterns: seq<Pattern> := CreaturePatterns + ThingPatterns

  // ------------------------------------------------------- preprocessing

  /** The five crop rectangles of `preprocess_image`. */
  function RegionTable(w: nat, h: nat): seq<Region> {
    [ Region("region0", 0, At(h, 70), At(w, 30), h),
      Region("region1", 0, At(h, 75), At(w, 35), h),
      Region("region2", 0, At(h, 80), At(w, 40), h),
      Region("region3", At(w, 60), At(h, 80), w, h),
      Region("region4", At(w, 30), At(h, 80), At(w, 70), h) ]
  }

  const Methods: seq<string> := ["otsu", "otsu_inv", "adaptive"]
  const Scales: seq<nat> := [4]

  lemma RegionTableWithin(w: nat, h: nat)
    ensures forall r | r in RegionTable(w, h) :: Within(r, w, h)
  {
    var t := RegionTable(w, h);
    forall i | 0 <= i < |t| ensures Within(t[i], w, h) {
      AtBounded(w, 30); AtBounded(w, 35); AtBounded(w, 40); AtBounded(w, 60); AtBounded(w, 70);
      AtBounded(h, 70); AtBounded(h, 75); AtBounded(h, 80);
      AtMonotone(w, 30, 70);
    }
  }

  /** `preprocess_image` on a readable image: three images per non-empty region, fifteen at most. */
  method PreprocessImages(w: nat, h: nat) returns (images: seq<Variant>)
    ensures images == Expand(RegionTable(w, h), Methods, Scales)
    ensures |images| == 3 * |KeepNonEmpty(RegionTable(w, h))| <= 15
  {
    images := ExpandRegions(RegionTable(w, h), Methods, Scales);
    ExpandLength(RegionTable(w, h), Methods, Scales);
  }

  // --------------------------------------------------------- first found

  /** `max(xs, key=lambda x: (counts[x], len(x)))` prefers `a` to `b`. */
  predicate Beats(counts: map<string, nat>, a: string, b: string) {
    var ca := if a in counts then counts[a] else 0;
    var cb := if b in counts then counts[b] else 0;
    ca > cb || (ca == cb && |a| > |b|)
  }

  /** Python's `max`: the first element whose key no later element exceeds. */
  function Best(xs: seq<string>, counts: map<string, nat>): string
    requires xs != []
  {
    if |xs| == 1 then xs[0]
    else
      var b := Best(xs[..|xs| - 1], counts);
      if Beats(counts, xs[|xs| - 1], b) then xs[|xs| - 1] else b
  }

  /**
   * The maximum is an element no other beats, and every element before its
   * first position is strictly beaten by it: ties go to the earliest.
   */
  lemma {:induction false} BestIsFirstMaximum(xs: seq<string>, counts: map<string, nat>)
    requires xs != []
    ensures exists i | 0 <= i < |xs| :: xs[i] == Best(xs, counts) && forall j | 0 <= j < i :: Beats(counts, Best(xs, counts), xs[j])
    ensures forall j | 0 <= j < |xs| :: !Beats(counts, xs[j], Best(xs, counts))
  {
    var best := Best(xs, counts);
    if |xs| == 1 {
      assert xs[0] == best && !Beats(counts, xs[0], best);
    } else {
      var k := |xs| - 1;
      var p := xs[..k];
      var x := xs[k];
      BestIsFirstMaximum(p, counts);
      var b := Best(p, counts);
      var i :| 0 <= i < |p| && p[i] == b && forall j | 0 <= j < i :: Beats(counts, b, p[j]);
      assert forall j | 0 <= j < k :: xs[j] == p[j];
      if Beats(counts, x, b) {
        assert best == x;
        forall j | 0 <= j < k ensures Beats(counts, x, xs[j]) {
          assert !Beats(counts, p[j], b);
        }
        forall j | 0 <= j < |xs| ensures !Beats(counts, xs[j], x) {
          if j < k {
            BeatsAsymmetric(counts, x, xs[j]);
          }
        }
        assert xs[k] == best && forall j | 0 <= j < k :: Beats(counts, best, xs[j]);
      } else {
        assert best == b;
        assert xs[i] == b && forall j | 0 <= j < i :: Beats(counts, b, xs[j]);
        forall j | 0 <= j < |xs| ensures !Beats(counts, xs[j], b) {
          if j < k {
            assert !Beats(counts, p[j], b);
          }
        }
      }
    }
  }

  lemma BeatsAsymmetric(counts: map<string, nat>, a: string, b: string)
    requires Beats(counts, a, b)
    ensures !Beats(counts, b, a)
  {
  }

  /** The `max` loop. */
  method FindBest(xs: seq<string>, counts: map<string, nat>) returns (b: string)
    requires xs != []
    ensures b == Best(xs, counts)
  {
    b := xs[0];
    assert xs[..1] == [xs[0]];
    for i := 1 to |xs|
      invariant b == Best(xs[..i], counts)
    {
      assert xs[..i + 1][..i] == xs[..i];
      if Beats(counts, xs[i], b) {
        b := xs[i];
      }
    }
    assert xs[..|xs|] == xs;
  }

  // ------------------------------------------------------------ extractor

  /** The matches of `pattern.findall(text)` for every text, in order. */
  function AllMatches(texts: seq<string>, p: char -> bool, lo: nat, hi: nat): (ms: seq<string>)
    ensures forall k | 0 <= k < |ms| :: All(ms[k], p) && lo <= |ms[k]| <= hi
  {
    if texts == [] then []
    else AllMatches(texts[..|texts| - 1], p, lo, hi) + WholeWords(texts[|texts| - 1], p, lo, hi)
  }

  /** `self.number_pattern`, `\b\d{1,4}\b`. */
  function Numbers(texts: seq<string>): seq<string> {
    AllMatches(texts, IsDigit, 1, 4)
  }

  /** `self.letter_pattern`, `\b[A-Z]{2,6}\b`. */
  function Letters(texts: seq<string>): seq<string> {
    AllMatches(texts, IsAsciiUpper, 2, 6)
  }

  /** The answer `extract_answer_from_texts` returns. */
  function Extracted(texts: seq<string>): string {
    if texts == [] then []
    else
      var i := FirstIndex(Patterns, MentionedIn(Join(" ", texts)));
      if i < |Patterns| then Patterns[i].answer else Frequent(texts)
  }

  /** Without a keyword: the best number of two digits or more, else the best run of capitals, else `""`. */
  function Frequent(texts: seq<string>): string {
    var ns := Numbers(texts);
    var ls := Letters(texts);
    if ns != [] && |Best(ns, CountAll(ns).counts)| >= 2 then Best(ns, CountAll(ns).counts)
    else if ls != [] then Best(ls, CountAll(ls).counts)
    else []
  }

  /** The loop `for text in texts: found.extend(pattern.findall(text))`. */
  method CollectMatches(texts: seq<string>, p: char -> bool, lo: nat, hi: nat) returns (ms: seq<string>)
    ensures ms == AllMatches(texts, p, lo, hi)
  {
    ms := [];
    for i := 0 to |texts|
      invariant ms == AllMatches(texts[..i], p, lo, hi)
    {
      assert texts[..i + 1][..i] == texts[..i];
      ms := ms + WholeWords(texts[i], p, lo, hi);
    }
    assert texts[..|texts|] == texts;
  }

  /** `extract_answer_from_texts`. */
  method ExtractAnswer(texts: seq<string>) returns (r: string)
    ensures r == Extracted(texts)
  {
    if texts == [] {
      return [];
    }
    var combined := Join(" ", texts);
    var i := FirstMentioned(Patterns, combined);
    if i < |Patterns| {
      return Patterns[i].answer;
    }
    r := FrequentMatch(texts);
  }

  /** The two counting stages of `extract_answer_from_texts`. */
  method FrequentMatch(texts: seq<string>) returns (r: string)
    ensures r == Frequent(texts)
  {
    var ns := CollectMatches(texts, IsDigit, 1, 4);
    if ns != [] {
      var best := MostFrequent(ns);
      if |best| >= 2 {
        return best;
      }
    }
    var ls := CollectMatches(texts, IsAsciiUpper, 2, 6);
    if ls != [] {
      var best := MostFrequent(ls);
      if |best| >= 2 {
        return best;
      }
    }
    return [];
  }

  /** Count the matches, then take `max` by count and length. */
  method MostFrequent(ms: seq<string>) returns (best: string)
    requires ms != []
    ensures best == Best(ms, CountAll(ms).counts) && best in ms
  {
    var counts := AddAll(NoCounts, ms, []);
    assert [] + ms == ms;
    best := FindBest(ms, counts.counts);
    BestIsFirstMaximum(ms, counts.counts);
  }

  /** `b` is a most frequent, then longest, match of `xs`, the first such. */
  ghost predicate FirstMost(xs: seq<string>, b: string) {
    var c := CountAll(xs).counts;
    (exists i | 0 <= i < |xs| :: xs[i] == b && forall j | 0 <= j < i :: Beats(c, b, xs[j]))
    && forall j | 0 <= j < |xs| :: !Beats(c, xs[j], b)
  }

  /**
   * The cascade: no texts give `""`; a keyword anywhere in the joined texts
   * gives the canonical answer of the first entry mentioned; otherwise a
   * best number of at least two digits; otherwise a best run of capitals;
   * otherwise `""`.
   */
  lemma ExtractedCases(texts: seq<string>)
    ensures texts == [] ==> Extracted(texts) == []
    ensures texts != [] && (exists p | p in Patterns :: Mentions(Join(" ", texts), p)) ==>
      exists i | 0 <= i < |Patterns| :: Extracted(texts) == Patterns[i].answer && Mentions(Join(" ", texts), Patterns[i])
        && forall j | 0 <= j < i :: !Mentions(Join(" ", texts), Patterns[j])
    ensures texts != [] && (forall p | p in Patterns :: !Mentions(Join(" ", texts), p)) ==>
      if Numbers(texts) != [] && |Best(Numbers(texts), CountAll(Numbers(texts)).counts)| >= 2 then
        Extracted(texts) in Numbers(texts) && 2 <= |Extracted(texts)| <= 4 && AllDigits(Extracted(texts))
        && FirstMost(Numbers(texts), Extracted(texts))
      else if Letters(texts) != [] then
        Extracted(texts) in Letters(texts) && FirstMost(Letters(texts), Extracted(texts))
      else Extracted(texts) == []
  {
    if texts != [] {
      var combined := Join(" ", texts);
      var i := FirstIndex(Patterns, MentionedIn(combined));
      if i == |Patterns| {
        var ns := Numbers(texts);
        var ls := Letters(texts);
        if ns != [] {
          BestIsFirstMaximum(ns, CountAll(ns).counts);
        }
        if ls != [] {
          BestIsFirstMaximum(ls, CountAll(ls).counts);
        }
      } else {
        assert Patterns[i] in Patterns;
      }
    }
  }

  // ------------------------------------------------------------- pipeline

  /**
   * `process_answers_json`: `ocr[i]` is what `process_single_image` returns
   * for record `i`. Records with an empty or placeholder answer change,
   * only to a non-empty answer; the others are skipped; the file is
   * rewritten only when `updateFile` is set and something was updated.
   */
  method ProcessAnswersJson(rs: seq<Record>, ocr: seq<string>, updateFile: bool)
    returns (result: seq<Record>, updated: nat, saved: bool)
    requires |ocr| == |rs|
    ensures |result| == |rs|
    ensures forall i | 0 <= i < |rs| ::
      result[i] == if IsUnanswered(rs[i]) && ocr[i] != [] then rs[i].(answer := ocr[i]) else rs[i]
    ensures updated == CountUpdated(Unanswered, rs, ocr, seq(|rs|, i => true)) <= |rs|
    ensures saved <==> updateFile && exists i | 0 <= i < |rs| :: IsUnanswered(rs[i]) && ocr[i] != []
  {
    var available := seq(|rs|, i => true);
    var pending;
    result, updated, pending, saved := UpdateAnswers(Unanswered, rs, ocr, available, updateFile);
    UpdatedPositive(Unanswered, rs, ocr, available);
  }
}
