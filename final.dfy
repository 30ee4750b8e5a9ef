/**
 * The final tesseract processor: twelve crops at most, a parser that
 * turns each reading into canonical dictionary answers and pattern
 * matches, an occurrence counter over all parsed candidates and a
 * selector that prefers the most frequent dictionary answer.
 */
module FinalOcr {
  import opened Text
  import opened Scan
  import opened Sorting
  import opened Regions
  import opened Imaging
  import opened Counting
  import opened Keywords

  /** `self.answer_patterns`, split in three for the proofs. */
  const HeadPatterns: seq<Pattern> := FirstPatterns + SecondPatterns
  const FirstPatterns: seq<Pattern> := [
    Pattern("拖拉机", ["拖拉机", "tractor"]),
    Pattern("骆驼", ["骆驼", "camel"]),
    Pattern("老虎", ["老虎", "tiger"]),
    Pattern("冲锋枪", ["冲锋枪"]),
    Pattern("高射炮", ["高射炮", "炮"]),
    Pattern("卡车", ["卡车", "truck"])]
  const SecondPatterns: seq<Pattern> := [
    Pattern("军舰", ["军舰", "ship"]),
    Pattern("手枪", ["手枪", "gun"]),
    Pattern("金鱼", ["金鱼", "fish"]),
    Pattern("摩托车", ["摩托车", "motor"]),
    Pattern("狼", ["狼", "wolf"]),
    Pattern("五角星", ["五角星", "星", "star"])]
  const TailPatterns: seq<Pattern> := [
    Pattern("熊猫", ["熊猫", "panda"]),
    Pattern("兔子", ["兔子", "rabbit"]),
    Pattern("马", ["马", "horse"]),
    Pattern("牛", ["牛", "cow"]),
    Pattern("羊", ["羊", "sheep"]),
    Pattern("蝴蝶", ["蝴蝶", "butterfly"]),
    Pattern("蜻蜓", ["蜻蜓"]),
    Pattern("鹅", ["鹅", "goose"]),
    Pattern("燕子", ["燕子"]),
    Pattern("剪刀", ["剪刀", "scissors"]),
    Pattern("壶", ["壶", "pot"])]
  /** The dictionary in insertion order. */
  const Patterns: seq<Pattern> := HeadPatterns + TailPatterns

  lemma FirstPatternsDistinct() ensures DistinctAnswers(FirstPatterns) {}
  lemma SecondPatternsDistinct() ensures DistinctAnswers(SecondPatterns) {}
  lemma TailPatternsDistinct() ensures DistinctAnswers(TailPatterns) {}
  lemma FirstApart()
    ensures forall i, j | 0 <= i < |FirstPatterns| && 0 <= j < |SecondPatterns| ::
      FirstPatterns[i].answer != SecondPatterns[j].answer
  {}
  lemma GroupsApart()
    ensures forall i, j | 0 <= i < |HeadPatterns| && 0 <= j < |TailPatterns| ::
      HeadPatterns[i].answer != TailPatterns[j].answer
  {
    forall i, j | 0 <= i < |HeadPatterns| && 0 <= j < |TailPatterns|
      ensures HeadPatterns[i].answer != TailPatterns[j].answer
    {
      if i < |FirstPatterns| {
        FirstTailApart(i, j);
      } else {
        SecondTailApart(i - |FirstPatterns|, j);
      }
    }
  }
  lemma FirstTailApart(i: nat, j: nat)
    requires i < |FirstPatterns| && j < |TailPatterns|
    ensures FirstPatterns[i].answer != TailPatterns[j].answer
  {}
  lemma SecondTailApart(i: nat, j: nat)
    requires i < |SecondPatterns| && j < |TailPatterns|
    ensures SecondPatterns[i].answer != TailPatterns[j].answer
  {}

  /** Two lists with distinct answers and no answer in common join into one with distinct answers. */
  lemma DistinctJoin(a: seq<Pattern>, b: seq<Pattern>)
    requires DistinctAnswers(a) && DistinctAnswers(b)
    requires forall i, j | 0 <= i < |a| && 0 <= j < |b| :: a[i].answer != b[j].answer
    ensures DistinctAnswers(a + b)
  {
    forall i, j | 0 <= i < j < |a + b| ensures (a + b)[i].answer != (a + b)[j].answer {
      var n := |a|;
      if j < n {
        assert (a + b)[i] == a[i] && (a + b)[j] == a[j];
      } else if i >= n {
        assert (a + b)[i] == b[i - n] && (a + b)[j] == b[j - n];
      } else {
        assert (a + b)[i] == a[i] && (a + b)[j] == b[j - n];
      }
    }
  }

  /** The dictionary has one entry per canonical answer. */
  lemma PatternsDistinct()
    ensures DistinctAnswers(Patterns)
  {
    FirstPatternsDistinct();
    SecondPatternsDistinct();
    FirstApart();
    DistinctJoin(FirstPatterns, SecondPatterns);
    TailPatternsDistinct();
    GroupsApart();
    DistinctJoin(HeadPatterns, TailPatterns);
  }

  // ------------------------------------------------------- preprocessing

  /** The two left-bottom crops of `get_optimal_preprocessing`. */
  function RegionTable(w: nat, h: nat): seq<Region> {
    [ Region("region0", 0, At(h, 75), At(w, 30), h),
      Region("region1", 0, At(h, 70), At(w, 40), h) ]
  }

  const Methods: seq<string> := ["original", "otsu", "adaptive"]
  const Scales: seq<nat> := [3, 4]

  lemma RegionTableWithin(w: nat, h: nat)
    ensures forall r | r in RegionTable(w, h) :: Within(r, w, h)
  {
    var t := RegionTable(w, h);
    forall i | 0 <= i < |t| ensures Within(t[i], w, h) {
      AtBounded(w, 30); AtBounded(w, 40); AtBounded(h, 70); AtBounded(h, 75);
    }
  }

  /** `get_optimal_preprocessing` on a readable image. */
  method PreprocessImages(w: nat, h: nat) returns (images: seq<Variant>)
    ensures images == Expand(RegionTable(w, h), Methods, Scales)
  {
    images := ExpandRegions(RegionTable(w, h), Methods, Scales);
  }

  /** Two regions, three methods, two scales: at most twelve images, six per non-empty region. */
  lemma AtMostTwelve(w: nat, h: nat)
    ensures |Expand(RegionTable(w, h), Methods, Scales)| == 6 * |KeepNonEmpty(RegionTable(w, h))| <= 12
  {
    ExpandLength(RegionTable(w, h), Methods, Scales);
  }

  // -------------------------------------------------------------- parser

  predicate IsSymbol(c: char) {
    c == '△' || c == '○' || c == '□' || c == '/' || c == '-'
  }

  /** The canonical answers whose keywords occur in `text`, in dictionary order, each once. */
  function DictionaryHits(text: string, ps: seq<Pattern>): seq<string> {
    if ps == [] then []
    else
      var p := ps[|ps| - 1];
      DictionaryHits(text, ps[..|ps| - 1]) + (if Mentions(text, p) then [p.answer] else [])
  }

  /** `parse_text_for_answers`: dictionary answers, then 2-4 digit runs, 2-6 capitals, 1-4 CJK, 1-3 symbols. */
  function Parse(text: string): seq<string> {
    DictionaryHits(text, Patterns)
    + WholeWords(text, IsDigit, 2, 4)
    + WholeWords(text, IsAsciiUpper, 2, 6)
    + Chunks(text, IsCjk, 1, 4)
    + Chunks(text, IsSymbol, 1, 3)
  }

  /** The keyword scan `for keyword in keywords: if keyword in text: append; break`. */
  method ScanPatterns(text: string) returns (hits: seq<string>)
    ensures hits == DictionaryHits(text, Patterns)
  {
    hits := [];
    for i := 0 to |Patterns|
      invariant hits == DictionaryHits(text, Patterns[..i])
    {
      assert Patterns[..i + 1][..i] == Patterns[..i];
      var found := ScanKeywords(Patterns[i], text);
      if found {
        hits := hits + [Patterns[i].answer];
      }
    }
    assert Patterns[..|Patterns|] == Patterns;
  }

  method ParseText(text: string) returns (candidates: seq<string>)
    ensures candidates == Parse(text)
  {
    candidates := ScanPatterns(text);
    candidates := candidates + WholeWords(text, IsDigit, 2, 4);
    candidates := candidates + WholeWords(text, IsAsciiUpper, 2, 6);
    candidates := candidates + Chunks(text, IsCjk, 1, 4);
    candidates := candidates + Chunks(text, IsSymbol, 1, 3);
  }

  /**
   * A dictionary answer is appended once when any of its keywords occurs,
   * however many do, and never otherwise; what is appended is the
   * canonical answer, never the keyword.
   */
  lemma {:induction false} DictionaryHitsOnce(text: string, ps: seq<Pattern>, a: string)
    requires DistinctAnswers(ps)
    ensures Occurrences(DictionaryHits(text, ps), a)
      == if exists i | 0 <= i < |ps| :: ps[i].answer == a && Mentions(text, ps[i]) then 1 else 0
  {
    if ps != [] {
      var q := ps[..|ps| - 1];
      var p := ps[|ps| - 1];
      assert DistinctAnswers(q);
      DictionaryHitsOnce(text, q, a);
      var hs := DictionaryHits(text, q);
      var tail := if Mentions(text, p) then [p.answer] else [];
      OccurrencesAppend(hs, tail, a);
      if exists i | 0 <= i < |ps| :: ps[i].answer == a && Mentions(text, ps[i]) {
        var i :| 0 <= i < |ps| && ps[i].answer == a && Mentions(text, ps[i]);
        if i < |q| {
          assert q[i] == ps[i];
          assert p.answer != a;
        }
      } else {
        forall i | 0 <= i < |q| ensures !(q[i].answer == a && Mentions(text, q[i])) {
          assert q[i] == ps[i];
        }
      }
    }
  }

  /** In `Patterns` every canonical answer is parsed at most once per reading. */
  lemma DictionaryAnswerOnce(text: string, a: string)
    ensures Occurrences(DictionaryHits(text, Patterns), a) <= 1
    ensures Occurrences(DictionaryHits(text, Patterns), a) == 1 <==> exists p | p in Patterns :: p.answer == a && Mentions(text, p)
  {
    PatternsDistinct();
    DictionaryHitsOnce(text, Patterns, a);
  }

  /** The dictionary hits come first in the parse, in dictionary order. */
  lemma ParseStartsWithDictionary(text: string)
    ensures DictionaryHits(text, Patterns) <= Parse(text)
  {
  }

  // ---------------------------------------------------------- extraction

  /** All parsed candidates of the readings, in order. */
  function AllKeys(texts: seq<string>): seq<string> {
    if texts == [] then [] else AllKeys(texts[..|texts| - 1]) + Parse(texts[|texts| - 1])
  }

  /** `extract_answer_candidates`: every parsed candidate of every reading adds 1. */
  method ExtractCandidates(texts: seq<string>) returns (c: Counter)
    ensures c == CountAll(AllKeys(texts))
  {
    c := NoCounts;
    for i := 0 to |texts|
      invariant c == CountAll(AllKeys(texts[..i]))
    {
      assert texts[..i + 1][..i] == texts[..i];
      var candidates := ParseText(texts[i]);
      c := AddAll(c, candidates, AllKeys(texts[..i]));
    }
    assert texts[..|texts|] == texts;
  }

  // ------------------------------------------------------------- selector

  const PatternItem: Item -> bool := (e: Item) => e.key in Answers(Patterns)
  const EveryItem: Item -> bool := (e: Item) => true

  /** The answer `select_best_answer` returns. */
  function Selected(c: Counter): string
    requires Valid(c)
  {
    if c.keys == [] then []
    else
      var sorted := Sort(Items(c), MoreFrequent);
      var i := FirstIndex(sorted, PatternItem);
      if i < |sorted| then sorted[i].key else sorted[0].key
  }

  method SelectBestAnswer(c: Counter) returns (r: string)
    requires Valid(c)
    ensures r == Selected(c)
  {
    if c.keys == [] {
      return [];
    }
    var items := ItemList(c);
    var sorted := Sort(items, MoreFrequent);
    var i := FindFirst(sorted, PatternItem);
    if i < |sorted| {
      return sorted[i].key;
    }
    return sorted[0].key;
  }

  /**
   * An empty counter gives `""`; otherwise the answer is a most frequent
   * dictionary answer when one was parsed, and a most frequent candidate
   * when none was.
   */
  lemma SelectedStages(c: Counter)
    requires Valid(c)
    ensures c.counts == map[] ==> Selected(c) == []
    ensures c.counts != map[] ==>
      if AnyItem(c, PatternItem) then TopItem(c, Selected(c), PatternItem)
      else TopItem(c, Selected(c), EveryItem)
  {
    if c.keys != [] {
      assert c.keys[0] in c.counts;
      var sorted := Sort(Items(c), MoreFrequent);
      StrictOrderMoreFrequent();
      SortSorted(Items(c), MoreFrequent);
      CountStage(c, sorted, PatternItem);
      CountStage(c, sorted, EveryItem);
      FirstIndexAt(sorted, EveryItem, 0);
    } else {
      assert c.counts == map[];
    }
  }

  // ------------------------------------------------------------- pipeline

  /** The answer for a readable image cut into `images`, whose recognizer outputs are `raw`. */
  function ImageAnswer(images: seq<Variant>, raw: seq<string>): string {
    CountAllOccurrences(AllKeys(Readings(raw)));
    if images == [] then [] else Selected(CountAll(AllKeys(Readings(raw))))
  }

  /** `process_single_image` after download: `""` without images or candidates, else a key of the counter. */
  method ProcessSingleImage(images: seq<Variant>, raw: seq<string>) returns (answer: string)
    ensures answer == ImageAnswer(images, raw)
    ensures answer != [] ==> answer in CountAll(AllKeys(Readings(raw))).counts
  {
    if images == [] {
      return [];
    }
    var texts := CollectReadings(raw);
    var c := ExtractCandidates(texts);
    CountAllOccurrences(AllKeys(texts));
    SelectedStages(c);
    answer := SelectBestAnswer(c);
  }
}
