/**
 * The universal tesseract tool: up to 30 preprocessed crops, an
 * occurrence counter over the matches of every reading, and a selector
 * by count that prefers known answers, then candidates of a reasonable
 * length.
 */
module UniversalOcr {
  import opened Text
  import opened Scan
  import opened Sorting
  import opened Regions
  import opened Imaging
  import opened Counting

  /** `self.known_answers`, in the order the set literal lists them; the repeated `壶` is a set element once. */
  const Animals: seq<string> := [
    "熊猫", "兔子", "老虎", "狼", "骆驼", "马", "牛", "羊", "金鱼", "蝴蝶", "蜻蜓", "鹅", "燕子", "大熊猫", "壶"]
  const Objects: seq<string> := ["手枪", "冲锋枪", "军舰", "卡车", "摩托车", "拖拉机", "剪刀", "高射炮"]
  const Shapes: seq<string> := ["五角星", "三角形", "圆形", "正方形", "△", "○", "□", "两颗星星"]
  const Descriptions: seq<string> := [
    "单色图-红色", "单色图-黄色", "单色图-蓝色", "单色图-绿色", "单色图-紫色", "单色图", "两颗"]
  const Words: seq<string> := ["洪水", "人", "和", "了"]
  const KnownAnswers: seq<string> := Animals + Objects + Shapes + Descriptions + Words

  lemma AnimalsNotDigit() ensures NoDigitStart(Animals) {}
  lemma ObjectsNotDigit() ensures NoDigitStart(Objects) {}
  lemma ShapesNotDigit() ensures NoDigitStart(Shapes) {}
  lemma DescriptionsNotDigit() ensures NoDigitStart(Descriptions) {}
  lemma WordsNotDigit() ensures NoDigitStart(Words) {}

  /** No known answer starts with a digit. */
  lemma KnownNotDigit()
    ensures NoDigitStart(KnownAnswers)
  {
    AnimalsNotDigit();
    ObjectsNotDigit();
    ShapesNotDigit();
    DescriptionsNotDigit();
    WordsNotDigit();
  }

  // ------------------------------------------------------- preprocessing

  /** The five crop rectangles of `preprocess_image_comprehensive`, named as the images name them. */
  function RegionTable(w: nat, h: nat): seq<Region> {
    [ Region("region0", 0, At(h, 75), At(w, 30), h),
      Region("region1", 0, At(h, 70), At(w, 40), h),
      Region("region2", At(w, 70), At(h, 75), w, h),
      Region("region3", At(w, 30), At(h, 80), At(w, 70), h),
      Region("region4", 0, At(h, 85), w, h) ]
  }

  const Methods: seq<string> := ["original", "otsu", "otsu_inv", "adaptive_mean", "adaptive_gaussian"]
  const Scales: seq<nat> := [3, 4, 5]
  const Limit: nat := 30

  lemma RegionTableWithin(w: nat, h: nat)
    ensures |RegionTable(w, h)| == 5
    ensures forall r | r in RegionTable(w, h) :: Within(r, w, h)
  {
    var t := RegionTable(w, h);
    forall i | 0 <= i < |t| ensures Within(t[i], w, h) {
      AtBounded(w, 30); AtBounded(w, 40); AtBounded(w, 70);
      AtBounded(h, 70); AtBounded(h, 75); AtBounded(h, 80); AtBounded(h, 85);
      AtMonotone(w, 30, 70);
    }
  }

  /** `preprocess_image_comprehensive` on a readable `w` by `h` image. */
  method PreprocessImages(w: nat, h: nat) returns (images: seq<Variant>)
    ensures images == Take(Expand(RegionTable(w, h), Methods, Scales), Limit)
  {
    var all := ExpandRegions(RegionTable(w, h), Methods, Scales);
    images := all[..if |all| < Limit then |all| else Limit];
  }

  /**
   * Fifteen images per non-empty region, 75 for the whole table, of which
   * at most 30 are kept.
   */
  lemma PreprocessCounts(w: nat, h: nat)
    ensures |Expand(RegionTable(w, h), Methods, Scales)| == 15 * |KeepNonEmpty(RegionTable(w, h))| <= 75
    ensures |Take(Expand(RegionTable(w, h), Methods, Scales), Limit)| <= 30
    ensures forall v | v in Take(Expand(RegionTable(w, h), Methods, Scales), Limit) ::
      v.region < 5 && NonEmpty(RegionTable(w, h)[v.region]) && v.step in Methods && v.scale in Scales
  {
    var e := Expand(RegionTable(w, h), Methods, Scales);
    ExpandLength(RegionTable(w, h), Methods, Scales);
    ExpandMembers(RegionTable(w, h), Methods, Scales);
    assert forall v | v in Take(e, Limit) :: v in e;
  }

  /**
   * The truncation keeps only the two left-bottom regions: once the image
   * is at least 4 pixels wide and 1 high, both are non-empty, their 30
   * images fill the limit and the other three regions are never read.
   */
  lemma OnlyLeftBottom(w: nat, h: nat)
    requires w >= 4 && h >= 1
    ensures Take(Expand(RegionTable(w, h), Methods, Scales), Limit)
      == RegionVariants(0, Methods, Scales) + RegionVariants(1, Methods, Scales)
  {
    var table := RegionTable(w, h);
    LeftBottomNonEmpty(w, h);
    var v0, v1 := RegionVariants(0, Methods, Scales), RegionVariants(1, Methods, Scales);
    ExpandNext(table, Methods, Scales, 0);
    ExpandNext(table, Methods, Scales, 1);
    assert table[..0] == [];
    var prefix := Expand(table[..2], Methods, Scales);
    assert prefix == v0 + v1;
    RegionVariantsLength(0, Methods, Scales);
    RegionVariantsLength(1, Methods, Scales);
    assert |prefix| == Limit;
    ExpandPrefix(table, Methods, Scales, 2);
  }

  lemma LeftBottomNonEmpty(w: nat, h: nat)
    requires w >= 4 && h >= 1
    ensures NonEmpty(RegionTable(w, h)[0]) && NonEmpty(RegionTable(w, h)[1])
  {
    assert At(w, 30) >= 1 && At(w, 40) >= 1;
    assert At(h, 75) < h && At(h, 70) < h;
  }

  // ---------------------------------------------------------- extraction

  predicate IsSymbol(c: char) {
    c == '△' || c == '○' || c == '□' || c == '/' || c == '-'
  }

  /** `if len(num) >= 2`: the digit runs of at least two digits. */
  function TwoOrMore(ws: seq<string>): seq<string> {
    Filter(ws, (w: string) => |w| >= 2)
  }

  /** The matches of one reading, per category: known answers, `\b\d{1,4}\b` of 2 digits or more, `\b[A-Z]{2,6}\b`, CJK runs, symbol runs. */
  function Groups(text: string): seq<seq<string>> {
    [ Filter(KnownAnswers, (k: string) => Contains(text, k)),
      TwoOrMore(WholeWords(text, IsDigit, 1, 4)),
      WholeWords(text, IsAsciiUpper, 2, 6),
      Chunks(text, IsCjk, 1, 4),
      Chunks(text, IsSymbol, 1, 5) ]
  }

  /** All matches of the readings, in order. */
  function AllKeys(texts: seq<string>): seq<string> {
    if texts == [] then [] else AllKeys(texts[..|texts| - 1]) + Concat(Groups(texts[|texts| - 1]))
  }

  /** `extract_answer_candidates`: every match adds 1. */
  method ExtractCandidates(texts: seq<string>) returns (c: Counter)
    ensures c == CountAll(AllKeys(texts))
  {
    c := NoCounts;
    for i := 0 to |texts|
      invariant c == CountAll(AllKeys(texts[..i]))
    {
      assert texts[..i + 1][..i] == texts[..i];
      c := AddGroups(c, Groups(texts[i]), AllKeys(texts[..i]));
    }
    assert texts[..|texts|] == texts;
  }

  /** A match is never empty, and one made of digits only has 2 to 4 of them. */
  predicate Plausible(k: string) {
    k != [] && (AllDigits(k) ==> 2 <= |k| <= 4)
  }

  lemma NoDigitsIn(ws: seq<string>, p: char -> bool)
    requires forall i | 0 <= i < |ws| :: All(ws[i], p) && ws[i] != []
    requires forall c :: p(c) ==> !IsDigit(c)
    ensures forall k | k in ws :: Plausible(k)
  {
    forall k | k in ws ensures Plausible(k) {
      var i :| 0 <= i < |ws| && ws[i] == k;
      assert p(k[0]);
    }
  }

  lemma GroupsPlausible(text: string)
    ensures forall k | k in Concat(Groups(text)) :: Plausible(k)
  {
    var gs := Groups(text);
    KnownPlausible(text);
    NumbersPlausible(text);
    MatchesPlausible(text);
    forall j, k | 0 <= j < |gs| && k in gs[j] ensures Plausible(k) {
      if j == 0 {} else if j == 1 {} else if j == 2 {} else if j == 3 {} else {}
    }
    ConcatPlausible(gs);
  }

  lemma ConcatPlausible(gs: seq<seq<string>>)
    requires forall j, k | 0 <= j < |gs| && k in gs[j] :: Plausible(k)
    ensures forall k | k in Concat(gs) :: Plausible(k)
  {
    forall k | k in Concat(gs) ensures Plausible(k) {
      ConcatMember(gs, k);
    }
  }

  lemma KnownPlausible(text: string)
    ensures forall k | k in Groups(text)[0] :: Plausible(k)
  {
    KnownNotDigit();
  }

  lemma NumbersPlausible(text: string)
    ensures forall k | k in Groups(text)[1] :: Plausible(k)
  {
  }

  lemma MatchesPlausible(text: string)
    ensures forall k | k in Groups(text)[2] :: Plausible(k)
    ensures forall k | k in Groups(text)[3] :: Plausible(k)
    ensures forall k | k in Groups(text)[4] :: Plausible(k)
  {
    var gs := Groups(text);
    NoDigitsIn(gs[2], IsAsciiUpper);
    NoDigitsIn(gs[3], IsCjk);
    NoDigitsIn(gs[4], IsSymbol);
  }

  /**
   * The counter of the readings counts every match it saw; no key is
   * empty and no key is a lone digit.
   */
  lemma {:induction false} CandidateCounts(texts: seq<string>)
    ensures Valid(CountAll(AllKeys(texts)))
    ensures forall k | k in CountAll(AllKeys(texts)).counts :: CountAll(AllKeys(texts)).counts[k] == Occurrences(AllKeys(texts), k)
    ensures forall k | k in CountAll(AllKeys(texts)).counts :: Plausible(k)
  {
    CountAllOccurrences(AllKeys(texts));
    if texts != [] {
      var p := texts[..|texts| - 1];
      CandidateCounts(p);
      CountAllOccurrences(AllKeys(p));
      GroupsPlausible(texts[|texts| - 1]);
    }
  }

  // ------------------------------------------------------------- selector

  const KnownItem: Item -> bool := (e: Item) => e.key in KnownAnswers
  /** `len(candidate) >= 2 or candidate.isdigit()`. */
  const ReasonableItem: Item -> bool := (e: Item) => |e.key| >= 2 || AllDigits(e.key)
  const EveryItem: Item -> bool := (e: Item) => true

  /** The answer `select_best_answer` returns. */
  function Selected(c: Counter): string
    requires Valid(c)
  {
    if c.keys == [] then []
    else
      var sorted := Sort(Items(c), MoreFrequent);
      var i := FirstIndex(sorted, KnownItem);
      var j := FirstIndex(sorted, ReasonableItem);
      if i < |sorted| then sorted[i].key
      else if j < |sorted| then sorted[j].key
      else sorted[0].key
  }

  /** `select_best_answer`: sort by count, then the three scans. */
  method SelectBestAnswer(c: Counter) returns (r: string)
    requires Valid(c)
    ensures r == Selected(c)
  {
    if c.keys == [] {
      return [];
    }
    var items := ItemList(c);
    var sorted := Sort(items, MoreFrequent);
    var i := FindFirst(sorted, KnownItem);
    if i < |sorted| {
      return sorted[i].key;
    }
    var j := FindFirst(sorted, ReasonableItem);
    if j < |sorted| {
      return sorted[j].key;
    }
    return sorted[0].key;
  }

  /**
   * An empty counter gives `""`. Otherwise the answer is a most frequent
   * known answer if any key is one, else a most frequent key of a
   * reasonable length, else a most frequent key.
   */
  lemma SelectedStages(c: Counter)
    requires Valid(c)
    ensures c.counts == map[] ==> Selected(c) == []
    ensures c.counts != map[] ==>
      if AnyItem(c, KnownItem) then TopItem(c, Selected(c), KnownItem)
      else if AnyItem(c, ReasonableItem) then TopItem(c, Selected(c), ReasonableItem)
      else TopItem(c, Selected(c), EveryItem)
  {
    if c.keys != [] {
      assert c.keys[0] in c.counts;
      var sorted := Sort(Items(c), MoreFrequent);
      StrictOrderMoreFrequent();
      SortSorted(Items(c), MoreFrequent);
      CountStage(c, sorted, KnownItem);
      CountStage(c, sorted, ReasonableItem);
      CountStage(c, sorted, EveryItem);
      FirstIndexAt(sorted, EveryItem, 0);
    } else {
      assert c.counts == map[];
    }
  }

  // ------------------------------------------------------------- pipeline

  /** The answer for a readable image cut into `images`, whose recognizer outputs are `raw`. */
  function ImageAnswer(images: seq<Variant>, raw: seq<string>): string {
    CandidateCounts(Readings(raw));
    if images == [] then [] else Selected(CountAll(AllKeys(Readings(raw))))
  }

  /**
   * `process_single_image` after download: `""` when no image was cut or
   * nothing matched, otherwise a key of the counter.
   */
  method ProcessSingleImage(images: seq<Variant>, raw: seq<string>) returns (answer: string)
    ensures answer == ImageAnswer(images, raw)
    ensures answer == [] <==> images == [] || AllKeys(Readings(raw)) == []
    ensures answer != [] ==> answer in CountAll(AllKeys(Readings(raw))).counts
  {
    if images == [] {
      return [];
    }
    var texts := CollectReadings(raw);
    var c := ExtractCandidates(texts);
    CandidateCounts(texts);
    CountAllOccurrences(AllKeys(texts));
    SelectedStages(c);
    answer := SelectBestAnswer(c);
    if AllKeys(texts) != [] {
      assert AllKeys(texts)[0] in c.counts;
    }
  }
}
