/**
 * The EasyOCR answer tool: region table, candidate extraction with one
 * weight per category, the sequence-number classifier, the staged answer
 * selector and the placeholder update loop.
 */
module EasyOcr {
  import opened Wrappers
  import opened Text
  import opened Scan
  import opened Cleaning
  import opened Sorting
  import opened Candidates
  import opened Regions

  /** `self.known_answers`, in the order the set literal lists them, group by group (no entry repeats). */
  const Animals: seq<string> := [
    "熊猫", "兔子", "老虎", "狼", "骆驼", "马", "牛", "羊", "金鱼", "蝴蝶", "蜻蜓", "鹅", "燕子",
    "大熊猫", "鸡", "鸭", "猪", "狗", "猫", "鸟", "鱼", "虾", "蟹"]
  const Objects: seq<string> := [
    "手枪", "冲锋枪", "军舰", "卡车", "摩托车", "拖拉机", "剪刀", "壶", "高射炮",
    "飞机", "坦克", "大炮", "轮船", "火车", "汽车", "自行车", "船", "枪"]
  const Shapes: seq<string> := ["五角星", "三角形", "圆形", "正方形", "△", "○", "□", "两颗星星", "星星"]
  const Descriptions: seq<string> := [
    "单色图-红色", "单色图-黄色", "单色图-蓝色", "单色图-绿色", "单色图-紫色", "单色图", "两颗"]
  const Words: seq<string> := ["洪水", "人", "和", "了", "的", "在", "是", "有", "不", "这", "那"]
  const KnownAnswers: seq<string> := Animals + Objects + Shapes + Descriptions + Words

  /** `clean_text`: the six serial-number patterns, no character filter. */
  const EasyClean := CleanConfig(SerialPrefixes, false)

  // --------------------------------------------------------- region table

  /** The 19 rectangles of `preprocess_image_for_ocr`, as `(x1, y1, x2, y2)`. */
  function RegionTable(w: nat, h: nat): seq<Region> {
    [ Region("left_bottom", 0, At(h, 75), At(w, 30), h),
      Region("left_bottom_large", 0, At(h, 70), At(w, 40), h),
      Region("left_bottom_small", 0, At(h, 80), At(w, 25), h),
      Region("right_bottom", At(w, 70), At(h, 75), w, h),
      Region("right_bottom_large", At(w, 60), At(h, 70), w, h),
      Region("right_bottom_small", At(w, 75), At(h, 80), w, h),
      Region("right_bottom_extended", At(w, 50), At(h, 75), w, h),
      Region("center_bottom", At(w, 30), At(h, 80), At(w, 70), h),
      Region("full_bottom", 0, At(h, 85), w, h),
      Region("full_bottom_large", 0, At(h, 80), w, h),
      Region("left_side", 0, At(h, 50), At(w, 30), h),
      Region("left_side_large", 0, At(h, 40), At(w, 40), h),
      Region("right_side", At(w, 70), At(h, 50), w, h),
      Region("right_side_large", At(w, 60), At(h, 40), w, h),
      Region("right_side_extended", At(w, 50), At(h, 30), w, h),
      Region("top_left", 0, 0, At(w, 30), At(h, 30)),
      Region("top_right", At(w, 70), 0, w, At(h, 30)),
      Region("bottom_left", 0, At(h, 70), At(w, 30), h),
      Region("bottom_right", At(w, 70), At(h, 70), w, h) ]
  }

  /** Every region lies inside the image with its corners in order. */
  lemma RegionTableWithin(w: nat, h: nat)
    ensures |RegionTable(w, h)| == 19
    ensures forall r | r in RegionTable(w, h) :: Within(r, w, h)
  {
    var t := RegionTable(w, h);
    forall i | 0 <= i < |t| ensures Within(t[i], w, h) {
      AtBounded(w, 25); AtBounded(w, 30); AtBounded(w, 40); AtBounded(w, 50);
      AtBounded(w, 60); AtBounded(w, 70); AtBounded(w, 75);
      AtBounded(h, 30); AtBounded(h, 40); AtBounded(h, 50); AtBounded(h, 70);
      AtBounded(h, 75); AtBounded(h, 80); AtBounded(h, 85);
      AtMonotone(w, 30, 70);
    }
  }

  /** `preprocess_image_for_ocr` on a readable image: the non-empty crops, in table order. */
  method PreprocessRegions(w: nat, h: nat) returns (regions: seq<Region>)
    ensures regions == KeepNonEmpty(RegionTable(w, h))
    ensures forall r | r in regions :: Within(r, w, h) && NonEmpty(r)
  {
    RegionTableWithin(w, h);
    regions := CropRegions(RegionTable(w, h));
  }

  // ------------------------------------------------------ content patterns

  /** The three `content_patterns`, tried in order on `text.strip()`. */
  datatype ContentPattern =
    | MarkThenContent    // ^\d+[\.、\s:：]\s*(.+)
    | SpacesThenContent  // ^\d+\s+(.+)
    | OrdinalContent     // ^第?\d+题?\s*(.+)

  const ContentPatterns := [MarkThenContent, SpacesThenContent, OrdinalContent]

  predicate NotNewline(c: char) { c != '\n' }

  predicate ContentMark(c: char) {
    c == '.' || c == '、' || IsSpace(c) || c == ':' || c == '：'
  }

  /** `(.+)` matched at the start of `s`: everything up to the first newline. */
  function Line(s: string): (l: string)
    ensures |l| <= |s| && l == s[..|l|]
    ensures forall i | 0 <= i < |l| :: s[i] != '\n'
    ensures |l| == |s| || s[|l|] == '\n'
  {
    s[..RunLength(s, NotNewline)]
  }

  lemma LineInText(t: string, q: nat)
    requires q < |t| && t[q] != '\n'
    ensures Line(t[q..]) != [] && InText(Line(t[q..]), t)
  {
    assert t[q..][0] == t[q];
    PrefixInText(t[q..], |Line(t[q..])|);
    InTail(Line(t[q..]), t, q);
  }

  /** `^\d+[\.、\s:：]\s*(.+)`: digits, one mark, optional whitespace, then the rest of the line. */
  function MarkThenGroup(t: string): (m: Option<string>)
    requires IsStripped(t)
    ensures m.Some? ==> m.value != [] && InText(m.value, t)
  {
    var d := RunLength(t, IsDigit);
    if 1 <= d < |t| && ContentMark(t[d]) then
      var q := d + 1 + RunLength(t[d + 1..], IsSpace);
      if q < |t| then LineInText(t, q); Some(Line(t[q..])) else None
    else None
  }

  /** `^\d+\s+(.+)`: digits, whitespace, then the rest of the line. */
  function SpacesThenGroup(t: string): (m: Option<string>)
    requires IsStripped(t)
    ensures m.Some? ==> m.value != [] && InText(m.value, t)
  {
    var d := RunLength(t, IsDigit);
    if 1 <= d < |t| && IsSpace(t[d]) then
      var q := d + RunLength(t[d..], IsSpace);
      if q < |t| then LineInText(t, q); Some(Line(t[q..])) else None
    else None
  }

  /**
   * `^第?\d+题?\s*(.+)`. When nothing is left for `(.+)` the match
   * backtracks: it gives back `题` if it took one, else the last digit if
   * there are two or more, else it fails.
   */
  function OrdinalGroup(t: string): (m: Option<string>)
    requires IsStripped(t)
    ensures m.Some? ==> m.value != [] && InText(m.value, t)
  {
    var a := if t != [] && t[0] == '第' then 1 else 0;
    var d := RunLength(t[a..], IsDigit);
    if d == 0 then None
    else
      var pos := a + d;
      var b := if pos < |t| && t[pos] == '题' then 1 else 0;
      var q := pos + b + RunLength(t[pos + b..], IsSpace);
      if q < |t| then LineInText(t, q); Some(Line(t[q..]))
      else if b == 1 then LineInText(t, pos); Some(Line(t[pos..]))
      else if d >= 2 then LineInText(t, pos - 1); Some(Line(t[pos - 1..]))
      else None
  }

  /**
   * `match.group(1)` of `re.search(pattern, t)` on a stripped text, or
   * `None` when the pattern does not match. `\d+`, `题?` and `\s*` are
   * greedy; in the first two patterns backtracking never helps, since a
   * stripped text does not end in whitespace.
   */
  function ContentGroup(p: ContentPattern, t: string): (m: Option<string>)
    requires IsStripped(t)
    ensures m.Some? ==> m.value != [] && InText(m.value, t)
  {
    match p
    case MarkThenContent => MarkThenGroup(t)
    case SpacesThenContent => SpacesThenGroup(t)
    case OrdinalContent => OrdinalGroup(t)
  }

  /** One content pattern: `content = match.group(1).strip()`, kept when longer than one character. */
  function ContentHit(p: ContentPattern, o: Observation): (hs: seq<Hit>)
    ensures |hs| <= 1
    ensures forall h | h in hs ::
      (|h.key| > 1 && h.score == o.confidence * 4.0 && h.source == Source(o.region, true, o.confidence))
  {
    var m := ContentGroup(p, Strip(o.text));
    var c := if m.Some? then Strip(m.value) else [];
    if |c| > 1 then [Hit(c, o.confidence * 4.0, Source(o.region, true, o.confidence))] else []
  }

  /** Every content pattern that matches contributes its own hit. */
  function ContentHits(o: Observation): seq<Hit> {
    ContentHit(MarkThenContent, o) + ContentHit(SpacesThenContent, o) + ContentHit(OrdinalContent, o)
  }

  // ------------------------------------------------------------ categories

  predicate IsSymbol(c: char) {
    c == '△' || c == '○' || c == '□' || c == '/' || c == '-' || c == 'X' || c == 'x' || c == 'O' || c == 'o'
  }

  /** `if known_answer in text`, weight 3. */
  function KnownHits(o: Observation): seq<Hit> {
    Scored(Filter(KnownAnswers, k => Contains(o.text, k)), 0, 3.0, o, false)
  }

  /** `re.findall(r'\b\d{1,4}\b', text)`, runs of one digit dropped, weight 1.5. */
  function NumberHits(o: Observation): seq<Hit> {
    Scored(WholeWords(o.text, IsDigit, 1, 4), 2, 1.5, o, false)
  }

  /** `re.findall(r'\b[A-Z]{2,6}\b', text)`, weight 1.5. */
  function CapitalHits(o: Observation): seq<Hit> {
    Scored(WholeWords(o.text, IsAsciiUpper, 2, 6), 0, 1.5, o, false)
  }

  /** `re.findall(r'[一-鿿]{1,4}', text)`, weight 2. */
  function CjkHits(o: Observation): seq<Hit> {
    Scored(Chunks(o.text, IsCjk, 1, 4), 1, 2.0, o, false)
  }

  /** `re.findall(r'[△○□/\-XxOo]{1,5}', text)`, weight 1.5. */
  function SymbolHits(o: Observation): seq<Hit> {
    Scored(Chunks(o.text, IsSymbol, 1, 5), 0, 1.5, o, false)
  }

  /** `re.findall(r'\b[A-Za-z]\b', text)`, weight 1.2. */
  function LetterHits(o: Observation): seq<Hit> {
    Scored(WholeWords(o.text, IsAsciiLetter, 1, 1), 0, 1.2, o, false)
  }

  /** The categories of one observation, in the order they are scanned. */
  function Categories(o: Observation): seq<seq<Hit>> {
    [ContentHits(o), KnownHits(o), NumberHits(o), CapitalHits(o), CjkHits(o), SymbolHits(o), LetterHits(o)]
  }

  /** The hits of one observation; none when its cleaned text is empty. */
  function LineHits(o: Observation): seq<Hit> {
    if Cleaned(o.text, EasyClean) == [] then [] else Concat(Categories(o))
  }

  /** All hits of the observations, in order. */
  function AllHits(obs: seq<Observation>): seq<Hit> {
    if obs == [] then [] else AllHits(obs[..|obs| - 1]) + LineHits(obs[|obs| - 1])
  }

  lemma AllHitsNext(obs: seq<Observation>, i: nat)
    requires i < |obs|
    ensures AllHits(obs[..i + 1]) == AllHits(obs[..i]) + LineHits(obs[i])
  {
    assert obs[..i + 1][..i] == obs[..i];
  }

  /** `extract_answer_candidates`: the candidate dictionary after every hit of every observation. */
  method ExtractCandidates(obs: seq<Observation>) returns (t: Table)
    ensures t == Build(AllHits(obs))
  {
    t := EmptyTable;
    for i := 0 to |obs|
      invariant t == Build(AllHits(obs[..i]))
    {
      AllHitsNext(obs, i);
      var o := obs[i];
      var cleaned := CleanText(o.text, EasyClean);
      if cleaned == [] {
        assert AllHits(obs[..i]) + LineHits(o) == AllHits(obs[..i]);
        continue;
      }
      t := AddCategories(t, Categories(o), AllHits(obs[..i]));
    }
    assert obs[..|obs|] == obs;
  }

  // ------------------------------------------------------------ properties

  predicate OneDigit(k: string) {
    |k| == 1 && IsDigit(k[0])
  }

  /** The weight of every hit, as the category that produced it assigns it. */
  predicate Weighted(h: Hit, o: Observation) {
    h.source.region == o.region && h.source.confidence == o.confidence
    && (h.source.content ==> h.score == o.confidence * 4.0 && |h.key| > 1)
    && (!h.source.content ==> h.score == o.confidence * 3.0 || h.score == o.confidence * 1.5
                              || h.score == o.confidence * 2.0 || h.score == o.confidence * 1.2)
    && !OneDigit(h.key)
  }

  lemma AnimalsNotDigit() ensures NoDigitStart(Animals) {}
  lemma ObjectsNotDigit() ensures NoDigitStart(Objects) {}
  lemma ShapesNotDigit() ensures NoDigitStart(Shapes) {}
  lemma DescriptionsNotDigit() ensures NoDigitStart(Descriptions) {}
  lemma WordsNotDigit() ensures NoDigitStart(Words) {}

  /** No known answer starts with a digit. */
  lemma KnownNotDigit()
    ensures NoDigitStart(KnownAnswers)
  {
    AnimalsNotDigit();
    ObjectsNotDigit();
    ShapesNotDigit();
    DescriptionsNotDigit();
    WordsNotDigit();
  }

  /** Keys scanned from runs of characters that are not digits are not single digits. */
  lemma ScoredNotDigit(ws: seq<string>, p: char -> bool, minLen: nat, weight: real, o: Observation)
    requires forall i | 0 <= i < |ws| :: All(ws[i], p) && ws[i] != []
    requires forall c :: p(c) ==> !IsDigit(c)
    ensures forall h | h in Scored(ws, minLen, weight, o, false) :: !OneDigit(h.key)
  {
    forall h | h in Scored(ws, minLen, weight, o, false) ensures !OneDigit(h.key) {
      var i :| 0 <= i < |ws| && ws[i] == h.key;
      assert p(h.key[0]);
    }
  }

  lemma ContentWeighted(o: Observation)
    ensures forall h | h in ContentHits(o) :: Weighted(h, o)
  {
  }

  lemma KnownWeighted(o: Observation)
    ensures forall h | h in KnownHits(o) :: Weighted(h, o)
  {
    KnownNotDigit();
    forall h | h in KnownHits(o) ensures !OneDigit(h.key) {
      assert h.key in KnownAnswers;
    }
  }

  lemma NumberWeighted(o: Observation)
    ensures forall h | h in NumberHits(o) :: Weighted(h, o)
  {
  }

  lemma CapitalWeighted(o: Observation)
    ensures forall h | h in CapitalHits(o) :: Weighted(h, o)
  {
    ScoredNotDigit(WholeWords(o.text, IsAsciiUpper, 2, 6), IsAsciiUpper, 0, 1.5, o);
  }

  lemma CjkWeighted(o: Observation)
    ensures forall h | h in CjkHits(o) :: Weighted(h, o)
  {
    ScoredNotDigit(Chunks(o.text, IsCjk, 1, 4), IsCjk, 1, 2.0, o);
  }

  lemma SymbolWeighted(o: Observation)
    ensures forall h | h in SymbolHits(o) :: Weighted(h, o)
  {
    ScoredNotDigit(Chunks(o.text, IsSymbol, 1, 5), IsSymbol, 0, 1.5, o);
  }

  lemma LetterWeighted(o: Observation)
    ensures forall h | h in LetterHits(o) :: Weighted(h, o)
  {
    ScoredNotDigit(WholeWords(o.text, IsAsciiLetter, 1, 1), IsAsciiLetter, 0, 1.2, o);
  }

  lemma CategoryWeighted(o: Observation, j: nat)
    requires j < |Categories(o)|
    ensures forall h | h in Categories(o)[j] :: Weighted(h, o)
  {
    match j
    case 0 => ContentWeighted(o);
    case 1 => KnownWeighted(o);
    case 2 => NumberWeighted(o);
    case 3 => CapitalWeighted(o);
    case 4 => CjkWeighted(o);
    case 5 => SymbolWeighted(o);
    case 6 => LetterWeighted(o);
  }

  /**
   * Every hit of an observation carries the observation's region and
   * confidence and the weight of its category (content 4, known 3, CJK 2,
   * number, capitals and symbols 1.5, single letter 1.2); content hits are
   * longer than one character, no hit is a single digit, and an observation
   * whose cleaned text is empty yields nothing.
   */
  lemma LineHitsWeighted(o: Observation)
    ensures forall h | h in LineHits(o) :: Weighted(h, o)
    ensures Cleaned(o.text, EasyClean) == [] ==> LineHits(o) == []
  {
    forall h | h in LineHits(o) ensures Weighted(h, o) {
      ConcatMember(Categories(o), h);
      var j :| 0 <= j < |Categories(o)| && h in Categories(o)[j];
      CategoryWeighted(o, j);
    }
  }

  /** Every hit of a list of observations comes from one of them, with that observation's weight. */
  lemma {:induction false} AllHitsWeighted(obs: seq<Observation>)
    ensures forall h | h in AllHits(obs) :: exists i | 0 <= i < |obs| :: Weighted(h, obs[i])
  {
    if obs != [] {
      var p := obs[..|obs| - 1];
      var o := obs[|obs| - 1];
      AllHitsWeighted(p);
      LineHitsWeighted(o);
      WeightedAppend(AllHits(p), LineHits(o), p, obs);
    }
  }

  lemma WeightedAppend(hp: seq<Hit>, ho: seq<Hit>, p: seq<Observation>, obs: seq<Observation>)
    requires obs != [] && p == obs[..|obs| - 1]
    requires forall h | h in hp :: exists i | 0 <= i < |p| :: Weighted(h, p[i])
    requires forall h | h in ho :: Weighted(h, obs[|obs| - 1])
    ensures forall h | h in hp + ho :: exists i | 0 <= i < |obs| :: Weighted(h, obs[i])
  {
    forall h | h in hp + ho ensures exists i | 0 <= i < |obs| :: Weighted(h, obs[i]) {
      if h in hp {
        var i :| 0 <= i < |p| && Weighted(h, p[i]);
        assert obs[i] == p[i];
      } else {
        assert Weighted(h, obs[|obs| - 1]);
      }
    }
  }

  /**
   * The table built from a list of observations: every entry has exactly
   * one source per hit and at least one hit, its score is the sum of its
   * hits' weighted confidences, and no key is a single digit. The
   * categories are not exclusive: the reading `骆驼` is hit once as a known
   * answer (weight 3) and once as a CJK run (weight 2).
   */
  lemma CandidateTable(obs: seq<Observation>)
    ensures WellFormed(Build(AllHits(obs)))
    ensures forall k | k in Build(AllHits(obs)).stats ::
      Build(AllHits(obs)).stats[k] == Tally(AllHits(obs), k) && !OneDigit(k)
  {
    var hs := AllHits(obs);
    BuildTally(hs);
    AllHitsWeighted(obs);
    forall k | k in Build(hs).stats ensures !OneDigit(k) {
      var i :| 0 <= i < |hs| && hs[i].key == k;
      assert hs[i] in hs;
      var j :| 0 <= j < |obs| && Weighted(hs[i], obs[j]);
    }
  }

  // ------------------------------------------------ sequence-number check

  /** `is_likely_sequence_number(candidate, filename)`. */
  function IsLikelySequenceNumber(candidate: string, filename: string): bool {
    if !AllDigits(candidate) then false
    else
      match FirstNumber(filename)
      case None => false
      case Some(f) =>
        var c := NatValue(candidate);
        if c == f then true
        else if |candidate| == 1 && 1 <= c <= 9 then true
        else if |candidate| == 2 then
          if (if c >= f then c - f else f - c) > 20 then false
          else 1 <= c <= 100
        else false
  }

  /**
   * The classifier's truth table in closed form: a digit string is a
   * likely sequence number iff the filename has a number `f` and the
   * candidate equals `f`, or is one non-zero digit, or is two digits, not
   * `00`, within 20 of `f` (the `<= 100` bound is then always met).
   */
  lemma SequenceNumberTruth(candidate: string, filename: string)
    ensures IsLikelySequenceNumber(candidate, filename) <==>
      AllDigits(candidate) && HasCharIn(filename, IsDigit) &&
      var c := NatValue(candidate); var f := FirstNumber(filename).value;
      c == f || (|candidate| == 1 && c != 0) || (|candidate| == 2 && c != 0 && f - 20 <= c <= f + 20)
  {
    if AllDigits(candidate) && |candidate| <= 2 {
      assert NatValue(candidate) < Pow10(|candidate|) <= 100;
    }
  }

  // -------------------------------------------------------------- selector

  /** Content candidates: not likely sequence numbers. */
  function ContentEntry(filename: string): Entry -> bool {
    (e: Entry) => !IsLikelySequenceNumber(e.key, filename)
  }

  function SequenceEntry(filename: string): Entry -> bool {
    (e: Entry) => IsLikelySequenceNumber(e.key, filename)
  }

  /** `candidate in self.known_answers and data["score"]/data["count"] > 0.4`. */
  const KnownPick: Entry -> bool := (e: Entry) => e.key in KnownAnswers && e.stat.count > 0 && Average(e.stat) > 0.4

  /** `avg_conf > 0.3 and len(candidate) >= 1`. */
  const ConfidentPick: Entry -> bool := (e: Entry) => e.stat.count > 0 && Average(e.stat) > 0.3 && |e.key| >= 1

  /** `avg_conf > 0.7 and len(candidate) >= 3`. */
  const SequencePick: Entry -> bool := (e: Entry) => e.stat.count > 0 && Average(e.stat) > 0.7 && |e.key| >= 3

  /** The answer `select_best_answer` returns, stage by stage on the entries in descending final score. */
  function Selected(t: Table, filename: string): string
    requires WellFormed(t)
  {
    if t.keys == [] then []
    else
      var scored := Sort(Entries(t), HigherRank);
      var content := Filter(scored, ContentEntry(filename));
      if content != [] then
        var i := FirstIndex(content, KnownPick);
        if i < |content| then content[i].key
        else
          var j := FirstIndex(content, ConfidentPick);
          if j < |content| then content[j].key else content[0].key
      else
        var sequence := Filter(scored, SequenceEntry(filename));
        var k := FirstIndex(sequence, SequencePick);
        if k < |sequence| then sequence[k].key else []
  }

  /** The loop that splits the sorted entries into sequence and content candidates, keeping their order. */
  method Split(scored: seq<Entry>, filename: string) returns (content: seq<Entry>, sequence: seq<Entry>)
    ensures content == Filter(scored, ContentEntry(filename))
    ensures sequence == Filter(scored, SequenceEntry(filename))
  {
    content := [];
    sequence := [];
    for i := 0 to |scored|
      invariant content == Filter(scored[..i], ContentEntry(filename))
      invariant sequence == Filter(scored[..i], SequenceEntry(filename))
    {
      assert scored[..i + 1][..i] == scored[..i];
      if IsLikelySequenceNumber(scored[i].key, filename) {
        sequence := sequence + [scored[i]];
      } else {
        content := content + [scored[i]];
      }
    }
    assert scored[..|scored|] == scored;
  }

  /** `select_best_answer`: build, sort, split, then scan each stage with an early return. */
  method SelectBestAnswer(t: Table, filename: string) returns (r: string)
    requires WellFormed(t)
    ensures r == Selected(t, filename)
  {
    if t.keys == [] {
      return [];
    }
    var entries := EntryList(t);
    var scored := Sort(entries, HigherRank);
    var content, sequence := Split(scored, filename);
    if content != [] {
      var i := FindFirst(content, KnownPick);
      if i < |content| {
        return content[i].key;
      }
      var j := FindFirst(content, ConfidentPick);
      if j < |content| {
        return content[j].key;
      }
      return content[0].key;
    }
    var k := FindFirst(sequence, SequencePick);
    if k < |sequence| {
      return sequence[k].key;
    }
    return [];
  }

  /**
   * What the selector promises. An empty table gives `""`. When some
   * candidate is not a likely sequence number, the answer is such a
   * content candidate: the top-ranked known answer with average confidence
   * above 0.4 if there is one, else the top-ranked one with average above
   * 0.3, else the top-ranked content candidate. Otherwise it is the
   * top-ranked sequence candidate of at least 3 characters with average
   * above 0.7, or `""`. Any non-empty answer is a key of the table.
   */
  lemma SelectedStages(t: Table, filename: string)
    requires WellFormed(t)
    ensures t.stats == map[] ==> Selected(t, filename) == []
    ensures var r := Selected(t, filename); var q := ContentEntry(filename);
      AnyAmong(t, q, Everything) ==>
        if AnyAmong(t, q, KnownPick) then TopAmong(t, r, q, KnownPick)
        else if AnyAmong(t, q, ConfidentPick) then TopAmong(t, r, q, ConfidentPick)
        else TopAmong(t, r, q, Everything)
    ensures var r := Selected(t, filename);
      !AnyAmong(t, ContentEntry(filename), Everything) ==>
        if AnyAmong(t, SequenceEntry(filename), SequencePick) then TopAmong(t, r, SequenceEntry(filename), SequencePick)
        else r == []
    ensures Selected(t, filename) == [] || Selected(t, filename) in t.stats
  {
    if t.keys == [] {
      assert t.stats == map[];
    } else {
      var scored := Sort(Entries(t), HigherRank);
      StrictOrderHigherRank();
      SortSorted(Entries(t), HigherRank);
      assert t.keys[0] in t.stats;
      ContentStages(t, filename, scored);
      SequenceStage(t, filename, scored);
    }
  }

  /** The three content stages of the selector. */
  lemma ContentStages(t: Table, filename: string, scored: seq<Entry>)
    requires WellFormed(t) && t.keys != [] && scored == Sort(Entries(t), HigherRank)
    requires multiset(scored) == multiset(Entries(t)) && Sorted(scored, HigherRank)
    ensures var r := Selected(t, filename); var q := ContentEntry(filename);
      AnyAmong(t, q, Everything) ==>
        if AnyAmong(t, q, KnownPick) then TopAmong(t, r, q, KnownPick)
        else if AnyAmong(t, q, ConfidentPick) then TopAmong(t, r, q, ConfidentPick)
        else TopAmong(t, r, q, Everything)
  {
    var q := ContentEntry(filename);
    var content := Filter(scored, q);
    StageOutcome(t, scored, q, KnownPick);
    StageOutcome(t, scored, q, ConfidentPick);
    StageOutcome(t, scored, q, Everything);
    if content != [] {
      FirstIndexAt(content, Everything, 0);
    }
  }

  /** The sequence-number stage, reached when every candidate is a likely sequence number. */
  lemma SequenceStage(t: Table, filename: string, scored: seq<Entry>)
    requires WellFormed(t) && t.keys != [] && scored == Sort(Entries(t), HigherRank)
    requires multiset(scored) == multiset(Entries(t)) && Sorted(scored, HigherRank)
    ensures var r := Selected(t, filename);
      !AnyAmong(t, ContentEntry(filename), Everything) ==>
        if AnyAmong(t, SequenceEntry(filename), SequencePick) then TopAmong(t, r, SequenceEntry(filename), SequencePick)
        else r == []
  {
    StageOutcome(t, scored, ContentEntry(filename), Everything);
    StageOutcome(t, scored, SequenceEntry(filename), SequencePick);
    FirstIndexAt(Filter(scored, ContentEntry(filename)), Everything, 0);
  }

  // ------------------------------------------------------------ detections

  /** One `readtext` detection of a region, as the recognizer returned it. */
  datatype Detection = Detection(text: string, confidence: real, region: string)

  /** `text and text.strip() and confidence > 0.05`. */
  predicate Passes(d: Detection) {
    Strip(d.text) != [] && d.confidence > 0.05
  }

  /** The `all_results` entry a passing detection becomes: its text stripped. */
  function Observe(d: Detection): Observation {
    Observation(Strip(d.text), d.confidence, d.region)
  }

  /** `ocr_results` of `extract_text_with_easyocr`: the passing detections, stripped, in call order. */
  function Observed(raw: seq<Detection>): (obs: seq<Observation>)
    ensures |obs| <= |raw|
    ensures forall k | 0 <= k < |obs| :: obs[k].text != [] && IsStripped(obs[k].text) && obs[k].confidence > 0.05
  {
    if raw == [] then []
    else
      var d := raw[|raw| - 1];
      Observed(raw[..|raw| - 1]) + (if Passes(d) then [Observe(d)] else [])
  }

  /** Every detection observed, one for one. */
  function ObserveAll(ds: seq<Detection>): (obs: seq<Observation>)
    ensures |obs| == |ds| && forall k | 0 <= k < |ds| :: obs[k] == Observe(ds[k])
  {
    seq(|ds|, k requires 0 <= k < |ds| => Observe(ds[k]))
  }

  lemma ObserveAllSnoc(ds: seq<Detection>, d: Detection)
    ensures ObserveAll(ds + [d]) == ObserveAll(ds) + [Observe(d)]
  {
    var l, r := ObserveAll(ds + [d]), ObserveAll(ds) + [Observe(d)];
    assert |l| == |r|;
    forall k | 0 <= k < |l|
      ensures l[k] == r[k]
    {
      if k < |ds| {
        assert (ds + [d])[k] == ds[k];
      }
    }
  }

  /** The observations are exactly the passing detections, in order, each stripped. */
  lemma {:induction false} ObservedFilter(raw: seq<Detection>)
    ensures Observed(raw) == ObserveAll(Filter(raw, Passes))
  {
    if raw != [] {
      var q := raw[..|raw| - 1];
      ObservedFilter(q);
      var f := Filter(q, Passes);
      if Passes(raw[|raw| - 1]) {
        assert Filter(raw, Passes) == f + [raw[|raw| - 1]];
        ObserveAllSnoc(f, raw[|raw| - 1]);
      } else {
        assert Filter(raw, Passes) == f;
      }
    }
  }

  /** The detection loop over the regions' `readtext` results, in call order. */
  method ExtractTextWithEasyOcr(raw: seq<Detection>) returns (obs: seq<Observation>)
    ensures obs == Observed(raw)
  {
    obs := [];
    for i := 0 to |raw|
      invariant obs == Observed(raw[..i])
    {
      assert raw[..i + 1][..i] == raw[..i];
      if Strip(raw[i].text) != [] && raw[i].confidence > 0.05 {
        obs := obs + [Observation(Strip(raw[i].text), raw[i].confidence, raw[i].region)];
      }
    }
    assert raw[..|raw|] == raw;
  }

  // ------------------------------------------------------------- pipeline

  /** The answer for one image whose readings are `obs`: `""` without readings or candidates. */
  function ImageAnswer(obs: seq<Observation>, filename: string): string {
    CandidateTable(obs);
    var t := Build(AllHits(obs));
    if obs == [] || t.keys == [] then [] else Selected(t, filename)
  }

  /** Detections that are all blank or at most 0.05 confident leave nothing to answer with. */
  lemma {:induction false} FaintImageBlank(raw: seq<Detection>, filename: string)
    requires forall k | 0 <= k < |raw| :: Strip(raw[k].text) == [] || raw[k].confidence <= 0.05
    ensures Observed(raw) == [] && ImageAnswer(Observed(raw), filename) == []
  {
    if raw != [] {
      FaintImageBlank(raw[..|raw| - 1], filename);
    }
  }

  /**
   * `process_single_image` after the recognizer has produced the detections
   * `raw`: they are filtered into `ocr_results`, which give `""` when empty or
   * without candidates, and otherwise the selected candidate.
   */
  method ProcessSingleImage(raw: seq<Detection>, filename: string) returns (answer: string)
    ensures answer == ImageAnswer(Observed(raw), filename)
    ensures answer == [] || answer in Build(AllHits(Observed(raw))).stats
  {
    var obs := ExtractTextWithEasyOcr(raw);
    if obs == [] {
      return [];
    }
    var t := ExtractCandidates(obs);
    CandidateTable(obs);
    if t.keys == [] {
      return [];
    }
    SelectedStages(t, filename);
    answer := SelectBestAnswer(t, filename);
  }
}
