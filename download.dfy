/**
 * The download-and-recognize tool: three scaled binarizations of the
 * bottom-left crop, three tesseract configurations in two languages, the
 * seven-pattern cleaner with the character filter, and a choice that
 * prefers the longest cleaned `chi_sim` reading.
 */
module DownloadOcr {
  import opened Text
  import opened Sorting
  import opened Cleaning
  import opened Regions
  import opened Imaging
  import opened Records
  import opened Tesseract

  /** `clean_extracted_text`: the six common patterns, then `^\d+\)`, then the filter. */
  const DownloadClean := CleanConfig(SerialPrefixes + [DigitsParen], true)

  const Configs: seq<string> := ["--oem 3 --psm 6", "--oem 3 --psm 7", "--oem 3 --psm 8"]

  /** The crop of `preprocess_for_ocr` with `region_ratio=0.3`: `[int(h*0.7), h) x [0, int(w*0.3))`. */
  function RegionTable(w: nat, h: nat): seq<Region> {
    [Region("left_bottom", 0, At(h, 70), At(w, 30), h)]
  }

  const Methods: seq<string> := ["otsu", "otsu_inv", "adaptive"]
  const Scales: seq<nat> := [4]

  /**
   * `preprocess_for_ocr` on a readable image: the three binarizations of the
   * crop scaled by 4, in order; none when the crop is empty (the grayscale
   * conversion raises and the handler returns `[]`).
   */
  method PreprocessImages(w: nat, h: nat) returns (images: seq<Variant>)
    ensures images == Expand(RegionTable(w, h), Methods, Scales)
    ensures NonEmpty(RegionTable(w, h)[0]) ==>
      images == [Variant(0, "otsu", 4), Variant(0, "otsu_inv", 4), Variant(0, "adaptive", 4)]
    ensures !NonEmpty(RegionTable(w, h)[0]) ==> images == []
  {
    images := ExpandRegions(RegionTable(w, h), Methods, Scales);
    assert RegionTable(w, h)[..0] == [];
    if NonEmpty(RegionTable(w, h)[0]) {
      var m0, m1, m2 := [Variant(0, "otsu", 4)], [Variant(0, "otsu_inv", 4)], [Variant(0, "adaptive", 4)];
      assert ScaleVariants(0, "otsu", Scales) == m0;
      assert ScaleVariants(0, "otsu_inv", Scales) == m1;
      assert ScaleVariants(0, "adaptive", Scales) == m2;
      var mvs := MethodVariants(0, Methods, Scales);
      assert mvs == [m0, m1, m2];
      assert mvs[..2] == [m0, m1] && [m0, m1][..1] == [m0] && [m0][..0] == [];
      assert Concat([m0]) == m0;
      assert Concat([m0, m1]) == m0 + m1;
      assert Concat(mvs) == m0 + m1 + m2;
    }
  }

  /** The crop lies inside the image; it is non-empty as soon as the image is 4 pixels wide. */
  lemma RegionTableShape(w: nat, h: nat)
    ensures Within(RegionTable(w, h)[0], w, h)
    ensures w >= 4 && h >= 1 ==> NonEmpty(RegionTable(w, h)[0])
  {
    AtBounded(w, 30);
    AtBounded(h, 70);
  }

  // ------------------------------------------------------------ selection

  const IsChinese: Reading -> bool := (r: Reading) => r.lang == ChiSim

  /** The answer `ocr_single_image` picks from the cleaned readings. */
  function Chosen(cleaned: seq<Reading>): string {
    if cleaned == [] then []
    else if Filter(cleaned, IsChinese) != [] then LongestText(Filter(cleaned, IsChinese))
    else LongestText(cleaned)
  }

  /** The answer for a readable image cut into `images`. */
  function ImageAnswer(images: seq<Variant>, recognize: Recognizer): string {
    if images == [] then []
    else Chosen(CleanedReadings(AllReadings(images, Configs, recognize), DownloadClean))
  }

  /** `ocr_single_image` after preprocessing. */
  method OcrSingleImage(images: seq<Variant>, recognize: Recognizer) returns (answer: string)
    ensures answer == ImageAnswer(images, recognize)
  {
    if images == [] {
      return [];
    }
    var results := RecognizeAll(images, Configs, recognize);
    if results == [] {
      return [];
    }
    var cleaned := CleanReadings(results, DownloadClean);
    if cleaned == [] {
      return [];
    }
    answer := ChooseAnswer(cleaned);
  }

  /** The `chi_sim` filter loop and the longest-text choice. */
  method ChooseAnswer(cleaned: seq<Reading>) returns (answer: string)
    requires cleaned != []
    ensures answer == Chosen(cleaned)
  {
    var chi := [];
    for i := 0 to |cleaned|
      invariant chi == Filter(cleaned[..i], IsChinese)
    {
      assert cleaned[..i + 1][..i] == cleaned[..i];
      if cleaned[i].lang == ChiSim {
        chi := chi + [cleaned[i]];
      }
    }
    assert cleaned[..|cleaned|] == cleaned;
    if chi != [] {
      answer := FindLongestText(chi);
    } else {
      answer := FindLongestText(cleaned);
    }
  }

  /**
   * A text of language `lang` is the preferred choice among `cs`: it is
   * `chi_sim` unless no reading is, and no reading of the preferred
   * language is longer.
   */
  ghost predicate Preferred(cs: seq<Reading>, lang: Lang, t: string) {
    (lang == ChiSim || forall d | d in cs :: d.lang != ChiSim)
    && forall d | d in cs && (d.lang == ChiSim || lang != ChiSim) :: |d.text| <= |t|
  }

  /** The choice among cleaned readings is the text of one of them, and the preferred one. */
  lemma ChosenCases(cs: seq<Reading>)
    requires cs != []
    ensures exists c | c in cs :: Chosen(cs) == c.text && Preferred(cs, c.lang, c.text)
  {
    var chi := Filter(cs, IsChinese);
    var pool := if chi != [] then chi else cs;
    assert Chosen(cs) == LongestText(pool);
    LongestTextIsFirstMaximum(pool);
    var i :| 0 <= i < |pool| && pool[i].text == Chosen(cs);
    var c := pool[i];
    assert c in cs;
    if chi == [] {
      forall d | d in cs ensures d.lang != ChiSim {
        var k :| 0 <= k < |cs| && cs[k] == d;
      }
    } else {
      assert c.lang == ChiSim;
      forall d | d in cs && d.lang == ChiSim ensures |d.text| <= |Chosen(cs)| {
        var k :| 0 <= k < |cs| && cs[k] == d;
        assert d in chi;
      }
    }
    assert Preferred(cs, c.lang, c.text);
  }

  /** The choice over the readings of `rs` cleaned by `cfg` is the cleaned text of one reading, the preferred one. */
  lemma ChosenOfReadings(rs: seq<Reading>, cfg: CleanConfig)
    ensures var cs := CleanedReadings(rs, cfg);
      (Chosen(cs) == [] <==> cs == [])
      && (cs != [] ==> exists r | r in rs :: Chosen(cs) == Cleaned(r.text, cfg) && Preferred(cs, r.lang, Chosen(cs)))
  {
    var cs := CleanedReadings(rs, cfg);
    if cs != [] {
      ChosenCases(cs);
      CleanedReadingsSound(rs, cfg);
      var c :| c in cs && Chosen(cs) == c.text && Preferred(cs, c.lang, c.text);
      var r :| r in rs && c == r.(text := Cleaned(r.text, cfg));
      assert Chosen(cs) == Cleaned(r.text, cfg) && Preferred(cs, r.lang, Chosen(cs));
    }
  }

  /**
   * No images, no readings or nothing surviving the cleaner give `""`.
   * Otherwise the answer is the cleaned text of one reading: a
   * `chi_sim` one, no shorter than any other cleaned `chi_sim` reading,
   * when one exists, else one no shorter than any cleaned reading; it
   * holds only meaningful characters, none of them whitespace.
   */
  lemma ImageAnswerCases(images: seq<Variant>, recognize: Recognizer)
    ensures var rs := AllReadings(images, Configs, recognize);
      var cs := CleanedReadings(rs, DownloadClean);
      var a := ImageAnswer(images, recognize);
      (a == [] <==> images == [] || cs == [])
      && (images != [] && cs != [] ==>
        exists r | r in rs :: a == Cleaned(r.text, DownloadClean) && Preferred(cs, r.lang, a))
      && forall i | 0 <= i < |a| :: Meaningful(a[i]) && !IsSpace(a[i])
  {
    var rs := AllReadings(images, Configs, recognize);
    ChosenOfReadings(rs, DownloadClean);
    var cs := CleanedReadings(rs, DownloadClean);
    if images != [] && cs != [] {
      var r :| r in rs && Chosen(cs) == Cleaned(r.text, DownloadClean);
      CleanedShape(r.text, DownloadClean);
    }
  }

  // ---------------------------------------------------------- update loop

  /**
   * `process_answers_json` after its downloads: `available[i]` is whether
   * record `i`'s original image is on disk after the download step and
   * `ocr[i]` what `ocr_single_image` returns for it. Only records with an
   * empty or placeholder answer and a URL whose image is available change,
   * only to a non-empty answer; the file is written only when
   * `updateAnswers` is set and something was updated.
   */
  method ProcessAnswersJson(rs: seq<Record>, ocr: seq<string>, available: seq<bool>, updateAnswers: bool)
    returns (result: seq<Record>, updated: nat, saved: bool)
    requires |ocr| == |rs| == |available|
    ensures |result| == |rs|
    ensures forall i | 0 <= i < |rs| ::
      result[i] == if IsUnanswered(rs[i]) && rs[i].url != [] && available[i] && ocr[i] != []
                   then rs[i].(answer := ocr[i]) else rs[i]
    ensures saved <==> updateAnswers && exists i | 0 <= i < |rs| ::
      IsUnanswered(rs[i]) && rs[i].url != [] && available[i] && ocr[i] != []
    ensures updated == CountUpdated(UnansweredWithUrl, rs, ocr, available)
  {
    var pending;
    result, updated, pending, saved := UpdateAnswers(UnansweredWithUrl, rs, ocr, available, updateAnswers);
    UpdatedPositive(UnansweredWithUrl, rs, ocr, available);
  }
}
