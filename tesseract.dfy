/**
 * The recognition loops of the multi-configuration tesseract tools: for
 * every preprocessed image and every configuration string, one `chi_sim`
 * call and then one `eng` call, each output kept (stripped) when it is
 * not blank; a call that raises ends that configuration's turn (so a
 * failing `chi_sim` call also skips the `eng` one); and the cleaning pass
 * over those readings. The recognizer itself is a function parameter.
 */
module Tesseract {
  import opened Wrappers
  import opened Text
  import opened Sorting
  import opened Cleaning
  import opened Imaging

  datatype Lang = ChiSim | Eng

  /** One entry of `all_results`: language, image, configuration and stripped text. */
  datatype Reading = Reading(lang: Lang, image: Variant, config: string, text: string)

  /**
   * `pytesseract.image_to_string(img, lang, config)` for the image,
   * configuration and language: the text, or `None` when the call raises.
   */
  type Recognizer = (Variant, string, Lang) -> Option<string>

  /** `if text.strip(): all_results.append(... text.strip())` for one call that returned. */
  function Call(v: Variant, config: string, lang: Lang, recognize: Recognizer): seq<Reading> {
    match recognize(v, config, lang)
    case None => []
    case Some(out) =>
      var t := Strip(out);
      if t != [] then [Reading(lang, v, config, t)] else []
  }

  /**
   * One turn of the configuration loop, inside its `try`: the `chi_sim`
   * call and then the `eng` call; when the `chi_sim` call raises, the
   * `eng` call is never made.
   */
  function ConfigReadings(v: Variant, config: string, recognize: Recognizer): seq<Reading> {
    if recognize(v, config, ChiSim).None? then []
    else Call(v, config, ChiSim, recognize) + Call(v, config, Eng, recognize)
  }

  /** The readings of one image, configurations in order. */
  function ImageReadings(v: Variant, configs: seq<string>, recognize: Recognizer): seq<Reading> {
    if configs == [] then []
    else
      var c := configs[|configs| - 1];
      ImageReadings(v, configs[..|configs| - 1], recognize) + ConfigReadings(v, c, recognize)
  }

  /** `all_results` over the images in order. */
  function AllReadings(images: seq<Variant>, configs: seq<string>, recognize: Recognizer): seq<Reading> {
    if images == [] then []
    else
      AllReadings(images[..|images| - 1], configs, recognize)
      + ImageReadings(images[|images| - 1], configs, recognize)
  }

  /** The body of the configuration loop: the `try` block for one configuration. */
  method RecognizeConfig(v: Variant, config: string, recognize: Recognizer) returns (rs: seq<Reading>)
    ensures rs == ConfigReadings(v, config, recognize)
  {
    rs := [];
    var chi := recognize(v, config, ChiSim);
    if chi.None? {
      return;
    }
    var t := Strip(chi.value);
    if t != [] {
      rs := rs + [Reading(ChiSim, v, config, t)];
    }
    var eng := recognize(v, config, Eng);
    if eng.None? {
      return;
    }
    var e := Strip(eng.value);
    if e != [] {
      rs := rs + [Reading(Eng, v, config, e)];
    }
  }

  /** The configuration loop for one image. */
  method RecognizeImage(v: Variant, configs: seq<string>, recognize: Recognizer) returns (rs: seq<Reading>)
    ensures rs == ImageReadings(v, configs, recognize)
  {
    rs := [];
    for i := 0 to |configs|
      invariant rs == ImageReadings(v, configs[..i], recognize)
    {
      assert configs[..i + 1][..i] == configs[..i];
      var more := RecognizeConfig(v, configs[i], recognize);
      rs := rs + more;
    }
    assert configs[..|configs|] == configs;
  }

  /** `extract_text_from_processed_images` / `extract_text_comprehensive`: the image loop. */
  method RecognizeAll(images: seq<Variant>, configs: seq<string>, recognize: Recognizer) returns (rs: seq<Reading>)
    ensures rs == AllReadings(images, configs, recognize)
  {
    rs := [];
    for i := 0 to |images|
      invariant rs == AllReadings(images[..i], configs, recognize)
    {
      assert images[..i + 1][..i] == images[..i];
      var more := RecognizeImage(images[i], configs, recognize);
      rs := rs + more;
    }
    assert images[..|images|] == images;
  }

  /**
   * A reading is the non-blank, stripped output of a recognizer call that
   * returned, on a listed image and configuration; an `eng` reading also
   * needs the `chi_sim` call before it to have returned.
   */
  predicate FromRecognizer(r: Reading, images: seq<Variant>, configs: seq<string>, recognize: Recognizer) {
    r.image in images && r.config in configs
    && recognize(r.image, r.config, r.lang).Some?
    && r.text != [] && r.text == Strip(recognize(r.image, r.config, r.lang).value)
    && (r.lang == Eng ==> recognize(r.image, r.config, ChiSim).Some?)
  }

  lemma {:induction false} ImageReadingsSound(v: Variant, configs: seq<string>, recognize: Recognizer)
    ensures forall r | r in ImageReadings(v, configs, recognize) :: FromRecognizer(r, [v], configs, recognize)
    ensures |ImageReadings(v, configs, recognize)| <= 2 * |configs|
  {
    if configs != [] {
      var p := configs[..|configs| - 1];
      var c := configs[|configs| - 1];
      ImageReadingsSound(v, p, recognize);
      var head := ImageReadings(v, p, recognize);
      assert ImageReadings(v, configs, recognize) == head + ConfigReadings(v, c, recognize);
      forall r | r in head ensures FromRecognizer(r, [v], configs, recognize) {
        assert r.config in p;
      }
      if recognize(v, c, ChiSim).Some? {
        CallSound(v, c, ChiSim, recognize, configs);
        CallSound(v, c, Eng, recognize, configs);
      }
    }
  }

  lemma CallSound(v: Variant, c: string, lang: Lang, recognize: Recognizer, configs: seq<string>)
    requires c in configs && (lang == Eng ==> recognize(v, c, ChiSim).Some?)
    ensures forall r | r in Call(v, c, lang, recognize) :: FromRecognizer(r, [v], configs, recognize)
    ensures |Call(v, c, lang, recognize)| <= 1
  {
  }

  /**
   * Every reading is the stripped, non-blank output of one recognizer call
   * on a listed image and configuration, and there are at most two per
   * image and configuration.
   */
  lemma {:induction false} AllReadingsSound(images: seq<Variant>, configs: seq<string>, recognize: Recognizer)
    ensures forall r | r in AllReadings(images, configs, recognize) :: FromRecognizer(r, images, configs, recognize)
    ensures |AllReadings(images, configs, recognize)| <= |images| * (2 * |configs|)
  {
    if images != [] {
      var p := images[..|images| - 1];
      var v := images[|images| - 1];
      AllReadingsSound(p, configs, recognize);
      ImageReadingsSound(v, configs, recognize);
      assert forall u | u in p :: u in images;
      MulNext(|p|, 2 * |configs|);
    }
  }

  /** A recognizer that everywhere raises or returns blank text gives no readings. */
  lemma {:induction false} AllReadingsBlank(images: seq<Variant>, configs: seq<string>, recognize: Recognizer)
    requires forall v, c, l :: recognize(v, c, l).None? || Strip(recognize(v, c, l).value) == []
    ensures AllReadings(images, configs, recognize) == []
  {
    if images != [] {
      AllReadingsBlank(images[..|images| - 1], configs, recognize);
      ImageReadingsBlank(images[|images| - 1], configs, recognize);
    }
  }

  lemma {:induction false} ImageReadingsBlank(v: Variant, configs: seq<string>, recognize: Recognizer)
    requires forall v, c, l :: recognize(v, c, l).None? || Strip(recognize(v, c, l).value) == []
    ensures ImageReadings(v, configs, recognize) == []
  {
    if configs != [] {
      ImageReadingsBlank(v, configs[..|configs| - 1], recognize);
    }
  }

  // ------------------------------------------------------------- cleaning

  /** `cleaned_results`: each reading with its cleaned text, those that clean to `""` dropped. */
  function CleanedReadings(rs: seq<Reading>, cfg: CleanConfig): (cs: seq<Reading>)
    ensures |cs| <= |rs|
    ensures forall c | c in cs :: c.text != []
  {
    if rs == [] then []
    else
      var r := rs[|rs| - 1];
      var c := Cleaned(r.text, cfg);
      CleanedReadings(rs[..|rs| - 1], cfg) + (if c != [] then [r.(text := c)] else [])
  }

  /** Every cleaned reading is a reading of `rs` with its text replaced by the cleaned text. */
  lemma {:induction false} CleanedReadingsSound(rs: seq<Reading>, cfg: CleanConfig)
    ensures forall c | c in CleanedReadings(rs, cfg) :: exists r | r in rs :: c == r.(text := Cleaned(r.text, cfg))
  {
    if rs != [] {
      var p := rs[..|rs| - 1];
      var r := rs[|rs| - 1];
      CleanedReadingsSound(p, cfg);
      forall c | c in CleanedReadings(rs, cfg) ensures exists x | x in rs :: c == x.(text := Cleaned(x.text, cfg)) {
        if c in CleanedReadings(p, cfg) {
          var x :| x in p && c == x.(text := Cleaned(x.text, cfg));
          assert x in rs;
        } else {
          assert c == r.(text := Cleaned(r.text, cfg)) && r in rs;
        }
      }
    }
  }

  lemma CleanedReadingsNext(rs: seq<Reading>, cfg: CleanConfig, i: nat)
    requires i < |rs|
    ensures CleanedReadings(rs[..i + 1], cfg) == CleanedReadings(rs[..i], cfg)
      + (if Cleaned(rs[i].text, cfg) != [] then [rs[i].(text := Cleaned(rs[i].text, cfg))] else [])
  {
    assert rs[..i + 1][..i] == rs[..i];
  }

  /** The cleaning loop. */
  method CleanReadings(rs: seq<Reading>, cfg: CleanConfig) returns (cs: seq<Reading>)
    ensures cs == CleanedReadings(rs, cfg)
  {
    cs := [];
    for i := 0 to |rs|
      invariant cs == CleanedReadings(rs[..i], cfg)
    {
      CleanedReadingsNext(rs, cfg, i);
      var cleaned := CleanText(rs[i].text, cfg);
      if cleaned != [] {
        cs := cs + [rs[i].(text := cleaned)];
      }
    }
    assert rs[..|rs|] == rs;
  }

  /** The texts of the readings, in order. */
  function Texts(rs: seq<Reading>): (ts: seq<string>)
    ensures |ts| == |rs| && forall i | 0 <= i < |rs| :: ts[i] == rs[i].text
  {
    seq(|rs|, i requires 0 <= i < |rs| => rs[i].text)
  }

  /** `max(results, key=lambda x: len(cleaned))` on non-empty readings: the first longest text. */
  function LongestText(rs: seq<Reading>): string
    requires rs != []
  {
    Longest(Texts(rs))
  }

  /** The longest text is the text of a reading, no reading is longer, and every earlier reading is shorter. */
  lemma LongestTextIsFirstMaximum(rs: seq<Reading>)
    requires rs != []
    ensures exists i | 0 <= i < |rs| :: rs[i].text == LongestText(rs) && forall j | 0 <= j < i :: |rs[j].text| < |LongestText(rs)|
    ensures forall r | r in rs :: |r.text| <= |LongestText(rs)|
  {
    LongestIsFirstMaximum(Texts(rs));
    var i :| 0 <= i < |Texts(rs)| && Texts(rs)[i] == LongestText(rs) && forall j | 0 <= j < i :: |Texts(rs)[j]| < |LongestText(rs)|;
    assert rs[i].text == LongestText(rs);
  }

  method FindLongestText(rs: seq<Reading>) returns (t: string)
    requires rs != []
    ensures t == LongestText(rs)
  {
    var ts := [];
    for i := 0 to |rs|
      invariant ts == Texts(rs[..i])
    {
      ts := ts + [rs[i].text];
    }
    assert rs[..|rs|] == rs;
    t := FindLongest(ts);
  }
}
