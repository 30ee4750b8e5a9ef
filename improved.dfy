/**
 * The improved recognition test: four crop sizes of the bottom-left
 * corner, six preprocessing methods each scaled by 3, four tesseract
 * configurations in two languages, and the longest cleaned reading.
 */
module ImprovedOcr {
  import opened Wrappers
  import opened Text
  import opened Cleaning
  import opened Regions
  import opened Imaging
  import opened Tesseract

  /** `clean_text`: the six common patterns, then the filter. */
  const ImprovedClean := CleanConfig(SerialPrefixes, true)

  const Configs: seq<string> := ["--oem 3 --psm 6", "--oem 3 --psm 7", "--oem 3 --psm 8", "--oem 3 --psm 13"]

  /** The crops for `region_ratios = [0.25, 0.3, 0.35, 0.4]`: `[int(h*(1-r)), h) x [0, int(w*r))`. */
  function RegionTable(w: nat, h: nat): seq<Region> {
    [ Region("ratio25", 0, At(h, 75), At(w, 25), h),
      Region("ratio30", 0, At(h, 70), At(w, 30), h),
      Region("ratio35", 0, At(h, 65), At(w, 35), h),
      Region("ratio40", 0, At(h, 60), At(w, 40), h) ]
  }

  const Methods: seq<string> := ["binary_simple", "binary_otsu", "adaptive", "inverted", "morphed", "blur_binary"]
  const Scales: seq<nat> := [3]

  /** Once the image is 4 pixels wide every crop is inside it and non-empty. */
  lemma RegionTableShape(w: nat, h: nat)
    ensures forall r | r in RegionTable(w, h) :: Within(r, w, h)
    ensures w >= 4 && h >= 1 ==> forall r | r in RegionTable(w, h) :: NonEmpty(r)
  {
    AtBounded(w, 25); AtBounded(w, 30); AtBounded(w, 35); AtBounded(w, 40);
    AtBounded(h, 60); AtBounded(h, 65); AtBounded(h, 70); AtBounded(h, 75);
    AtMonotone(w, 25, 30); AtMonotone(w, 25, 35); AtMonotone(w, 25, 40);
  }

  lemma AllKept(rs: seq<Region>)
    requires forall r | r in rs :: NonEmpty(r)
    ensures KeepNonEmpty(rs) == rs
  {
    if rs != [] {
      AllKept(rs[..|rs| - 1]);
      assert rs == rs[..|rs| - 1] + [rs[|rs| - 1]];
    }
  }

  /** The crops are all non-empty exactly when the image is at least 4 pixels wide and 1 high. */
  lemma {:induction false} CropsNonEmpty(w: nat, h: nat)
    ensures (forall r | r in RegionTable(w, h) :: NonEmpty(r)) <==> (w >= 4 && h >= 1)
  {
    RegionTableShape(w, h);
    if w < 4 {
      assert w * 25 < 100;
      assert !NonEmpty(RegionTable(w, h)[0]);
    } else if h == 0 {
      assert !NonEmpty(RegionTable(w, h)[0]);
    }
  }

  /**
   * `preprocess_image_multiple_ways`: no images when `cv2.imread` cannot
   * read the file (`readable` false); otherwise the six methods of every
   * crop in ratio order, 24 images in all. The crops are not checked for
   * size, so the first empty one makes the grayscale conversion in
   * `get_preprocessing_methods` raise, and nothing above it catches the
   * error.
   */
  method PreprocessImages(readable: bool, w: nat, h: nat) returns (r: Result<seq<Variant>>)
    ensures !readable ==> r == Ok([])
    ensures r.Err? <==> readable && !(w >= 4 && h >= 1)
    ensures r.Err? ==> r.error == CvError
    ensures readable && r.Ok? ==> r.value == Expand(RegionTable(w, h), Methods, Scales) && |r.value| == 24
    ensures r.Ok? ==> forall v | v in r.value :: v.region < 4 && v.step in Methods && v.scale == 3
  {
    if !readable {
      return Ok([]);
    }
    var table := RegionTable(w, h);
    CropsNonEmpty(w, h);
    for i := 0 to |table|
      invariant forall k | 0 <= k < i :: NonEmpty(table[k])
    {
      if !NonEmpty(table[i]) {
        return Err(CvError);
      }
    }
    var images := ExpandRegions(table, Methods, Scales);
    ExpandLength(table, Methods, Scales);
    ExpandMembers(table, Methods, Scales);
    AllKept(table);
    return Ok(images);
  }

  /** The answer of `test_image`: `None` without cleaned readings, else the longest cleaned text. */
  function TestAnswer(images: seq<Variant>, recognize: Recognizer): Option<string> {
    var cs := CleanedReadings(AllReadings(images, Configs, recognize), ImprovedClean);
    if cs == [] then None else Some(LongestText(cs))
  }

  /**
   * `test_image` on an image of `w` by `h` pixels: `None` when the file
   * cannot be read, the preprocessing error when a crop is empty, and
   * otherwise the answer over the 24 images.
   */
  method TestImage(readable: bool, w: nat, h: nat, recognize: Recognizer) returns (r: Result<Option<string>>)
    ensures !readable ==> r == Ok(None)
    ensures r.Err? <==> readable && !(w >= 4 && h >= 1)
    ensures readable && r.Ok? ==> r.value == TestAnswer(Expand(RegionTable(w, h), Methods, Scales), recognize)
  {
    var pre := PreprocessImages(readable, w, h);
    if pre.Err? {
      return Err(pre.error);
    }
    var images := pre.value;
    var results := RecognizeAll(images, Configs, recognize);
    if results == [] {
      return Ok(None);
    }
    var cleaned := CleanReadings(results, ImprovedClean);
    if cleaned == [] {
      return Ok(None);
    }
    var t := FindLongestText(cleaned);
    return Ok(Some(t));
  }

  /**
   * `None` exactly when no reading survives the cleaner; otherwise a non-empty cleaned
   * text of one reading that no cleaned reading exceeds, every earlier
   * one being strictly shorter.
   */
  lemma TestAnswerCases(images: seq<Variant>, recognize: Recognizer)
    ensures var cs := CleanedReadings(AllReadings(images, Configs, recognize), ImprovedClean);
      (TestAnswer(images, recognize).None? <==> cs == [])
      && (cs != [] ==>
            TestAnswer(images, recognize).value != []
            && (exists i | 0 <= i < |cs| :: cs[i].text == TestAnswer(images, recognize).value
                  && forall j | 0 <= j < i :: |cs[j].text| < |TestAnswer(images, recognize).value|)
            && forall c | c in cs :: |c.text| <= |TestAnswer(images, recognize).value|)
  {
    var cs := CleanedReadings(AllReadings(images, Configs, recognize), ImprovedClean);
    if cs != [] {
      LongestTextIsFirstMaximum(cs);
    }
  }
}
