/**
 * The single-pass answer extractor: one adaptive binarization of the
 * bottom-left crop, one `chi_sim` and one `eng` reading, the longer of
 * the two (after stripping) cleaned by the six-pattern cleaner with the
 * character filter, and the update loop over the records whose image
 * file is present.
 */
module OcrExtractor {
  import opened Wrappers
  import opened Text
  import opened Cleaning
  import opened Regions
  import opened Records

  /** `clean_extracted_text`: the six common patterns, then the filter. */
  const ExtractorClean := CleanConfig(SerialPrefixes, true)

  /** The crop of `preprocess_image_for_ocr` with `region_ratio=0.3`. */
  function Crop(w: nat, h: nat): Region {
    Region("left_bottom", 0, At(h, 70), At(w, 30), h)
  }

  /** `text_chi if len(text_chi.strip()) > len(text_eng.strip()) else text_eng`. */
  function PickText(chi: string, eng: string): (t: string)
    ensures t == chi || t == eng
    ensures t == chi <== |Strip(chi)| > |Strip(eng)|
    ensures t == eng <== |Strip(chi)| <= |Strip(eng)|
  {
    if |Strip(chi)| > |Strip(eng)| then chi else eng
  }

  /**
   * `extract_text_from_image` for an image of `w` by `h` pixels (`readable`
   * says `cv2.imread` succeeded) whose processed crop the recognizer reads
   * as `chi` and `eng` (`None` for a call that raises): `""` when the image
   * cannot be read or the crop is empty (the preprocessing handler returns
   * `None`), `""` when either call raises (the handler around both calls
   * returns it), else the cleaned choice.
   */
  function ExtractText(readable: bool, w: nat, h: nat, chi: Option<string>, eng: Option<string>): string {
    if !readable || !NonEmpty(Crop(w, h)) then []
    else if chi.None? || eng.None? then []
    else Cleaned(PickText(chi.value, eng.value), ExtractorClean)
  }

  /**
   * The extractor gives `""` when there is no processed image or a
   * recognizer call raises, even when the `chi_sim` call before a failing
   * `eng` call succeeded; otherwise the cleaned `chi_sim` reading when it
   * is strictly longer, the cleaned `eng` one on ties and when it is
   * longer. The result holds only meaningful characters and no whitespace.
   */
  lemma ExtractTextCases(readable: bool, w: nat, h: nat, chi: Option<string>, eng: Option<string>)
    ensures !readable || !NonEmpty(Crop(w, h)) || chi.None? || eng.None? ==> ExtractText(readable, w, h, chi, eng) == []
    ensures readable && NonEmpty(Crop(w, h)) && chi.Some? && eng.Some? ==>
      ExtractText(readable, w, h, chi, eng)
        == Cleaned(if |Strip(chi.value)| > |Strip(eng.value)| then chi.value else eng.value, ExtractorClean)
    ensures readable && NonEmpty(Crop(w, h)) && chi.Some? && eng.Some? && |Strip(chi.value)| == |Strip(eng.value)| ==>
      ExtractText(readable, w, h, chi, eng) == Cleaned(eng.value, ExtractorClean)
    ensures var t := ExtractText(readable, w, h, chi, eng);
      forall i | 0 <= i < |t| :: Meaningful(t[i]) && !IsSpace(t[i])
  {
    if readable && NonEmpty(Crop(w, h)) && chi.Some? && eng.Some? {
      CleanedShape(PickText(chi.value, eng.value), ExtractorClean);
    }
  }

  /** The crop lies inside the image and is non-empty once the image is 4 pixels wide. */
  lemma CropShape(w: nat, h: nat)
    ensures Within(Crop(w, h), w, h)
    ensures w >= 4 && h >= 1 ==> NonEmpty(Crop(w, h))
  {
    AtBounded(w, 30);
    AtBounded(h, 70);
  }

  /**
   * `process_directory`: `available[i]` is whether record `i`'s image file
   * exists and `ocr[i]` what `extract_text_from_image` returns for it.
   * Records with a present image and an empty or placeholder answer
   * change, only to a non-empty text; the file is rewritten only when
   * `updateJson` is set and something was updated.
   */
  method ProcessDirectory(rs: seq<Record>, ocr: seq<string>, available: seq<bool>, updateJson: bool)
    returns (result: seq<Record>, updated: nat, saved: bool)
    requires |ocr| == |rs| == |available|
    ensures |result| == |rs|
    ensures forall i | 0 <= i < |rs| ::
      result[i] == if available[i] && IsUnanswered(rs[i]) && ocr[i] != [] then rs[i].(answer := ocr[i]) else rs[i]
    ensures updated == CountUpdated(PresentAndUnanswered, rs, ocr, available)
    ensures saved <==> updateJson && exists i | 0 <= i < |rs| :: available[i] && IsUnanswered(rs[i]) && ocr[i] != []
  {
    var pending;
    result, updated, pending, saved := UpdateAnswers(PresentAndUnanswered, rs, ocr, available, updateJson);
    UpdatedPositive(PresentAndUnanswered, rs, ocr, available);
  }
}
