/**
 * The smart answer masker: EasyOCR detections in ten search regions,
 * kept when confident and not blank, promoted to priority 0 when they
 * match the expected answer, sorted by priority and then confidence; and
 * the choice of which detections to paint over.
 */
module AnswerMasker {
  import opened Text
  import opened Sorting
  import opened Regions

  // ------------------------------------------------------------ matching

  /** `ocr_error_chars`, in insertion order: one character the recognizer confuses with another. */
  const ErrorChars: seq<(char, char)> := [('o', '0'), ('0', 'o'), ('i', '1'), ('1', 'i'), ('l', '1')]

  /** Some fix among `fixes`, replacing every occurrence of its character, turns `d` into `e`. */
  function AnyFix(d: string, e: string, fixes: seq<(char, char)>): (b: bool)
    ensures b <==> exists k | 0 <= k < |fixes| :: Replace(d, [fixes[k].0], [fixes[k].1]) == e
  {
    if fixes == [] then false
    else
      var k := |fixes| - 1;
      var b := AnyFix(d, e, fixes[..k]);
      assert forall j | 0 <= j < k :: fixes[..k][j] == fixes[j];
      b || Replace(d, [fixes[k].0], [fixes[k].1]) == e
  }

  /** `_is_answer_match`, with `lower()` on ASCII letters. */
  function AnswerMatch(detected: string, expected: string): bool {
    if detected == [] || expected == [] then false
    else
      var d := Lower(Strip(detected));
      var e := Lower(Strip(expected));
      d == e || Contains(d, e) || Contains(e, d) || AnyFix(d, e, ErrorChars)
  }

  /** The loop over `ocr_error_chars`: stop at the first fix that turns `d` into `e`. */
  method FindFix(d: string, e: string, fixes: seq<(char, char)>) returns (b: bool)
    ensures b == AnyFix(d, e, fixes)
  {
    for i := 0 to |fixes|
      invariant !AnyFix(d, e, fixes[..i])
    {
      assert fixes[..i + 1][..i] == fixes[..i];
      if Replace(d, [fixes[i].0], [fixes[i].1]) == e {
        return true;
      }
    }
    assert fixes[..|fixes|] == fixes;
    return false;
  }

  /** `_is_answer_match`. */
  method IsAnswerMatch(detected: string, expected: string) returns (b: bool)
    ensures b == AnswerMatch(detected, expected)
  {
    if detected == [] || expected == [] {
      return false;
    }
    var d := Lower(Strip(detected));
    var e := Lower(Strip(expected));
    if d == e || Contains(d, e) || Contains(e, d) {
      return true;
    }
    b := FindFix(d, e, ErrorChars);
  }

  /**
   * Empty arguments never match. Texts that are equal, or one inside the
   * other, up to surrounding whitespace and ASCII case, always match;
   * otherwise they match exactly when one listed fix of the detected text
   * gives the expected one.
   */
  lemma AnswerMatchCases(detected: string, expected: string)
    ensures detected == [] || expected == [] ==> !AnswerMatch(detected, expected)
    ensures detected != [] && expected != [] ==>
      var d := Lower(Strip(detected));
      var e := Lower(Strip(expected));
      (d == e || Contains(d, e) || Contains(e, d) ==> AnswerMatch(detected, expected))
      && (!(d == e || Contains(d, e) || Contains(e, d)) ==>
            (AnswerMatch(detected, expected) <==>
              exists k | 0 <= k < |ErrorChars| :: Replace(d, [ErrorChars[k].0], [ErrorChars[k].1]) == e))
  {
  }

  /** Matching is symmetric but for the fixes: containment either way is enough. */
  lemma AnswerMatchContainment(detected: string, expected: string)
    requires detected != [] && expected != []
    ensures Contains(Lower(Strip(detected)), Lower(Strip(expected))) ==> AnswerMatch(detected, expected) && AnswerMatch(expected, detected)
  {
  }

  // ----------------------------------------------------------- detection

  /** A search region and its priority (1 highest). */
  datatype SearchRegion = SearchRegion(area: Region, priority: nat)

  /** `search_regions`, highest priority first within each group. */
  function SearchRegions(w: nat, h: nat): seq<SearchRegion> {
    [ SearchRegion(Region("left_bottom", 0, At(h, 75), At(w, 40), h), 1),
      SearchRegion(Region("left_bottom_large", 0, At(h, 70), At(w, 50), h), 2),
      SearchRegion(Region("right_bottom", At(w, 60), At(h, 75), w, h), 1),
      SearchRegion(Region("right_bottom_large", At(w, 50), At(h, 70), w, h), 2),
      SearchRegion(Region("bottom_center", At(w, 20), At(h, 80), At(w, 80), h), 3),
      SearchRegion(Region("full_bottom", 0, At(h, 85), w, h), 4),
      SearchRegion(Region("left_side", 0, At(h, 30), At(w, 30), h), 5),
      SearchRegion(Region("right_side", At(w, 70), At(h, 30), w, h), 5),
      SearchRegion(Region("top_left", 0, 0, At(w, 30), At(h, 30)), 6),
      SearchRegion(Region("top_right", At(w, 70), 0, w, At(h, 30)), 6) ]
  }

  lemma SearchRegionsShape(w: nat, h: nat)
    ensures forall s | s in SearchRegions(w, h) :: Within(s.area, w, h) && 1 <= s.priority <= 6
  {
    AtBounded(w, 20); AtBounded(w, 30); AtBounded(w, 40); AtBounded(w, 50);
    AtBounded(w, 60); AtBounded(w, 70); AtBounded(w, 80);
    AtBounded(h, 30); AtBounded(h, 70); AtBounded(h, 75); AtBounded(h, 80); AtBounded(h, 85);
    AtMonotone(w, 20, 80);
  }

  /** One `(bbox, text, confidence)` of `reader.readtext(roi)`, corners relative to the crop. */
  datatype RawDetection = RawDetection(bbox: seq<(int, int)>, text: string, confidence: real)

  /** One entry of `detected_regions`. */
  datatype Detection = Detection(text: string, confidence: real, bbox: seq<(int, int)>,
                                 regionName: string, priority: nat, isExpected: bool)

  /** The reader's output on a crop. */
  type Reader = Region -> seq<RawDetection>

  /** `if text and text.strip() and confidence > 0.3`. */
  predicate Confident(d: RawDetection) {
    Strip(d.text) != [] && d.confidence > 0.3
  }

  /** The corners moved from crop to image coordinates. */
  function Shift(bbox: seq<(int, int)>, x: int, y: int): (r: seq<(int, int)>)
    ensures |r| == |bbox| && forall i | 0 <= i < |bbox| :: r[i] == (bbox[i].0 + x, bbox[i].1 + y)
  {
    seq(|bbox|, i requires 0 <= i < |bbox| => (bbox[i].0 + x, bbox[i].1 + y))
  }

  /** The entry for a confident detection: priority 0 when it matches a given expected answer. */
  function Detected(d: RawDetection, s: SearchRegion, expected: string): Detection {
    var t := Strip(d.text);
    var m := expected != [] && AnswerMatch(t, expected);
    Detection(t, d.confidence, Shift(d.bbox, s.area.x1, s.area.y1), s.area.name,
              if m then 0 else s.priority, m)
  }

  /** The entries of one crop, in the reader's order. */
  function RegionDetections(ds: seq<RawDetection>, s: SearchRegion, expected: string): seq<Detection> {
    if ds == [] then []
    else
      var k := |ds| - 1;
      RegionDetections(ds[..k], s, expected) + (if Confident(ds[k]) then [Detected(ds[k], s, expected)] else [])
  }

  /** The entries of all non-empty crops, in table order, before sorting. */
  function AllDetections(table: seq<SearchRegion>, read: Reader, expected: string): seq<Detection> {
    if table == [] then []
    else
      var k := |table| - 1;
      AllDetections(table[..k], read, expected)
      + (if NonEmpty(table[k].area) then RegionDetections(read(table[k].area), table[k], expected) else [])
  }

  /** The order of `sort(key=lambda x: (x['priority'], -x['confidence']))`. */
  predicate Before(a: Detection, b: Detection) {
    a.priority < b.priority || (a.priority == b.priority && a.confidence > b.confidence)
  }

  lemma StrictOrderBefore()
    ensures StrictOrder(Before)
  {
  }

  /** `detect_answer_regions`: nothing for an unreadable image, else the sorted entries. */
  function DetectAnswerRegions(readable: bool, w: nat, h: nat, read: Reader, expected: string): seq<Detection> {
    if !readable then [] else Sort(AllDetections(SearchRegions(w, h), read, expected), Before)
  }

  /** The loop `for (bbox, text, confidence) in results`. */
  method ScanRegion(ds: seq<RawDetection>, s: SearchRegion, expected: string) returns (found: seq<Detection>)
    ensures found == RegionDetections(ds, s, expected)
  {
    found := [];
    for i := 0 to |ds|
      invariant found == RegionDetections(ds[..i], s, expected)
    {
      assert ds[..i + 1][..i] == ds[..i];
      var d := ds[i];
      if Strip(d.text) != [] && d.confidence > 0.3 {
        var t := Strip(d.text);
        var m := false;
        if expected != [] {
          m := IsAnswerMatch(t, expected);
        }
        var bbox := Shift(d.bbox, s.area.x1, s.area.y1);
        found := found + [Detection(t, d.confidence, bbox, s.area.name, if m then 0 else s.priority, m)];
      }
    }
    assert ds[..|ds|] == ds;
  }

  /** The loop `for region in search_regions`, skipping empty crops. */
  method ScanRegions(table: seq<SearchRegion>, read: Reader, expected: string) returns (found: seq<Detection>)
    ensures found == AllDetections(table, read, expected)
  {
    found := [];
    for i := 0 to |table|
      invariant found == AllDetections(table[..i], read, expected)
    {
      assert table[..i + 1][..i] == table[..i];
      if !NonEmpty(table[i].area) {
        continue;
      }
      var more := ScanRegion(read(table[i].area), table[i], expected);
      found := found + more;
    }
    assert table[..|table|] == table;
  }

  method DetectRegions(readable: bool, w: nat, h: nat, read: Reader, expected: string) returns (found: seq<Detection>)
    ensures found == DetectAnswerRegions(readable, w, h, read, expected)
  {
    if !readable {
      return [];
    }
    found := ScanRegions(SearchRegions(w, h), read, expected);
    found := Sort(found, Before);
  }

  /**
   * What every entry carries: a non-blank stripped text read with
   * confidence above 0.3, from a crop of the table; it is marked expected
   * exactly when an expected answer is given and matches, and then, only
   * then, it has priority 0; otherwise it keeps its crop's priority.
   */
  ghost predicate GoodDetection(e: Detection, table: seq<SearchRegion>, expected: string) {
    e.text != [] && IsStripped(e.text) && e.confidence > 0.3
    && (e.isExpected <==> expected != [] && AnswerMatch(e.text, expected))
    && (e.isExpected ==> e.priority == 0)
    && (!e.isExpected ==> exists s | s in table :: s.area.name == e.regionName && e.priority == s.priority)
  }

  lemma {:induction false} RegionDetectionsGood(ds: seq<RawDetection>, s: SearchRegion, table: seq<SearchRegion>, expected: string)
    requires s in table
    ensures forall e | e in RegionDetections(ds, s, expected) :: GoodDetection(e, table, expected)
  {
    if ds != [] {
      var k := |ds| - 1;
      RegionDetectionsGood(ds[..k], s, table, expected);
    }
  }

  lemma {:induction false} AllDetectionsGood(table: seq<SearchRegion>, read: Reader, expected: string)
    ensures forall e | e in AllDetections(table, read, expected) :: GoodDetection(e, table, expected)
  {
    if table != [] {
      var k := |table| - 1;
      var p := table[..k];
      AllDetectionsGood(p, read, expected);
      forall e | e in AllDetections(p, read, expected) ensures GoodDetection(e, table, expected) {
        if !e.isExpected {
          var s :| s in p && s.area.name == e.regionName && e.priority == s.priority;
          assert s in table;
        }
      }
      RegionDetectionsGood(read(table[k].area), table[k], table, expected);
    }
  }

  /**
   * The detections are those of the crops, none lost or added, in order
   * of priority and then of falling confidence, and each one good.
   */
  lemma DetectAnswerRegionsSorted(readable: bool, w: nat, h: nat, read: Reader, expected: string)
    ensures var ds := DetectAnswerRegions(readable, w, h, read, expected);
      Sorted(ds, Before)
      && (readable ==> multiset(ds) == multiset(AllDetections(SearchRegions(w, h), read, expected)))
      && forall e | e in ds :: GoodDetection(e, SearchRegions(w, h), expected)
  {
    if readable {
      var all := AllDetections(SearchRegions(w, h), read, expected);
      StrictOrderBefore();
      SortSorted(all, Before);
      AllDetectionsGood(SearchRegions(w, h), read, expected);
      forall e | e in Sort(all, Before) ensures GoodDetection(e, SearchRegions(w, h), expected) {
        assert e in multiset(Sort(all, Before));
      }
    }
  }

  // ----------------------------------------------------------- targets

  const IsExpected: Detection -> bool := (e: Detection) => e.isExpected
  const HighPriority: Detection -> bool := (e: Detection) => e.priority <= 2

  function Min(a: nat, b: nat): nat { if a < b then a else b }

  /** `target_regions` of `apply_smart_mask`. */
  function Targets(ds: seq<Detection>, expected: string): (ts: seq<Detection>)
  {
    if expected != [] then
      var matching := Filter(ds, IsExpected);
      if matching != [] then matching[..1] else ds[..if ds == [] then 0 else 1]
    else
      var high := Filter(ds, HighPriority);
      high[..if |high| < 3 then |high| else 3]
  }

  /** What `apply_smart_mask` returns. */
  datatype Outcome = Failure(error: string) | Success(masked: seq<Detection>, totalDetected: nat, totalMasked: nat)

  /** `apply_smart_mask` for an image that can (`readable`) or cannot be read. */
  function MaskOutcome(readable: bool, w: nat, h: nat, read: Reader, expected: string): Outcome {
    var ds := DetectAnswerRegions(readable, w, h, read, expected);
    if !readable then Failure("无法读取图像")
    else if ds == [] then Failure("未检测到文字区域")
    else
      var ts := Targets(ds, expected);
      Success(ts, |ds|, |ts|)
  }

  method SelectTargets(ds: seq<Detection>, expected: string) returns (ts: seq<Detection>)
    ensures ts == Targets(ds, expected)
  {
    var pick: seq<Detection> := [];
    if expected != [] {
      for i := 0 to |ds|
        invariant pick == Filter(ds[..i], IsExpected)
      {
        assert ds[..i + 1][..i] == ds[..i];
        if ds[i].isExpected {
          pick := pick + [ds[i]];
        }
      }
      assert ds[..|ds|] == ds;
      if pick != [] {
        return pick[..1];
      }
      return ds[..if ds == [] then 0 else 1];
    }
    for i := 0 to |ds|
      invariant pick == Filter(ds[..i], HighPriority)
    {
      assert ds[..i + 1][..i] == ds[..i];
      if ds[i].priority <= 2 {
        pick := pick + [ds[i]];
      }
    }
    assert ds[..|ds|] == ds;
    ts := pick[..if |pick| < 3 then |pick| else 3];
  }

  method ApplySmartMask(readable: bool, w: nat, h: nat, read: Reader, expected: string) returns (o: Outcome)
    ensures o == MaskOutcome(readable, w, h, read, expected)
  {
    if !readable {
      return Failure("无法读取图像");
    }
    var ds := DetectRegions(readable, w, h, read, expected);
    if ds == [] {
      return Failure("未检测到文字区域");
    }
    var ts := SelectTargets(ds, expected);
    o := Success(ts, |ds|, |ts|);
  }

  /**
   * With an expected answer at most one region is masked: the first
   * expected match when there is one, which is then the first detection
   * of all and the most confident match; otherwise the first detection.
   * Without one, the first (at most three) detections of priority 1 or 2,
   * in order. Never more are masked than were detected.
   */
  lemma TargetsCases(ds: seq<Detection>, expected: string)
    requires Sorted(ds, Before)
    requires forall e | e in ds :: e.isExpected <==> e.priority == 0
    ensures |Targets(ds, expected)| <= |ds|
    ensures expected != [] ==> |Targets(ds, expected)| == (if ds == [] then 0 else 1)
    ensures expected != [] && (exists e | e in ds :: e.isExpected) ==>
      Targets(ds, expected) == [ds[0]] && ds[0].isExpected
      && forall e | e in ds && e.isExpected :: e.confidence <= ds[0].confidence
    ensures expected != [] && (forall e | e in ds :: !e.isExpected) ==> Targets(ds, expected) == ds[..|Targets(ds, expected)|]
    ensures expected == [] ==>
      (|Targets(ds, expected)| == Min(|Filter(ds, HighPriority)|, 3)
       && Targets(ds, expected) <= Filter(ds, HighPriority)
       && forall e | e in Targets(ds, expected) :: e.priority <= 2)
  {
    if expected != [] {
      TargetsWithExpected(ds, expected);
    } else {
      TargetsWithout(ds);
    }
  }

  /** The cases of `TargetsCases` with an expected answer. */
  lemma TargetsWithExpected(ds: seq<Detection>, expected: string)
    requires Sorted(ds, Before) && expected != []
    requires forall e | e in ds :: e.isExpected <==> e.priority == 0
    ensures |Targets(ds, expected)| == (if ds == [] then 0 else 1)
    ensures (exists e | e in ds :: e.isExpected) ==>
      Targets(ds, expected) == [ds[0]] && ds[0].isExpected
      && forall e | e in ds && e.isExpected :: e.confidence <= ds[0].confidence
    ensures (forall e | e in ds :: !e.isExpected) ==> Targets(ds, expected) == ds[..|Targets(ds, expected)|]
  {
    if exists e | e in ds :: e.isExpected {
      ExpectedFirst(ds);
      FirstMatch(ds, IsExpected);
    }
  }

  /** The case of `TargetsCases` without an expected answer. */
  lemma TargetsWithout(ds: seq<Detection>)
    ensures |Targets(ds, [])| == Min(|Filter(ds, HighPriority)|, 3) && |Targets(ds, [])| <= |ds|
    ensures Targets(ds, []) <= Filter(ds, HighPriority)
    ensures forall e | e in Targets(ds, []) :: e.priority <= 2
  {
  }

  /** In the sorted detections an expected match, when there is one, comes first and is the most confident one. */
  lemma ExpectedFirst(ds: seq<Detection>)
    requires Sorted(ds, Before)
    requires forall e | e in ds :: e.isExpected <==> e.priority == 0
    requires exists e | e in ds :: e.isExpected
    ensures ds != [] && ds[0].isExpected
    ensures forall e | e in ds && e.isExpected :: e.confidence <= ds[0].confidence
  {
    var e :| e in ds && e.isExpected;
    var j :| 0 <= j < |ds| && ds[j] == e;
    if !ds[0].isExpected {
      assert Before(ds[j], ds[0]);
    }
    forall e' | e' in ds && e'.isExpected ensures e'.confidence <= ds[0].confidence {
      var k :| 0 <= k < |ds| && ds[k] == e';
      if k > 0 {
        assert !Before(ds[k], ds[0]);
      }
    }
  }

  /** When the first element satisfies `p`, it is the first one that `Filter` keeps. */
  lemma {:induction false} FirstMatch<T>(xs: seq<T>, p: T -> bool)
    requires xs != [] && p(xs[0])
    ensures Filter(xs, p) != [] && Filter(xs, p)[0] == xs[0]
  {
    if |xs| > 1 {
      FirstMatch(xs[..|xs| - 1], p);
      assert xs[..|xs| - 1][0] == xs[0];
    }
  }

  /**
   * The outcome of `apply_smart_mask`: `total_masked <= total_detected`;
   * with an expected answer exactly one region is masked, without one as
   * many as there are detections of priority 1 or 2, but at most three.
   */
  lemma MaskOutcomeBounds(readable: bool, w: nat, h: nat, read: Reader, expected: string)
    ensures var o := MaskOutcome(readable, w, h, read, expected);
      (o.Failure? <==> !readable || DetectAnswerRegions(readable, w, h, read, expected) == [])
      && (o.Success? ==>
            (o.totalMasked == |o.masked| <= o.totalDetected
             && (expected != [] ==> o.totalMasked == 1)
             && (expected == [] ==> o.totalMasked == Min(|Filter(DetectAnswerRegions(readable, w, h, read, expected), HighPriority)|, 3))))
  {
    var ds := DetectAnswerRegions(readable, w, h, read, expected);
    if readable && ds != [] {
      DetectAnswerRegionsSorted(readable, w, h, read, expected);
      SearchRegionsShape(w, h);
      forall e | e in ds ensures e.isExpected <==> e.priority == 0 {
        assert GoodDetection(e, SearchRegions(w, h), expected);
      }
      TargetsCases(ds, expected);
    }
  }
}
