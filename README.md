# OCR answer recovery for colour-vision test images, in Dafny

This project models the answer-recovery engine of a colour-vision test
image collection. The crawler stores one record per image in an
`answers.json` list of `{filename, original_url, answer}` entries. When it
cannot read an answer, it stores the placeholder `1查看色弱滤镜`. A family
of OCR tools recovers those answers. Each tool cuts the answer corner out
of the image, runs a recognizer over many preprocessed variants and cleans
the raw texts. It then gathers candidate answers in a table (weighted
scores, or plain occurrence counts) and selects one answer by
first-match-wins rules. Finally it overwrites the `answer` field of the
records it was asked to fix.

Around the engine sit small record-list rules:

- placeholder detection and stripping (the batch refresher and the placeholder report);
- detection and repair of answers that merely repeat the file's own serial number;
- the answer-type summaries and accuracy reports;
- the text match, priority sort and target choice of the answer masker.

The model is written in the source's own form:

- **Loops become methods.** Each is proved against a specification function:
  the cleaning loops, the table-building loops, the sorted scans of the
  selectors and the record-update loops.
- **Properties the source promises are lemmas about those functions.** They
  cover the truth tables of the classifiers, first-match selection, the shape
  of cleaned text, that counters stay within bounds, and that nothing but
  `answer` changes.
- **The recognizers are parameters.** EasyOCR and PaddleOCR become the
  sequence of raw detections they returned, which the tools filter into
  observations. Tesseract becomes a function from image variant,
  configuration and language to text.
- **Images are their dimensions.** A preprocessed image is the
  region/method/scale triple it was made from.

Modules:

- **`Text`, `Scan`, `Sorting`, `Regions`, `Imaging`:** the Python built-ins
  the tools rely on.
  - `Text`: strip, whitespace collapse, `in`, `replace`, `int()` and case mapping.
  - `Scan`: the regular expressions, written as explicit leftmost, greedy,
    non-overlapping scanners with Unicode `\b`.
  - `Sorting`: the stable sort, filters and first-match scans.
  - `Regions`: crop coordinates.
  - `Imaging`: the region × method × scale enumeration.
- **`Cleaning`:** every `clean_text` variant, as one configurable cleaner.
- **`Candidates` and `Counting`:** the weighted and the counting candidate tables.
- **`Records`:** the record list and its shared update loop.
  - `Records.UpdatePlaceholders` is the placeholder-with-URL loop. The
    EasyOCR, PaddleOCR, universal and final tools share it; the final tool
    always saves.
  - `Records.UpdateAnswers` with a `Rule` covers the other loops.
- **One module per tool:** `EasyOcr`, `PaddleOcr`, `UniversalOcr`, `FinalOcr`,
  `SmartOcr`, `CleanAnswers`, `DownloadOcr`, `OcrExtractor`, `ImprovedOcr`,
  `AccuracyCheck`, `AnswerMasker`, `BatchUpdate`, `PlaceholderCheck`,
  `SequenceAnalysis`, `SequenceFix`, `OcrSummary`, `Validation`.

## Model

| member | source | states |
|---|---|---|
| Records.Revised | paddleocr_tool.py:322-343 | a record keeps its file name and URL; it changes only when the rule passes it to the recognizer and the answer is non-empty, and then its answer is that answer |
| Records.UpdateAnswers | easyocr_tool.py:441-484 | the new list has the old length and holds each record revised on its own; the counts are those of the updated and the placeholder records; the file is written exactly when saving is on and something was updated |
| Records.CountsStep | easyocr_tool.py:449-464 | each record adds one to `updated_count` exactly when it is eligible and was answered, and one to `placeholder_count` exactly when it holds the placeholder |
| Records.UpdatedAtMostPending | paddleocr_tool.py:327-344 | under the placeholder rules no more records are updated than are pending |
| Records.UpdatedPositive | paddleocr_tool.py:352 | something is updated, and so the file saved, exactly when some eligible record received a non-empty answer |
| Records.UpdatePlaceholders | paddleocr_tool.py:319-362 | only placeholder records with a URL change, only their answer and only to a non-empty answer, which they always take; at most the pending count is updated; the file is written exactly when saving is on and something was updated |
| Records.Indices | check_placeholder_answers.py:40-53 | the picked indexes are in range, strictly increasing, each picks a selected record, and every selected record's index is there |
| Records.AssignedAmongIndices | batch_update_answers.py:103-156 | counting the assignments over the picked indexes equals counting over the whole dataset when only picked records are assigned |
| Records.CountAssignedBound | batch_update_answers.py:100-156 | `updated_count` is at most the number of picked records |
| Records.CountAssignedPositive | batch_update_answers.py:170 | the count is positive exactly when some record receives an answer |
| Records.Percent | check_placeholder_answers.py:59 | `n / total * 100` lies between 0 and 100 when `n <= total` |
| Records.PercentAdd | analyze_sequence_errors.py:61-62 | percentages of one total add up |
| Records.PercentBelowWhole | validate_ocr_results.py:61 | a part smaller than the whole is less than 100 percent |
| Records.CountUpdated | easyocr_tool.py:462-464 | the updated count is at most the number of records |
| Records.CountPlaceholders | easyocr_tool.py:449-450 | the placeholder count is at most the number of records |
| Text.LStrip | download_and_ocr.py:155 | the suffix left after the leading whitespace, starting with a non-space |
| Text.RStrip | download_and_ocr.py:159 | the prefix left before the trailing whitespace, ending with a non-space |
| Text.Strip | smart_answer_masker.py:135-136 | the slice between leading and trailing whitespace, itself stripped, with only whitespace cut away |
| Text.StripIdempotent | smart_answer_masker.py:135-136 | stripping twice is stripping once |
| Text.Collapse | download_and_ocr.py:141 | every whitespace run becomes one space: the result is single-spaced, no longer, empty only for empty input |
| Text.CollapseKeepsNonSpace | download_and_ocr.py:141 | collapsing keeps every other character in order |
| Text.CollapseIdempotent | download_and_ocr.py:141 | collapsing twice is collapsing once |
| Text.Contains | smart_answer_masker.py:143 | Python's `p in s`: true exactly when `p` occurs at some index |
| Text.ReplaceAbsent | batch_update_answers.py:148 | replacing a pattern that does not occur changes nothing |
| Text.NatValue | analyze_sequence_errors.py:34 | `int()` of a digit string is below ten to its length |
| Text.DecimalString | analyze_sequence_errors.py:31-34 | every number has a digit string whose value it is |
| Text.Upper | smart_answer_masker.py:135-136 | upper-casing maps each character on its own, keeping the length |
| Text.Lower | smart_answer_masker.py:135-136 | lower-casing maps each character on its own, keeping the length |
| Scan.WholeWords | universal_ocr_tool.py:166 | every match of a `\b`-bounded class pattern is a non-empty text of the class, of a length within the bounds, occurring in the text |
| Scan.WholeWordsExact | universal_ocr_tool.py:166 | the matches are, left to right, exactly the whole words (maximal runs of word characters) made of class characters with a length within the bounds: every such word is found and nothing else |
| Scan.Chunks | universal_ocr_tool.py:182 | every match of an unbounded class pattern is a text of the class, of a length within the bounds, occurring in the text |
| Scan.ChunksExact | universal_ocr_tool.py:182 | the matches are, left to right, exactly the greedy chunks: each begins where a run of class characters begins or where the previous match ended, takes the run cut at the upper bound, and every place where such a chunk can begin and is long enough yields one |
| Scan.ChunksEmpty | universal_ocr_tool.py:182 | the class pattern finds nothing exactly when the text has no character of the class |
| Scan.FirstAltAt | extract_clean_answers.py:16-26 | the first listed alternative occurring at an index, or none when no alternative occurs there |
| Scan.AltFindAllSound | extract_clean_answers.py:40-44 | every match of an alternation is one of the alternatives and occurs in the text |
| Scan.AltFindAllFirst | extract_clean_answers.py:57-61 | an alternation finds nothing exactly when no alternative occurs; otherwise its first match is the alternative found at the leftmost index where any occurs |
| Scan.FirstDigitRun | analyze_sequence_errors.py:29 | `re.search(r'(\d+)')` finds a digit string occurring in the text, and finds nothing exactly when the text has no digit |
| Scan.FirstDigitRunLeftmost | analyze_sequence_errors.py:29 | what `re.search(r'(\d+)')` finds is the leftmost maximal run of digits: no digit comes before it and no digit follows it |
| Scan.FirstNumber | analyze_sequence_errors.py:29-31 | the file number is absent exactly when the filename has no digit, and otherwise is the value of the leftmost maximal digit run |
| Sorting.Insert | smart_answer_masker.py:120 | inserting adds exactly one element |
| Sorting.Sort | smart_answer_masker.py:120 | the sort keeps every element with its multiplicity |
| Sorting.SortSorted | smart_answer_masker.py:120 | under a strict weak order the sort is sorted and a permutation of its input |
| Sorting.Filter | smart_answer_masker.py:234 | the comprehension keeps exactly the elements satisfying the test |
| Sorting.FilterSorted | smart_answer_masker.py:242 | keeping some elements of a sorted list keeps it sorted |
| Sorting.FirstIsBest | universal_ocr_tool.py:206-213 | in a sorted list the first passing element is one no passing element goes before |
| Sorting.FirstIndex | paddleocr_tool.py:251-253 | the index of the first passing element, every one before failing, or the length when none passes |
| Sorting.FindFirst | paddleocr_tool.py:251-253 | the `for ... return` scan computes `FirstIndex` |
| Sorting.LongestIsFirstMaximum | download_and_ocr.py:190 | `max(key=len)` returns an element nothing exceeds, every earlier element strictly shorter |
| Sorting.FindLongest | download_and_ocr.py:190 | the `max` scan computes `Longest` |
| Regions.AtMonotone | smart_answer_masker.py:47-64 | `int(n * p / 100)` grows with the percentage |
| Regions.AtBounded | smart_answer_masker.py:47-64 | `int(n * p / 100)` never exceeds `n` for a percentage up to 100 |
| Regions.KeepNonEmpty | universal_ocr_tool.py:87-90 | the kept regions are exactly the non-empty regions of the table, no more of them than the table has |
| Regions.CropRegions | paddleocr_tool.py:87-100 | the crop loop skipping empty crops computes `KeepNonEmpty` |
| Imaging.ScaleVariants | universal_ocr_tool.py:105-113 | one image per scale, in scale order |
| Imaging.ExpandNext | universal_ocr_tool.py:87-113 | one more region appends its images when it is non-empty and nothing otherwise |
| Imaging.ScaleImages | universal_ocr_tool.py:105-113 | the scale loop appends one image per scale |
| Imaging.RegionImages | universal_ocr_tool.py:103-113 | the method and scale loops append the images of one region |
| Imaging.ExpandRegions | universal_ocr_tool.py:87-113 | the region, method and scale loops, skipping empty crops, build the image list |
| Imaging.RegionVariantsLength | universal_ocr_tool.py:103-113 | a region contributes methods times scales images |
| Imaging.ExpandLength | universal_ocr_tool.py:87-113 | every non-empty region contributes one image per method and scale |
| Imaging.ExpandPrefix | universal_ocr_tool.py:87-113 | the images of the first regions come first |
| Imaging.ExpandMembers | universal_ocr_tool.py:87-113 | every image names a non-empty region, a listed method and a listed scale |
| Imaging.Take | universal_ocr_tool.py:115 | `[:limit]` keeps the first `min(len, limit)` elements |
| Imaging.Readings | universal_ocr_tool.py:127-144 | only non-blank readings are kept, stripped |
| Imaging.CollectReadings | universal_ocr_tool.py:121-149 | the reading loop keeps the stripped non-blank readings in call order |
| Cleaning.PrefixLength | easyocr_tool.py:267-274 | an anchored enumeration pattern matches a prefix of the text, never more than the text |
| Cleaning.KeepMeaningful | download_and_ocr.py:158 | the filter deletes characters only, and everything it keeps is `\w`, CJK or one of `△○□/-` |
| Cleaning.KeepMeaningfulFixed | download_and_ocr.py:158 | a text of meaningful characters passes the filter unchanged |
| Cleaning.KeepMeaningfulIdempotent | download_and_ocr.py:158 | filtering twice is filtering once |
| Cleaning.MeaningfulNotSpace | download_and_ocr.py:158 | no kept character is whitespace |
| Cleaning.CleanText | easyocr_tool.py:258-279 | the loop over the prefix patterns computes the cleaned text |
| Cleaning.StripSuffixOfStripped | easyocr_tool.py:277 | stripping a tail of a stripped text gives again a tail of it |
| Cleaning.StripPrefixesSuffix | easyocr_tool.py:276-277 | the prefix loop only ever cuts text off the front |
| Cleaning.StripPrefixSuffix | easyocr_tool.py:277 | one turn of the loop leaves a stripped tail of a stripped text |
| Cleaning.SuffixTransitive | easyocr_tool.py:276-277 | a tail of a tail is a tail |
| Cleaning.CollapsedStripped | easyocr_tool.py:264 | the collapsed text has no leading or trailing whitespace |
| Cleaning.CleanedUnfiltered | easyocr_tool.py:260-279 | without the filter the result is stripped, single-spaced and a tail of the collapsed text |
| Cleaning.SingleSpacedSuffix | easyocr_tool.py:264 | a tail of a single-spaced text is single-spaced |
| Cleaning.CleanedFiltered | download_and_ocr.py:137-160 | with the filter the result holds only meaningful characters and no whitespace |
| Cleaning.NoSpaceSingleSpaced | download_and_ocr.py:158-160 | a text without whitespace has no whitespace run longer than one space |
| Cleaning.CleanedShape | easyocr_tool.py:258-279 | `""` gives `""`; otherwise the result has no leading, trailing or doubled whitespace, without the filter it is a tail of the collapsed text, with the filter (download_and_ocr.py:158) it holds only meaningful characters and no whitespace |
| Cleaning.StripPrefixesInert | easyocr_tool.py:276-277 | patterns that do not match a stripped text leave it alone |
| Cleaning.LeadingSpace | easyocr_tool.py:277 | `strip` drops one leading space of a stripped text |
| Cleaning.CleanedExample | easyocr_tool.py:258-279 | `"3. 骆驼"` cleans to `"骆驼"` |
| Cleaning.CleanedOncePerPattern | easyocr_tool.py:276-277 | each pattern is applied once: `"1.2.骆驼"` cleans to `"2.骆驼"` |
| Candidates.BuildTally | easyocr_tool.py:186-254 | the dictionary built from the hits has exactly the hits' keys, each entry holding the sum of its hits' scores, their number and their sources in order, so `len(sources) == count >= 1` |
| Candidates.AddWellFormed | easyocr_tool.py:188-192 | one in-place update keeps the dictionary keyed once per candidate with one source per hit |
| Candidates.AddTally | easyocr_tool.py:188-192 | one update changes the entry of its own key, and only that one, as the per-key tally says |
| Candidates.AddKeys | easyocr_tool.py:188-189 | a key is present after an update exactly when some hit so far had it |
| Candidates.HitsForEmpty | easyocr_tool.py:188-189 | a key has no hits exactly when no hit carries it |
| Candidates.AddHits | easyocr_tool.py:206-213 | a per-category loop of in-place updates builds the table of all hits so far |
| Candidates.AddCategories | easyocr_tool.py:164-254 | the category loops of one observation, in turn, build the table of all its hits |
| Candidates.EntryList | easyocr_tool.py:317-320 | `scored_candidates` lists the entries in dictionary insertion order |
| Candidates.Scored | easyocr_tool.py:206-213 | each hit of a category is one of its matches of at least the minimum length, weighted by the observation's confidence |
| Candidates.StrictOrderHigherRank | easyocr_tool.py:322 | descending final score is a strict weak order, so the stable sort is well defined |
| Candidates.EntryOfInEntries | easyocr_tool.py:317-320 | every key of the table is listed in `scored_candidates` |
| Candidates.FirstMatchIsBest | easyocr_tool.py:347-351 | in the sorted list narrowed to one set, the first entry passing a test is a table entry of highest final score among all passing ones |
| Candidates.SortedEntriesComplete | easyocr_tool.py:322 | sorting loses no entry |
| Candidates.StageOutcome | easyocr_tool.py:345-376 | one first-match stage returns a passing entry of highest final score, and finds none exactly when no entry passes |
| Counting.OccurrencesPositive | universal_ocr_tool.py:159-193 | a string is counted exactly when it was matched |
| Counting.OccurrencesAppend | universal_ocr_tool.py:155-193 | counting two lists of matches one after the other adds their counts |
| Counting.CountAllOccurrences | universal_ocr_tool.py:151-195 | the counter is a dictionary whose keys are exactly the matched strings, each with the number of times it was matched, at least one |
| Counting.AddAll | universal_ocr_tool.py:166-171 | one counting loop adds 1 per match to the dictionary in place |
| Counting.AddGroups | universal_ocr_tool.py:155-193 | the counting loops of one text, in turn, count all its matches |
| Counting.Items | universal_ocr_tool.py:203 | `candidates.items()` lists every key with its count in insertion order |
| Counting.ItemList | universal_ocr_tool.py:203 | the item loop computes `Items` |
| Counting.StrictOrderMoreFrequent | universal_ocr_tool.py:203 | descending count is a strict weak order for the stable sort |
| Counting.CountStage | universal_ocr_tool.py:203-213 | in the items sorted by count, the first passing item is a most frequent passing key, and there is none exactly when no key passes |
| Keywords.Answers | final_ocr_processor.py:32-57 | the canonical answers of the dictionary, in insertion order |
| Keywords.ScanKeywords | final_ocr_processor.py:151-154 | the keyword loop stops early exactly when some keyword occurs in the text |
| Keywords.FirstMentioned | smart_ocr_extractor.py:173-179 | the nested loop stops at the first dictionary entry with a keyword in the text |
| AnswerKinds.NoTypes | ocr_summary.py:34-38 | the report starts with all six categories, each empty |
| Tesseract.RecognizeConfig | download_and_ocr.py:117-129 | one `try` block computes the configuration's readings: `chi_sim` before `eng`, nothing at all when the `chi_sim` call raises, and only the `chi_sim` reading when the `eng` call raises |
| Tesseract.RecognizeImage | download_and_ocr.py:116-129 | the configuration loop for one image computes its readings, configuration by configuration |
| Tesseract.RecognizeAll | improved_ocr_test.py:100-129 | the image loop concatenates the readings of every image in order |
| Tesseract.ImageReadingsSound | download_and_ocr.py:116-129 | every reading of an image is the stripped, non-blank output of one call that returned, with an `eng` reading only when that configuration's `chi_sim` call returned too; at most two per configuration |
| Tesseract.AllReadingsSound | improved_ocr_test.py:106-129 | every reading is the stripped, non-blank output of one call that returned, on a listed image and configuration, with an `eng` reading only when the `chi_sim` call before it returned; at most two per image and configuration |
| Tesseract.AllReadingsBlank | improved_ocr_test.py:116-123 | a recognizer that only raises or returns blanks gives no reading |
| Tesseract.CleanedReadings | improved_ocr_test.py:174-178 | no more cleaned readings than readings, none with an empty text |
| Tesseract.CleanedReadingsSound | download_and_ocr.py:177-181 | every cleaned reading is a reading with its text replaced by the cleaned text |
| Tesseract.CleanReadings | improved_ocr_test.py:174-178 | the cleaning loop computes `CleanedReadings` |
| Tesseract.Texts | download_and_ocr.py:190 | the texts of the readings, one per reading in order |
| Tesseract.LongestTextIsFirstMaximum | improved_ocr_test.py:186 | `max` by length returns the text of a reading that no reading exceeds, and every earlier reading is strictly shorter |
| Tesseract.FindLongestText | improved_ocr_test.py:186 | the `max` loop computes `LongestText` |
| EasyOcr.RegionTableWithin | easyocr_tool.py:75-108 | the table has 19 regions, each inside the image with its corners in order |
| EasyOcr.PreprocessRegions | easyocr_tool.py:110-123 | the crops kept are the non-empty regions of the table, in table order, each inside the image |
| EasyOcr.Line | easyocr_tool.py:177-179 | `(.+)` takes the longest newline-free prefix of what follows |
| EasyOcr.LineInText | easyocr_tool.py:177-179 | a group taken at a position that is not a newline is non-empty and occurs in the text |
| EasyOcr.MarkThenGroup | easyocr_tool.py:177 | a group matched by `^\d+[\.、\s:：]\s*(.+)` is non-empty and occurs in the text |
| EasyOcr.SpacesThenGroup | easyocr_tool.py:178 | a group matched by `^\d+\s+(.+)` is non-empty and occurs in the text |
| EasyOcr.OrdinalGroup | easyocr_tool.py:179 | a group matched by `^第?\d+题?\s*(.+)`, backtracking included, is non-empty and occurs in the text |
| EasyOcr.ContentGroup | easyocr_tool.py:182-185 | any content group found is non-empty and occurs in the stripped text |
| EasyOcr.ContentHit | easyocr_tool.py:182-192 | each content pattern adds at most one hit, longer than one character, weighted 4, marked as content |
| EasyOcr.AllHitsNext | easyocr_tool.py:164 | one more observation appends its hits |
| EasyOcr.ExtractCandidates | easyocr_tool.py:158-256 | the nested loops build the table of all hits of all observations, in order |
| EasyOcr.KnownNotDigit | easyocr_tool.py:31-49 | no known answer starts with a digit |
| EasyOcr.ScoredNotDigit | easyocr_tool.py:216-254 | keys scanned from runs of non-digits are never single digits |
| EasyOcr.ContentWeighted | easyocr_tool.py:186-192 | content hits weigh 4 and are longer than one character |
| EasyOcr.KnownWeighted | easyocr_tool.py:195-202 | dictionary hits weigh 3 |
| EasyOcr.NumberWeighted | easyocr_tool.py:205-213 | number hits weigh 1.5 and one-digit runs are never added |
| EasyOcr.CapitalWeighted | easyocr_tool.py:216-223 | capital hits weigh 1.5 |
| EasyOcr.CjkWeighted | easyocr_tool.py:226-234 | CJK hits weigh 2 |
| EasyOcr.SymbolWeighted | easyocr_tool.py:237-244 | symbol hits weigh 1.5 |
| EasyOcr.LetterWeighted | easyocr_tool.py:247-254 | single-letter hits weigh 1.2 |
| EasyOcr.CategoryWeighted | easyocr_tool.py:176-254 | every hit of every category carries its category's weight |
| EasyOcr.LineHitsWeighted | easyocr_tool.py:164-254 | every hit of an observation carries its region, its confidence and the weight of its category; an observation whose cleaned text is empty adds nothing |
| EasyOcr.WeightedAppend | easyocr_tool.py:164 | the weighting of earlier hits survives one more observation |
| EasyOcr.AllHitsWeighted | easyocr_tool.py:164-254 | every hit comes from one of the observations, with that observation's weight |
| EasyOcr.CandidateTable | easyocr_tool.py:158-256 | every entry has one source per hit and at least one hit, its score is the sum of its hits' weighted confidences, and no key is a single digit |
| EasyOcr.SequenceNumberTruth | easyocr_tool.py:281-309 | a candidate is a likely sequence number exactly when it is all digits, the filename has a number `f`, and the candidate equals `f`, or is one non-zero digit, or is two digits, not `00`, within 20 of `f` |
| EasyOcr.Split | easyocr_tool.py:332-339 | the split loop keeps the sorted order in both the content and the sequence list |
| EasyOcr.SelectBestAnswer | easyocr_tool.py:311-380 | the method computes the answer of the staged selection |
| EasyOcr.SelectedStages | easyocr_tool.py:311-380 | an empty table gives `""`; with a content candidate the answer is the top-ranked known content answer with average above 0.4, else the top-ranked content candidate with average above 0.3, else the top content candidate; without one, the top sequence candidate with average above 0.7 and length at least 3, else `""`; the answer is `""` or a key |
| EasyOcr.ContentStages | easyocr_tool.py:345-366 | the three content stages, each as a first match among the ranked content candidates |
| EasyOcr.SequenceStage | easyocr_tool.py:369-380 | the sequence stage, reached only when there is no content candidate |
| EasyOcr.Observed | easyocr_tool.py:137-146 | `ocr_results` holds only non-blank, stripped texts whose confidence is above 0.05, and no more entries than there were detections |
| EasyOcr.ObservedFilter | easyocr_tool.py:137-146 | the observations are exactly the detections that pass `text.strip()` and `confidence > 0.05`, in call order, each with its text stripped and its confidence and region kept |
| EasyOcr.ExtractTextWithEasyOcr | easyocr_tool.py:125-156 | the detection loop computes `Observed` |
| EasyOcr.FaintImageBlank | easyocr_tool.py:137-146 | detections that are all blank or at most 0.05 confident leave `ocr_results` empty, so the answer is `""` |
| EasyOcr.ProcessSingleImage | easyocr_tool.py:403-430 | the detections are filtered into `ocr_results`; no observations or no candidates give `""`; otherwise the selected answer, which is `""` or a key of the table |
| PaddleOcr.RegionTableWithin | paddleocr_tool.py:75-85 | the table has five regions, each inside the image |
| PaddleOcr.PreprocessRegions | paddleocr_tool.py:87-100 | the crops kept are the non-empty regions of the table, in table order, each inside the image |
| PaddleOcr.ExtractCandidates | paddleocr_tool.py:140-207 | the loop over the readings builds the table of the hits of all readings, in reading order |
| PaddleOcr.KnownNotDigit | paddleocr_tool.py:19-47 | no known answer starts with a digit, so a known-answer hit never collides with a number hit |
| PaddleOcr.LineHitsWeighted | paddleocr_tool.py:151-205 | every hit of a reading carries this tool's weight for its category and the reading's confidence and region; a reading that cleans to `""` gives no hit |
| PaddleOcr.AllHitsWeighted | paddleocr_tool.py:144-207 | the table is a well-formed dictionary with one source per hit, and every hit comes from one of the readings with this tool's weights |
| PaddleOcr.SelectBestAnswer | paddleocr_tool.py:232-259 | the method computes `Selected` of the table |
| PaddleOcr.SelectedStages | paddleocr_tool.py:232-259 | an empty table gives `""`, a non-empty one only when `""` is one of its candidates; otherwise the answer is the top-ranked known answer when the table holds one, whatever its score, else the top-ranked candidate |
| PaddleOcr.Observed | paddleocr_tool.py:119-128 | `ocr_results` holds only non-blank, stripped texts, and no more entries than there were lines |
| PaddleOcr.ObservedFilter | paddleocr_tool.py:119-128 | the observations are exactly the non-blank lines, in call order, each stripped, with confidence 1.0 where the line carries none |
| PaddleOcr.ExtractTextWithPaddleOcr | paddleocr_tool.py:102-138 | the line loop computes `Observed` |
| PaddleOcr.UnscoredConfident | paddleocr_tool.py:120-128 | a non-blank line without a confidence is observed with confidence 1.0 |
| PaddleOcr.ProcessSingleImage | paddleocr_tool.py:282-308 | the lines are filtered into `ocr_results`; no observations or no candidates give `""`; otherwise the answer is selected from the observations' table and is one of its candidates |
| UniversalOcr.KnownNotDigit | universal_ocr_tool.py:27-44 | no known answer starts with a digit |
| UniversalOcr.RegionTableWithin | universal_ocr_tool.py:75-85 | the table has five regions, each inside the image |
| UniversalOcr.PreprocessImages | universal_ocr_tool.py:65-115 | the images are the first 30 of five methods times three scales for every non-empty region, in order |
| UniversalOcr.PreprocessCounts | universal_ocr_tool.py:87-115 | fifteen images per non-empty region, at most 75 in all, at most 30 kept, each naming a non-empty region, a listed method and a listed scale |
| UniversalOcr.OnlyLeftBottom | universal_ocr_tool.py:75-115 | once the image is at least 4 pixels wide and 1 high the 30 kept images are exactly those of the two left-bottom regions; the other three regions are never read |
| UniversalOcr.LeftBottomNonEmpty | universal_ocr_tool.py:77-78 | both left-bottom crops are non-empty once the image is at least 4 pixels wide and 1 high |
| UniversalOcr.ExtractCandidates | universal_ocr_tool.py:151-195 | the counting loop gives the counter of all matches of all readings |
| UniversalOcr.GroupsPlausible | universal_ocr_tool.py:155-193 | no match of any group is empty or a lone digit |
| UniversalOcr.CandidateCounts | universal_ocr_tool.py:151-195 | the counter counts every match it saw, and no key is empty or a lone digit |
| UniversalOcr.SelectBestAnswer | universal_ocr_tool.py:197-215 | the method computes `Selected` |
| UniversalOcr.SelectedStages | universal_ocr_tool.py:197-215 | an empty counter gives `""`; otherwise a most frequent known answer if any key is one, else a most frequent key of length at least 2 or all digits, else a most frequent key |
| UniversalOcr.ProcessSingleImage | universal_ocr_tool.py:231-245 | `""` exactly when no image was cut or nothing matched; otherwise a key of the counter |
| FinalOcr.FirstPatternsDistinct | final_ocr_processor.py:34-39 | the first six canonical answers are distinct |
| FinalOcr.SecondPatternsDistinct | final_ocr_processor.py:40-45 | the next six canonical answers are distinct |
| FinalOcr.TailPatternsDistinct | final_ocr_processor.py:46-56 | the last eleven canonical answers are distinct |
| FinalOcr.FirstApart | final_ocr_processor.py:34-45 | the first group shares no answer with the second |
| FinalOcr.GroupsApart | final_ocr_processor.py:34-56 | the first twelve answers share none with the last eleven |
| FinalOcr.FirstTailApart | final_ocr_processor.py:34-56 | the first group shares no answer with the last |
| FinalOcr.SecondTailApart | final_ocr_processor.py:40-56 | the second group shares no answer with the last |
| FinalOcr.DistinctJoin | final_ocr_processor.py:32-57 | two lists with distinct answers and none in common join into one with distinct answers |
| FinalOcr.PatternsDistinct | final_ocr_processor.py:32-57 | `answer_patterns` has one entry per canonical answer |
| FinalOcr.RegionTableWithin | final_ocr_processor.py:83-86 | both left-bottom regions lie inside the image |
| FinalOcr.PreprocessImages | final_ocr_processor.py:88-111 | the images are the three methods times two scales of every non-empty region, in loop order |
| FinalOcr.AtMostTwelve | final_ocr_processor.py:83-111 | six images per non-empty region, at most twelve |
| FinalOcr.ScanPatterns | final_ocr_processor.py:150-154 | the keyword loop with `break` appends the dictionary hits |
| FinalOcr.ParseText | final_ocr_processor.py:145-172 | the parser computes the dictionary hits followed by the 2-4 digit, 2-6 capital, 1-4 CJK and 1-3 symbol runs |
| FinalOcr.DictionaryHitsOnce | final_ocr_processor.py:150-154 | a canonical answer is appended exactly once when any of its keywords occurs, however many do, and never otherwise |
| FinalOcr.DictionaryAnswerOnce | final_ocr_processor.py:150-154 | with the processor's dictionary every canonical answer is appended at most once per text, exactly when one of its keywords occurs |
| FinalOcr.ParseStartsWithDictionary | final_ocr_processor.py:147-158 | the dictionary hits come first in the parse |
| FinalOcr.ExtractCandidates | final_ocr_processor.py:113-143 | every parsed candidate of every non-blank `chi_sim` and `eng` reading adds 1 |
| FinalOcr.SelectBestAnswer | final_ocr_processor.py:174-188 | the method computes the staged selection |
| FinalOcr.SelectedStages | final_ocr_processor.py:174-188 | an empty counter gives `""`; otherwise a most frequent dictionary answer when one was parsed, else a most frequent candidate |
| FinalOcr.ProcessSingleImage | final_ocr_processor.py:205-213 | no images gives `""`; a non-empty answer is a key of the counter |
| SmartOcr.RegionTableWithin | smart_ocr_extractor.py:92-101 | each of the five regions lies inside the image |
| SmartOcr.PreprocessImages | smart_ocr_extractor.py:82-127 | three images, one per binarization at scale 4, for every non-empty region in table order: fifteen at most |
| SmartOcr.BestIsFirstMaximum | smart_ocr_extractor.py:193 | `max` by (count, length) returns an element no other element beats, and none before its first position ties with it |
| SmartOcr.BeatsAsymmetric | smart_ocr_extractor.py:193 | the (count, length) order is asymmetric |
| SmartOcr.FindBest | smart_ocr_extractor.py:193 | the `max` loop computes `Best` |
| SmartOcr.AllMatches | smart_ocr_extractor.py:66-67 | every match is made of the pattern's characters and lies within its length bounds |
| SmartOcr.CollectMatches | smart_ocr_extractor.py:182-200 | the `extend` loop concatenates the matches of every text in order |
| SmartOcr.MostFrequent | smart_ocr_extractor.py:188-193 | counting then `max` picks `Best` of the matches under their counts, one of the matches |
| SmartOcr.FrequentMatch | smart_ocr_extractor.py:181-211 | the number stage and then the letter stage compute `Frequent` |
| SmartOcr.ExtractAnswer | smart_ocr_extractor.py:167-211 | the method computes `Extracted` |
| SmartOcr.ExtractedCases | smart_ocr_extractor.py:167-211 | no texts give `""`; a keyword in the joined texts gives the canonical answer of the first entry mentioned; else the most frequent, then longest, number of two to four digits; else the most frequent, then longest, run of capitals; else `""` |
| SmartOcr.ProcessAnswersJson | smart_ocr_extractor.py:244-277 | records with an empty or placeholder answer take a non-empty OCR answer, the others are skipped; the count is that of the updated records; the file is written exactly when updating is on and some record changed |
| CleanAnswers.AlternativesNonEmpty | extract_clean_answers.py:14-27 | no alternative of the answer patterns is empty |
| CleanAnswers.FirstPriority | extract_clean_answers.py:57-61 | the priority loop stops at the first group with a match, every group before it having none |
| CleanAnswers.CollectCandidates | extract_clean_answers.py:40-44 | the `extend` loop concatenates the six passes' matches in pattern order |
| CleanAnswers.FindPriority | extract_clean_answers.py:51-61 | the priority loop finds the first group with a match and its first match |
| CleanAnswers.ExtractAnswer | extract_clean_answers.py:32-64 | the method computes the answer of `extract_answer_from_text` |
| CleanAnswers.CandidatesInText | extract_clean_answers.py:40-44 | every candidate occurs in the text |
| CleanAnswers.PassesInText | extract_clean_answers.py:42-44 | every match of every pass occurs in the text |
| CleanAnswers.AltPassesInText | extract_clean_answers.py:16-26 | every match of an alternation pass occurs in the text |
| CleanAnswers.ExtractedCases | extract_clean_answers.py:36-64 | empty text or no match gives `""`; else the leftmost match of the first priority group that occurs, else the longest candidate, the earliest on ties; a non-empty answer occurs in the text |
| CleanAnswers.ManualAnswersNonEmpty | extract_clean_answers.py:71-86 | every answer of the manual map is non-empty |
| CleanAnswers.ApplyManualAnswers | extract_clean_answers.py:94-113 | exactly the placeholder records whose file is in the map take the mapped answer and nothing else changes; the count is that of the update rule, at most the placeholders, and the file is written exactly when some record was updated |
| DownloadOcr.PreprocessImages | download_and_ocr.py:60-97 | a readable image gives the three binarizations of the bottom-left crop `[int(h*0.7), h) x [0, int(w*0.3))` scaled by 4, in order, and none when the crop is empty |
| DownloadOcr.RegionTableShape | download_and_ocr.py:63-68 | the crop lies inside the image and is non-empty once the image is at least 4 pixels wide and 1 high |
| DownloadOcr.OcrSingleImage | download_and_ocr.py:162-194 | the method computes the answer of `ocr_single_image` from the preprocessed images |
| DownloadOcr.ChooseAnswer | download_and_ocr.py:186-194 | the `chi_sim` filter and `max(key=len)` compute the choice among the cleaned readings |
| DownloadOcr.ChosenCases | download_and_ocr.py:188-194 | the choice is the text of a cleaned reading: a `chi_sim` one when there is one, and no reading of the preferred language is longer |
| DownloadOcr.ChosenOfReadings | download_and_ocr.py:176-194 | empty exactly when no reading survives cleaning; otherwise the cleaned text of some reading, the preferred one |
| DownloadOcr.ImageAnswerCases | download_and_ocr.py:162-194 | `""` exactly when there are no images or no reading survives cleaning; otherwise the cleaned text of one reading, `chi_sim` first, no shorter than the rest; it holds only meaningful, non-space characters |
| DownloadOcr.ProcessAnswersJson | download_and_ocr.py:217-261 | only records with an empty or placeholder answer, a URL and an available image change, only their answer, only to the non-empty OCR text; the file is written exactly when updating is on and some record qualifies |
| OcrExtractor.PickText | ocr_answer_extractor.py:105 | the `chi_sim` text is picked exactly when its stripped length is strictly greater; `eng` otherwise, ties included |
| OcrExtractor.ExtractTextCases | ocr_answer_extractor.py:95-115 | no readable image, an empty crop or a raising recognizer call (either of the two) gives `""`; otherwise the cleaned text of the longer reading, `eng` on ties; the result holds only meaningful, non-space characters |
| OcrExtractor.CropShape | ocr_answer_extractor.py:52-57 | the bottom-left crop lies inside the image and is non-empty once the image is at least 4 pixels wide and 1 high |
| OcrExtractor.ProcessDirectory | ocr_answer_extractor.py:180-206 | only records with a present image and an empty or placeholder answer change, only their answer, only to a non-empty text; `updated_count` counts them and the file is rewritten exactly when `update_json` is set and one changed |
| ImprovedOcr.RegionTableShape | improved_ocr_test.py:36-46 | every bottom-left crop lies inside the image and is non-empty once the image is at least 4 pixels wide and 1 high |
| ImprovedOcr.AllKept | improved_ocr_test.py:39-50 | no crop is dropped when all are non-empty |
| ImprovedOcr.CropsNonEmpty | improved_ocr_test.py:36-46 | every bottom-left crop is non-empty exactly when the image is at least 4 pixels wide and 1 high |
| ImprovedOcr.PreprocessImages | improved_ocr_test.py:26-98 | an unreadable file gives no images; a readable one fails (the OpenCV error on an empty crop) exactly when the image is narrower than 4 pixels or has no rows, and otherwise gives the six methods of every crop, in ratio order and scaled by 3: 24 images |
| ImprovedOcr.TestImage | improved_ocr_test.py:159-190 | an unreadable file gives `None`; otherwise fails exactly when preprocessing fails, and else computes the answer of `test_image` over the 24 images |
| ImprovedOcr.TestAnswerCases | improved_ocr_test.py:165-190 | `None` exactly when no reading survives the cleaner; otherwise the non-empty cleaned text of one reading that no cleaned reading exceeds, every earlier one strictly shorter |
| AccuracyCheck.UpperAll | validate_ocr_accuracy.py:180-181 | each Latin word is replaced by its upper-case form, one for one and in order |
| AccuracyCheck.UpperWords | validate_ocr_accuracy.py:181 | the upper-casing comprehension computes `UpperAll` |
| AccuracyCheck.CleanAndExtract | validate_ocr_accuracy.py:163-191 | the extend-by-extend loop yields the four passes' candidates in order (CJK, upper-cased Latin, digits, symbols) |
| AccuracyCheck.UpperLatin | validate_ocr_accuracy.py:180-181 | every Latin candidate is 2 to 10 capitals |
| AccuracyCheck.CandidatesOf | validate_ocr_accuracy.py:176-189 | every candidate is a CJK run of 1-4, a capitalised Latin run of 2-10, a digit run of 1-4 or a symbol run of 1-3 found in the collapsed text |
| AccuracyCheck.CandidatesShape | validate_ocr_accuracy.py:167-191 | empty text gives no candidates; otherwise every candidate is one of the four runs of the collapsed text, the CJK runs come first and the Latin ones are all capitals |
| AccuracyCheck.CollectCandidates | validate_ocr_accuracy.py:243-251 | the candidates of all readings are concatenated in reading order |
| AccuracyCheck.FindCorrect | validate_ocr_accuracy.py:262-267 | `correct_found` holds exactly when the expected answer is one of the grouped candidates |
| AccuracyCheck.EvaluateRecord | validate_ocr_accuracy.py:210-281 | one record: no entry without URL, original image or preprocessed images; otherwise the grouped candidates of the first 20 images and the `correct_found` flag |
| AccuracyCheck.EvaluateCorrect | validate_ocr_accuracy.py:254-280 | `correct_found` holds exactly when the expected answer is among all candidates; the listed candidates are those values, each exactly once |
| AccuracyCheck.CorrectCount | validate_ocr_accuracy.py:286 | the correct count never exceeds the number of results |
| AccuracyCheck.Accuracy | validate_ocr_accuracy.py:290 | the percentage fails exactly for an empty result list and otherwise lies between 0 and 100 |
| AccuracyCheck.ResultsNext | validate_ocr_accuracy.py:210-281 | one more record appends its entry, if any, to the results |
| AccuracyCheck.EvaluateAll | validate_ocr_accuracy.py:210-281 | the record loop over the first `n` records builds the result list of the model |
| AccuracyCheck.CountCorrect | validate_ocr_accuracy.py:286 | the generator sum computes the number of results with `correct_found` |
| AccuracyCheck.HeadLength | validate_ocr_accuracy.py:210 | the length of `answers_data[:test_count]`, with Python's slice rules for a count beyond the list or a negative count |
| AccuracyCheck.TestKnownAnswers | validate_ocr_accuracy.py:193-292 | the test runs over `answers_data[:test_count]` (a negative count drops records from the end), `correct_count` counts the recognized records, and the run fails with a division by zero exactly when no record produced an entry |
| AccuracyCheck.ResultsCount | validate_ocr_accuracy.py:210-286 | at most one entry per tested record, each entry's flag says whether its expected answer is a candidate, and no entries means every record lacked a URL, an image or preprocessed images |
| AnswerMasker.AnyFix | smart_answer_masker.py:146-150 | true exactly when one listed character fix, replacing every occurrence, turns the detected text into the expected one |
| AnswerMasker.FindFix | smart_answer_masker.py:147-152 | the loop over the fixes answers exactly `AnyFix` |
| AnswerMasker.IsAnswerMatch | smart_answer_masker.py:129-152 | the method's answer is the match relation `AnswerMatch` |
| AnswerMasker.AnswerMatchCases | smart_answer_masker.py:131-152 | empty arguments never match; equal or contained texts (after strip and lower-casing) always match; otherwise a match holds exactly when a listed fix gives the expected text |
| AnswerMasker.AnswerMatchContainment | smart_answer_masker.py:143-144 | containment in either direction makes both argument orders match |
| AnswerMasker.SearchRegionsShape | smart_answer_masker.py:45-65 | every one of the ten search regions lies inside the image and has a priority from 1 to 6 |
| AnswerMasker.Shift | smart_answer_masker.py:83-87 | each corner of the box is moved by the crop's offset, none lost |
| AnswerMasker.ScanRegion | smart_answer_masker.py:80-106 | the per-crop loop keeps exactly the detections `RegionDetections` describes |
| AnswerMasker.ScanRegions | smart_answer_masker.py:69-117 | the loop over the search regions, skipping empty crops, yields `AllDetections` |
| AnswerMasker.DetectRegions | smart_answer_masker.py:38-127 | the method returns `DetectAnswerRegions` of the image |
| AnswerMasker.RegionDetectionsGood | smart_answer_masker.py:81-104 | each detection of a crop has non-blank stripped text, confidence above 0.3, its region's name, and priority 0 exactly when it matches the expected answer |
| AnswerMasker.AllDetectionsGood | smart_answer_masker.py:69-117 | every detection over all crops is good in the same sense |
| AnswerMasker.DetectAnswerRegionsSorted | smart_answer_masker.py:119-127 | the result is a permutation of the crops' detections, sorted by priority then falling confidence, each detection good |
| AnswerMasker.SelectTargets | smart_answer_masker.py:232-242 | the method picks exactly `Targets` |
| AnswerMasker.TargetsCases | smart_answer_masker.py:232-242 | with an expected answer at most one region: the first match, which is then the most confident match, else the first detection; without one the first `min(k, 3)` regions of priority at most 2, in order, where `k` is how many there are |
| AnswerMasker.ExpectedFirst | smart_answer_masker.py:99-120 | once sorted, an expected match comes first and is the most confident of the matches |
| AnswerMasker.ApplySmartMask | smart_answer_masker.py:198-269 | the method returns `MaskOutcome` |
| AnswerMasker.MaskOutcomeBounds | smart_answer_masker.py:213-269 | failure exactly when the image is unreadable or nothing is detected; on success the masked count equals the list length, is at most the detected count, is 1 with an expected answer and without one is the number of detections of priority at most 2, capped at 3 |
| BatchUpdate.ContainsAny | batch_update_answers.py:49 | the `any(... in ...)` test holds exactly when some pattern occurs in the text |
| BatchUpdate.ContainsTailOf | batch_update_answers.py:203-204 | an answer containing `1查看色弱滤镜` contains `查看色弱滤镜` |
| BatchUpdate.SingleImpliesBatch | batch_update_answers.py:226 | an answer selected by `update_single_dataset` is a placeholder answer for `is_placeholder_answer` |
| BatchUpdate.BatchImpliesSingle | batch_update_answers.py:37-49 | a placeholder answer for `is_placeholder_answer` is selected by `update_single_dataset` |
| BatchUpdate.SelectionsAgree | batch_update_answers.py:37-49 | the five-marker test of the single mode and `is_placeholder_answer` select the same answers, the crawler's placeholder among them |
| BatchUpdate.SubSuffix | batch_update_answers.py:29 | removing an end-anchored pattern never lengthens the text and leaves a text alone that neither ends with it nor with a newline |
| BatchUpdate.Stage | batch_update_answers.py:27-29 | each stage of the removal loop is no longer than the argument and, after the first pattern, stripped |
| BatchUpdate.RemoveSuffixes | batch_update_answers.py:27-29 | the loop over `patterns_to_remove` computes the last stage |
| BatchUpdate.ExtractAnswerFromPlaceholder | batch_update_answers.py:13-35 | the method computes the intended extraction |
| BatchUpdate.ExtractShape | batch_update_answers.py:15-35 | `""` gives `""`; anything else returned is stripped, non-empty, no longer than the argument and different from it |
| BatchUpdate.StagesKeep | batch_update_answers.py:28-29 | once the first stage is a stripped text that ends with no marker, the remaining patterns keep it |
| BatchUpdate.PlainGivesNothing | batch_update_answers.py:32-35 | a stripped text that ends with no marker yields `""` |
| BatchUpdate.ExtractRecoversPrefix | batch_update_answers.py:18-33 | the text in front of a trailing `查看色弱滤镜` is returned when it is stripped and ends with no marker |
| BatchUpdate.PatternsLong | batch_update_answers.py:19-25 | every removal pattern is at least three characters long |
| BatchUpdate.PlaceholderYieldsOne | batch_update_answers.py:13-35 | the crawler's placeholder `1查看色弱滤镜` yields `"1"` |
| BatchUpdate.ExtractAsWritten | batch_update_answers.py:7-35 | as written every non-empty argument raises, because `re` is not imported |
| BatchUpdate.ScanAsWrittenCases | batch_update_answers.py:76-84 | as written the first loop raises exactly when some answer is a placeholder and otherwise collects nothing |
| BatchUpdate.AsWrittenNeverUpdates | batch_update_answers.py:71-178 | as written a dataset is never changed and never rewritten |
| BatchUpdate.CleanedOcr | batch_update_answers.py:147-148 | after the replace-and-strip loop the answer is stripped |
| BatchUpdate.CleanedOcrKeeps | batch_update_answers.py:147-148 | a stripped answer without any marker comes out of the loop unchanged |
| BatchUpdate.OcrAssigned | batch_update_answers.py:138-151 | the OCR path assigns only a non-empty, stripped text, and only for a non-empty OCR answer different from the current one |
| BatchUpdate.Assigned | batch_update_answers.py:103-156 | only a selected record receives an answer, and only a non-empty one |
| BatchUpdate.DatasetRevised | batch_update_answers.py:103-156 | the list after the loop keeps its length and holds each record revised on its own |
| BatchUpdate.AssignedCases | batch_update_answers.py:103-156 | only a selected record's answer changes, to a non-empty text; in batch mode the recovered text when longer than one character, else with a URL the cleaned OCR answer; in single mode with a URL the cleaned OCR answer |
| BatchUpdate.BatchRecoversPrefix | batch_update_answers.py:111-113 | a record whose answer is a stripped text longer than one character followed by `查看色弱滤镜` gets that text back |
| BatchUpdate.CamelRecovered | batch_update_answers.py:111-113 | `骆驼查看色弱滤镜` becomes `骆驼` |
| BatchUpdate.AssignForSelects | batch_update_answers.py:103-156 | an assignment happens only for a selected record |
| BatchUpdate.CollectPlaceholders | batch_update_answers.py:76-84 | the first loop collects the indexes of the selected records in file order |
| BatchUpdate.CleanOcrAnswer | batch_update_answers.py:140-148 | the replace loop computes the cleaned OCR answer |
| BatchUpdate.AssignAnswer | batch_update_answers.py:104-156 | the body of the second loop computes the assignment for one record |
| BatchUpdate.ApplyAssignments | batch_update_answers.py:103-167 | only the records at the collected indexes change, each to its revision, and `updated_count` counts the assignments |
| BatchUpdate.UpdateDataset | batch_update_answers.py:76-175 | a dataset after both loops is the revised list, `updated_count` counts the assignments and is at most the number of selected records, and the file is written exactly when it is positive |
| PlaceholderCheck.MarkedAgreesWithBatch | check_placeholder_answers.py:17-44 | the report flags exactly the answers the batch refresher treats as placeholders, the crawler's placeholder among them |
| PlaceholderCheck.Marks | check_placeholder_answers.py:40-53 | no more items than records |
| PlaceholderCheck.MarksFollowIndices | check_placeholder_answers.py:40-53 | the `m`-th item is the record at the `m`-th flagged position, numbered from 1 |
| PlaceholderCheck.MarksExact | check_placeholder_answers.py:40-53 | every item shows a flagged record at its 1-based position, the positions increase, and every flagged record has its item |
| PlaceholderCheck.CheckDataset | check_placeholder_answers.py:36-61 | the loop over one dataset computes its entry |
| PlaceholderCheck.MarksEmpty | check_placeholder_answers.py:44-55 | a dataset has no items exactly when none of its records is flagged |
| PlaceholderCheck.DatasetInfoNone | check_placeholder_answers.py:55 | a dataset gets no entry exactly when none of its records is flagged |
| PlaceholderCheck.DatasetInfoShape | check_placeholder_answers.py:55-61 | an entry holds the dataset size, the flagged count (at least one, at most the size), its positive percentage up to 100, and the first `min(10, count)` items |
| PlaceholderCheck.PercentPositive | check_placeholder_answers.py:59 | a positive part of the whole is a positive percentage up to 100 |
| PlaceholderCheck.CheckAll | check_placeholder_answers.py:11-71 | the datasets' entries in directory order, or the bare `return` when there is none |
| PlaceholderCheck.ResultsNames | check_placeholder_answers.py:28-61 | a name is reported exactly when some dataset of that name has a flagged record |
| PlaceholderCheck.ResultsLastWins | check_placeholder_answers.py:56 | a reported name carries the entry of the last dataset of that name with a flagged record |
| SequenceAnalysis.SequenceErrorNumbered | analyze_sequence_errors.py:29-34 | a sequence error always has a number in its filename |
| SequenceAnalysis.CountNumbered | analyze_sequence_errors.py:29-30 | the records with a number in their filename are at most all records |
| SequenceAnalysis.Classify | analyze_sequence_errors.py:24-47 | the loop builds exactly the error list and the correct list |
| SequenceAnalysis.AnalyzeSequenceErrors | analyze_sequence_errors.py:18-64 | an empty file ends in a division by zero, and only an empty file does; otherwise the report holds both lists and both rates as percentages of the record count |
| SequenceAnalysis.PickedDescribe | analyze_sequence_errors.py:35-46 | every entry copies the record at its 1-based position, which the list's test picks |
| SequenceAnalysis.PickedInOrder | analyze_sequence_errors.py:24 | the entries are in file order with positions from 1 to the record count |
| SequenceAnalysis.PickedComplete | analyze_sequence_errors.py:24-47 | every picked record has its entry |
| SequenceAnalysis.ListsExact | analyze_sequence_errors.py:24-47 | the error list holds, in file order, exactly the records whose digit answer equals their file number, and the correct list exactly the other numbered records |
| SequenceAnalysis.Partition | analyze_sequence_errors.py:29-47 | the two lists together hold one entry per numbered record, and records without a number are in neither |
| SequenceAnalysis.RatesBounded | analyze_sequence_errors.py:61-62 | both rates are percentages and they add up to at most 100 |
| SequenceFix.FixAnswer | fix_sequence_errors.py:60-84 | an answer is written exactly for a sequence error with a URL whose OCR answer is non-empty and different from the current one, and it is that OCR answer |
| SequenceFix.FindSequenceErrors | fix_sequence_errors.py:23-38 | the first loop collects the 0-based indexes of the sequence errors, in file order |
| SequenceFix.FixAll | fix_sequence_errors.py:51-86 | only the records at the collected indexes are revised, the rest unchanged, and `fixed_count` counts the written answers |
| SequenceFix.FixSequenceErrors | fix_sequence_errors.py:14-104 | each record is revised on its own; `fixed_count` counts the written answers and is at most the number of errors found; the file is saved exactly when something was fixed |
| SequenceFix.SameCriterion | fix_sequence_errors.py:24-38 | the fixer flags exactly the records the analyzer lists as sequence errors |
| OcrSummary.KindMeaning | ocr_summary.py:44-55 | each category means what its test says, earlier tests winning: listed words are animals or objects, digit strings are numbers, capitals words are letters, other CJK text is Chinese, and the rest is other |
| OcrSummary.Types | ocr_summary.py:21-55 | every category is present and holds the pairs of its non-placeholder records in file order |
| OcrSummary.Classify | ocr_summary.py:36-55 | the loop builds the categories and counts the placeholders |
| OcrSummary.SummarizeOcrResults | ocr_summary.py:10-60 | an empty file ends in a division by zero, and only an empty file does; otherwise the summary holds the categories, the placeholder count and the completion rate as a percentage of the record count |
| OcrSummary.SummaryTotals | ocr_summary.py:36-58 | the categories and the placeholder count together account for every record once |
| Validation.Compared | validate_ocr_results.py:38 | the compared count is the least of `known` and both file lengths, and 0 for a negative `known` |
| Validation.Agreements | validate_ocr_results.py:38-53 | no more agreements than compared positions |
| Validation.Mismatches | validate_ocr_results.py:66-75 | one mismatch per compared position that disagrees |
| Validation.MismatchesExact | validate_ocr_results.py:66-75 | a mismatch is listed exactly for each compared position whose answers differ, with the current file's name and both answers |
| Validation.Compare | validate_ocr_results.py:32-53 | `correct_count` is the agreements among the compared positions, and the two counts add up to the compared count |
| Validation.ListMismatches | validate_ocr_results.py:64-75 | the second loop lists `Mismatches` |
| Validation.AccuracyOverKnown | validate_ocr_results.py:61 | the accuracy is a percentage of `known`, not of the compared count: below 100 when fewer than `known` positions were compared, and 0 for a negative `known` |
| Validation.Tail | validate_ocr_results.py:79 | Python's `current_data[known:]` for either sign of `known` |
| Validation.CjkWord | validate_ocr_results.py:98-107 | a word of ideographs is neither a number nor capitals, and is Chinese |
| Validation.AgreesWithSummary | validate_ocr_results.py:91-109 | this report and the summary put every answer in the same category, except the three added words, which only this report lists |
| Validation.WordListsRelated | validate_ocr_results.py:91-92 | the summary's word lists are this report's lists without the additions, and no word is both an animal and an object |
| Validation.Types | validate_ocr_results.py:82-109 | every category is present and holds the lines of its tail records in order |
| Validation.Classify | validate_ocr_results.py:94-109 | the classification loop computes `Types` |
| Validation.TypesStep | validate_ocr_results.py:94-109 | one more record appends its line to its own category and leaves the others unchanged |
| Validation.TypesTotal | validate_ocr_results.py:94-109 | every tail record is listed once |
| Validation.BucketLines | validate_ocr_results.py:94-109 | every line shows a tail record of its category, numbered from `known + 1` |
| Validation.TailPositions | validate_ocr_results.py:79-94 | for `0 <= known < len` the `j`-th tail record is the file's record `known + j`, so the line numbers are the records' own positions |
| Validation.CompareOcrResults | validate_ocr_results.py:11-109 | `known == 0` raises a division by zero, and only it; otherwise the report holds the counts, the accuracy over `known`, the mismatches and the categories of the tail |
| Validation.NoMismatches | validate_ocr_results.py:64 | when every compared answer agrees there is nothing to list |

## Left out

- **Recognizers.** EasyOCR `readtext`, PaddleOCR `ocr` and `pytesseract.image_to_string` are foreign code. They are parameters: a sequence of raw detections, or a `Recognizer` function. Calls that raise are handled as follows:
  - A `Recognizer` returns `None` for a call that raises. In the tesseract loops (`Tesseract`, used by `DownloadOcr`, `ImprovedOcr` and `AccuracyCheck`), such a call ends that configuration's `try` block, so a raising `chi_sim` call also skips the `eng` call.
  - `OcrExtractor.ExtractText` gives `""` when either of its two calls raises, even after a successful `chi_sim` call.
  - Where the recognizer outputs are a sequence (`Imaging.Readings`, the EasyOCR detections, the PaddleOCR lines), the sequence holds the outputs of the calls that returned, in call order. A call that raised, and any call its `try` block then skipped, contributes nothing. The model then applies the tools' own filters to it (`EasyOcr.Observed`, `PaddleOcr.Observed`).
  - A PaddleOCR line is its text and its optional confidence. Lines with fewer than two parts, which the `len(line) >= 2` guard skips, and non-string texts are not represented.
- **Pixel work.** OpenCV and numpy operations are not modelled: grayscale, thresholds, resizing, morphology, `create_mask_for_region`, polygon filling and the painting and saving in `apply_smart_mask`. An image is its width and height. A preprocessed image is the region, method and scale it was made from.
- **Network and file-system effects.** Downloads, `download_image`, the `original_images` directory and the choice between the original and the local image path are not modelled.
  - Each `ProcessSingleImage` starts after the download step.
  - A failed download returns `""`, which the update loops receive as an empty recognizer answer.
  - Whether an image file exists is a `bool` parameter (`available`).
- **JSON and reporting.** JSON reading and writing, backup renames and copies, `print`, debug output and `time.sleep` are not modelled. The record list is an in-memory sequence, and "the file is written" is a returned `bool`.
- **Drivers.** `main`, `argparse`, `test_single_image`, `batch_mask_dataset` and the batch totals are not modelled. They only call the modelled operations and print.
- **Directory order.** The order of `iterdir()` is the order of the sequence of datasets passed in.
- **Floating point.**
  - Confidences, scores and percentages are exact `real` numbers.
  - `int(height*0.75)`-style crop coordinates are `floor(n * p / 100)`.
  - Neither float rounding (which can move a crop edge by one pixel for some sizes) nor the `.1f` formatting is modelled.
- **Unicode.**
  - `str.isdigit` means ASCII `0`–`9`.
  - The regular-expression class `\d` means ASCII `0`–`9` (`Text.IsDigit`, used by `Scan.FirstDigitRun`, `Scan.Chunks` and `Cleaning.PrefixLength`). Python's `re` also matches other decimal digits, such as the full-width `１` of a filename `第１题.jpg`.
  - `str.lower` and `str.upper` change ASCII letters only.
  - `isalpha` and `isupper` cover ASCII and Latin-1 letters, full-width Latin letters, kana, CJK ideographs (with extension A) and hangul syllables. Letters of other scripts are not letters in the model.
  - `\w` is a fixed character class: ASCII letters, digits and `_`, Latin-1 letters, CJK ideographs, kana, hangul, circled numbers and full-width letters and digits.
  - Other Unicode letters and digits are not word characters in the model.
- **Known-answer iteration order.** EasyOCR keeps its known answers in a Python `set`, whose iteration order depends on string hashing. The model uses source-text order. The selector contracts do not depend on that order.
- EasyOcr.SelectedStages: names a candidate of highest score×count among those passing a stage, not which of several equal ones the stable sort returns. That tie depends on dictionary insertion order, and so on set iteration order.
- PaddleOcr.SelectedStages: states the highest-ranked passing candidate up to ties, for the same reason.
- UniversalOcr.SelectedStages: states a most frequent passing key up to ties, not the first one in insertion order.
- FinalOcr.SelectedStages: states a most frequent passing key up to ties, not the first one in insertion order.

## Findings

| source | as written | input that shows it | evidently intended | confidence | as-written member | corrected member |
|---|---|---|---|---|---|---|
| batch_update_answers.py:7-35 | `extract_answer_from_placeholder` calls `re.sub`, but the module never imports `re` (its imports are `json`, `os`, `time`, `Path` and the EasyOCR tool), so any non-empty argument raises `NameError` | a dataset with the record answer `骆驼查看色弱滤镜`: the first loop (lines 76-84) calls the function, the per-dataset handler at line 177 catches the error, and the dataset is never updated | the end-anchored markers are removed and `骆驼` is written back; the crawler's placeholder yields `1`, which the length test at line 111 then rejects | not executed | BatchUpdate.AsWrittenNeverUpdates | BatchUpdate.UpdateDataset |
