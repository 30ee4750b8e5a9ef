/**
 * The regular-expression searches of the OCR scripts, written as scanners
 * over the string: `re.findall` with a word-bounded repetition, with an
 * unbounded repetition, with an alternation of literals, and `re.search`
 * for the first run of digits.
 */
module Scan {
  import opened Text
  import opened Wrappers

  /** Length of the longest prefix of `s` whose characters all satisfy `p`. */
  function RunLength(s: string, p: char -> bool): (n: nat)
    ensures n <= |s|
    ensures forall i | 0 <= i < n :: p(s[i])
    ensures n == |s| || !p(s[n])
    decreases |s|
  {
    if s != [] && p(s[0]) then 1 + RunLength(s[1..], p) else 0
  }

  predicate All(w: string, p: char -> bool) {
    forall i | 0 <= i < |w| :: p(w[i])
  }

  /** `w` is a substring of `s`. */
  predicate InText(w: string, s: string) {
    exists i | 0 <= i <= |s| - |w| :: OccursAt(s, w, i)
  }

  lemma InTail(w: string, s: string, k: nat)
    requires k <= |s| && InText(w, s[k..])
    ensures InText(w, s)
  {
    var i :| OccursAt(s[k..], w, i);
    OccursInSuffix(s, w, k, i);
  }

  lemma PrefixInText(s: string, n: nat)
    requires n <= |s|
    ensures InText(s[..n], s)
  {
    assert OccursAt(s, s[..n], 0);
  }

  // ----------------------------------------------------- `\bP{lo,hi}\b`

  /**
   * `re.findall(r'\bP{lo,hi}\b', s)` where every character of `P` is a
   * word character: `\b` can only hold at the ends of a maximal run of
   * word characters, so a match is a whole run made only of `P`
   * characters whose length lies in `lo..hi`.
   */
  function WholeWords(s: string, p: char -> bool, lo: nat, hi: nat): (ws: seq<string>)
    ensures forall k | 0 <= k < |ws| :: All(ws[k], p) && lo <= |ws[k]| <= hi && ws[k] != [] && InText(ws[k], s)
    decreases |s|
  {
    if s == [] then []
    else if !IsWordChar(s[0]) then
      var rest := WholeWords(s[1..], p, lo, hi);
      assert forall k | 0 <= k < |rest| :: InText(rest[k], s) by {
        forall k | 0 <= k < |rest| ensures InText(rest[k], s) { InTail(rest[k], s, 1); }
      }
      rest
    else
      var n := RunLength(s, IsWordChar);
      var w := s[..n];
      var rest := WholeWords(s[n..], p, lo, hi);
      assert forall k | 0 <= k < |rest| :: InText(rest[k], s) by {
        forall k | 0 <= k < |rest| ensures InText(rest[k], s) { InTail(rest[k], s, n); }
      }
      PrefixInText(s, n);
      (if All(w, p) && lo <= n <= hi then [w] else []) + rest
  }

  /**
   * `s[i..j]` is where `\bP{lo,hi}\b` matches: a maximal run of word
   * characters, every one of them in `P`, between `lo` and `hi` long.
   */
  predicate WholeWordAt(s: string, p: char -> bool, lo: nat, hi: nat, i: int, j: int) {
    0 <= i < j <= |s| && lo <= j - i <= hi
    && (forall k | i <= k < j :: IsWordChar(s[k]) && p(s[k]))
    && (i == 0 || !IsWordChar(s[i - 1])) && (j == |s| || !IsWordChar(s[j]))
  }

  /** `spans` are increasing, non-overlapping positions of `s`, and `ws` the texts found there. */
  predicate SpelledBy(s: string, spans: seq<(int, int)>, ws: seq<string>) {
    |spans| == |ws|
    && (forall k | 0 <= k < |spans| :: 0 <= spans[k].0 <= spans[k].1 <= |s| && ws[k] == s[spans[k].0..spans[k].1])
    && (forall k | 0 < k < |spans| :: spans[k - 1].1 <= spans[k].0)
  }

  /** `ws` are the texts, left to right, of exactly the places where `\bP{lo,hi}\b` matches. */
  ghost predicate WholeWordSpans(s: string, p: char -> bool, lo: nat, hi: nat, spans: seq<(int, int)>, ws: seq<string>) {
    SpelledBy(s, spans, ws)
    && (forall k | 0 <= k < |spans| :: WholeWordAt(s, p, lo, hi, spans[k].0, spans[k].1))
    && (forall i, j | WholeWordAt(s, p, lo, hi, i, j) :: (i, j) in spans)
  }

  /** Positions of `s[d..]` are those of `s` moved by `d`, when `d` is not inside a word. */
  lemma WholeWordShift(s: string, p: char -> bool, lo: nat, hi: nat, d: nat, i: int, j: int)
    requires 0 < d <= |s| && (d == |s| || !IsWordChar(s[d]) || !IsWordChar(s[d - 1]))
    requires d <= i
    ensures WholeWordAt(s, p, lo, hi, i, j) <==> WholeWordAt(s[d..], p, lo, hi, i - d, j - d)
  {
    var t := s[d..];
    if WholeWordAt(s, p, lo, hi, i, j) {
      forall k | i - d <= k < j - d ensures IsWordChar(t[k]) && p(t[k]) {
        assert t[k] == s[k + d];
      }
      if i - d > 0 {
        assert t[i - d - 1] == s[i - 1];
      }
      if j - d < |t| {
        assert t[j - d] == s[j];
      }
    }
    if WholeWordAt(t, p, lo, hi, i - d, j - d) {
      forall k | i <= k < j ensures IsWordChar(s[k]) && p(s[k]) {
        assert s[k] == t[k - d];
      }
      if i > d {
        assert s[i - 1] == t[i - d - 1];
      } else {
        assert IsWordChar(t[0]);
      }
      if j < |s| {
        assert s[j] == t[j - d];
      }
    }
  }

  /** The spans of `s[d..]`, moved to positions of `s`. */
  function ShiftSpans(spans: seq<(int, int)>, d: int): (moved: seq<(int, int)>)
    ensures |moved| == |spans|
    ensures forall k | 0 <= k < |spans| :: moved[k] == (spans[k].0 + d, spans[k].1 + d)
  {
    seq(|spans|, k requires 0 <= k < |spans| => (spans[k].0 + d, spans[k].1 + d))
  }

  lemma ShiftSpelled(s: string, d: nat, spans: seq<(int, int)>, ws: seq<string>)
    requires d <= |s| && SpelledBy(s[d..], spans, ws)
    ensures SpelledBy(s, ShiftSpans(spans, d), ws)
  {
    var moved := ShiftSpans(spans, d);
    forall k | 0 <= k < |moved|
      ensures 0 <= moved[k].0 <= moved[k].1 <= |s| && ws[k] == s[moved[k].0..moved[k].1]
    {
      assert s[d..][spans[k].0..spans[k].1] == s[spans[k].0 + d..spans[k].1 + d];
    }
  }

  /** Where the scan restarts: after a non-word character, or after the first word. */
  function WordSkip(s: string): (d: nat)
    requires s != []
    ensures 0 < d <= |s| && (d == |s| || !IsWordChar(s[d]) || !IsWordChar(s[d - 1]))
  {
    if IsWordChar(s[0]) then RunLength(s, IsWordChar) else 1
  }

  /** A match before the restart point can only be the first word itself. */
  lemma WholeWordBeforeSkip(s: string, p: char -> bool, lo: nat, hi: nat, i: int, j: int)
    requires s != [] && WholeWordAt(s, p, lo, hi, i, j) && i < WordSkip(s)
    ensures IsWordChar(s[0]) && i == 0 && j == WordSkip(s) && All(s[..j], p)
  {
    var d := WordSkip(s);
    assert IsWordChar(s[0]) && i == 0;
    assert j == d;
    forall k | 0 <= k < j ensures p(s[..j][k]) { assert s[..j][k] == s[k]; }
  }

  /** The first word is a match when it is made of `P` characters and long enough. */
  lemma WholeWordFirst(s: string, p: char -> bool, lo: nat, hi: nat)
    requires s != [] && IsWordChar(s[0]) && All(s[..WordSkip(s)], p) && lo <= WordSkip(s) <= hi
    ensures WholeWordAt(s, p, lo, hi, 0, WordSkip(s))
  {
    var d := WordSkip(s);
    forall k | 0 <= k < d ensures IsWordChar(s[k]) && p(s[k]) { assert s[..d][k] == s[k]; }
  }

  /** Whether the first word of `s` is itself a match. */
  predicate FirstWordMatches(s: string, p: char -> bool, lo: nat, hi: nat)
    requires s != []
  {
    IsWordChar(s[0]) && All(s[..WordSkip(s)], p) && lo <= WordSkip(s) <= hi
  }

  /** A first place `s[..d]`, put before places that all lie at or after `d`. */
  lemma PrependSpan(s: string, d: nat, moved: seq<(int, int)>, rest: seq<string>)
    requires 0 < d <= |s| && SpelledBy(s, moved, rest) && (moved != [] ==> d <= moved[0].0)
    ensures SpelledBy(s, [(0, d)] + moved, [s[..d]] + rest)
  {
    var spans := [(0, d)] + moved;
    assert s[..d] == s[0..d];
    forall k | 0 < k < |spans| ensures spans[k - 1].1 <= spans[k].0 {
      if k > 1 { assert spans[k - 1] == moved[k - 2] && spans[k] == moved[k - 1]; }
    }
  }

  /** The places found in `s`: the first word if it matches, then those after the restart point. */
  function ConsSpans(s: string, p: char -> bool, lo: nat, hi: nat, sp: seq<(int, int)>): seq<(int, int)>
    requires s != []
  {
    (if FirstWordMatches(s, p, lo, hi) then [(0, WordSkip(s))] else []) + ShiftSpans(sp, WordSkip(s))
  }

  lemma ConsSpansSound(s: string, p: char -> bool, lo: nat, hi: nat, sp: seq<(int, int)>)
    requires s != [] && forall k | 0 <= k < |sp| :: WholeWordAt(s[WordSkip(s)..], p, lo, hi, sp[k].0, sp[k].1)
    ensures var spans := ConsSpans(s, p, lo, hi, sp);
      forall k | 0 <= k < |spans| :: WholeWordAt(s, p, lo, hi, spans[k].0, spans[k].1)
  {
    var d := WordSkip(s);
    var moved := ShiftSpans(sp, d);
    forall k | 0 <= k < |moved| ensures WholeWordAt(s, p, lo, hi, moved[k].0, moved[k].1) {
      WholeWordShift(s, p, lo, hi, d, moved[k].0, moved[k].1);
    }
    if FirstWordMatches(s, p, lo, hi) {
      WholeWordFirst(s, p, lo, hi);
    }
  }

  lemma ConsSpansHas(s: string, p: char -> bool, lo: nat, hi: nat, sp: seq<(int, int)>, i: int, j: int)
    requires s != [] && forall i, j | WholeWordAt(s[WordSkip(s)..], p, lo, hi, i, j) :: (i, j) in sp
    requires WholeWordAt(s, p, lo, hi, i, j)
    ensures (i, j) in ConsSpans(s, p, lo, hi, sp)
  {
    var d := WordSkip(s);
    var spans := ConsSpans(s, p, lo, hi, sp);
    if i < d {
      WholeWordBeforeSkip(s, p, lo, hi, i, j);
      assert spans[0] == (i, j);
    } else {
      WholeWordShift(s, p, lo, hi, d, i, j);
      assert (i - d, j - d) in sp;
      var k :| 0 <= k < |sp| && sp[k] == (i - d, j - d);
      var n := if FirstWordMatches(s, p, lo, hi) then 1 else 0;
      assert spans[n + k] == (i, j);
    }
  }

  lemma ConsSpansComplete(s: string, p: char -> bool, lo: nat, hi: nat, sp: seq<(int, int)>)
    requires s != [] && forall i, j | WholeWordAt(s[WordSkip(s)..], p, lo, hi, i, j) :: (i, j) in sp
    ensures forall i, j | WholeWordAt(s, p, lo, hi, i, j) :: (i, j) in ConsSpans(s, p, lo, hi, sp)
  {
    forall i, j | WholeWordAt(s, p, lo, hi, i, j) ensures (i, j) in ConsSpans(s, p, lo, hi, sp) {
      ConsSpansHas(s, p, lo, hi, sp, i, j);
    }
  }

  /** One step of the scan: the first word if it matches, then what is found after it. */
  lemma WholeWordsCons(s: string, p: char -> bool, lo: nat, hi: nat)
    requires s != []
    ensures WholeWords(s, p, lo, hi)
      == (if FirstWordMatches(s, p, lo, hi) then [s[..WordSkip(s)]] else []) + WholeWords(s[WordSkip(s)..], p, lo, hi)
  {
  }

  lemma ConsSpelled(s: string, p: char -> bool, lo: nat, hi: nat, sp: seq<(int, int)>, rest: seq<string>)
    requires s != [] && SpelledBy(s[WordSkip(s)..], sp, rest) && rest == WholeWords(s[WordSkip(s)..], p, lo, hi)
    ensures SpelledBy(s, ConsSpans(s, p, lo, hi, sp), WholeWords(s, p, lo, hi))
  {
    var d := WordSkip(s);
    ShiftSpelled(s, d, sp, rest);
    WholeWordsCons(s, p, lo, hi);
    if FirstWordMatches(s, p, lo, hi) {
      PrependSpan(s, d, ShiftSpans(sp, d), rest);
    }
  }

  /**
   * `WholeWords` finds, left to right, exactly the places where
   * `\bP{lo,hi}\b` matches: every whole word of `P` characters of the
   * right length, and nothing else. In particular no digits are found in
   * `47手枪`, since CJK ideographs are word characters and the word is
   * the whole text.
   */
  lemma {:induction false} WholeWordsExact(s: string, p: char -> bool, lo: nat, hi: nat)
    ensures exists spans :: WholeWordSpans(s, p, lo, hi, spans, WholeWords(s, p, lo, hi))
    decreases |s|
  {
    if s == [] {
      var none: seq<(int, int)> := [];
      assert WholeWordSpans(s, p, lo, hi, none, WholeWords(s, p, lo, hi));
    } else {
      var d := WordSkip(s);
      WholeWordsExact(s[d..], p, lo, hi);
      var rest := WholeWords(s[d..], p, lo, hi);
      var sp: seq<(int, int)> :| WholeWordSpans(s[d..], p, lo, hi, sp, rest);
      ConsSpansSound(s, p, lo, hi, sp);
      ConsSpansComplete(s, p, lo, hi, sp);
      ConsSpelled(s, p, lo, hi, sp, rest);
      assert WholeWordSpans(s, p, lo, hi, ConsSpans(s, p, lo, hi, sp), WholeWords(s, p, lo, hi));
    }
  }

  // ------------------------------------------------------- `[P]{lo,hi}`

  /**
   * `re.findall(r'[P]{lo,hi}', s)` with no word boundaries: at each
   * position the longest run of `P` characters, cut at `hi`, is taken if
   * it is at least `lo` long; otherwise the scan moves on by one.
   */
  function Chunks(s: string, p: char -> bool, lo: nat, hi: nat): (ws: seq<string>)
    requires 1 <= lo <= hi
    ensures forall k | 0 <= k < |ws| :: All(ws[k], p) && lo <= |ws[k]| <= hi && InText(ws[k], s)
    decreases |s|
  {
    if s == [] then []
    else
      var run := RunLength(s, p);
      var n := if run < hi then run else hi;
      if n < lo then
        var rest := Chunks(s[1..], p, lo, hi);
        assert forall k | 0 <= k < |rest| :: InText(rest[k], s) by {
          forall k | 0 <= k < |rest| ensures InText(rest[k], s) { InTail(rest[k], s, 1); }
        }
        rest
      else
        var rest := Chunks(s[n..], p, lo, hi);
        assert forall k | 0 <= k < |rest| :: InText(rest[k], s) by {
          forall k | 0 <= k < |rest| ensures InText(rest[k], s) { InTail(rest[k], s, n); }
        }
        PrefixInText(s, n);
        [s[..n]] + rest
  }

  /**
   * `s[i..j]` is what `[P]{lo,hi}` takes when its scan stands at `i`: the
   * run of `P` characters from `i`, cut at `hi`, and at least `lo` long.
   */
  predicate ChunkAt(s: string, p: char -> bool, lo: nat, hi: nat, i: int, j: int) {
    0 <= i < j <= |s| && lo <= j - i <= hi
    && (forall k | i <= k < j :: p(s[k]))
    && (j - i == hi || j == |s| || !p(s[j]))
  }

  /** `i` starts a run of `P` characters (or is the start of the text). */
  predicate RunStart(s: string, p: char -> bool, i: int) {
    i == 0 || (0 < i <= |s| && !p(s[i - 1]))
  }

  /** Some span ends at `i`. */
  ghost predicate EndsAt(spans: seq<(int, int)>, i: int) {
    exists k | 0 <= k < |spans| :: spans[k].1 == i
  }

  /**
   * `ws` are the texts, left to right, of the chunks `[P]{lo,hi}` cuts
   * from `s`: each chunk begins where a run of `P` begins or where the
   * previous chunk ended, and wherever a chunk can begin and fits, one does.
   */
  ghost predicate ChunkSpans(s: string, p: char -> bool, lo: nat, hi: nat, spans: seq<(int, int)>, ws: seq<string>) {
    SpelledBy(s, spans, ws)
    && (forall k | 0 <= k < |spans| :: ChunkAt(s, p, lo, hi, spans[k].0, spans[k].1))
    && (forall k | 0 <= k < |spans| :: RunStart(s, p, spans[k].0) || (k > 0 && spans[k - 1].1 == spans[k].0))
    && (forall i, j | ChunkAt(s, p, lo, hi, i, j) && (RunStart(s, p, i) || EndsAt(spans, i)) :: (i, j) in spans)
  }

  /** The chunk the scan takes at the start of `s`, if it is long enough: its length. */
  function FirstChunk(s: string, p: char -> bool, hi: nat): (n: nat)
    ensures n <= hi && n <= |s|
  {
    var run := RunLength(s, p);
    if run < hi then run else hi
  }

  /** Where the scan restarts: after the first chunk, or one further on. */
  function ChunkSkip(s: string, p: char -> bool, lo: nat, hi: nat): (d: nat)
    requires s != [] && 1 <= lo <= hi
    ensures 0 < d <= |s|
  {
    if FirstChunk(s, p, hi) < lo then 1 else FirstChunk(s, p, hi)
  }

  /** The places found in `s`: the first chunk if long enough, then those after the restart point. */
  function ChunkConsSpans(s: string, p: char -> bool, lo: nat, hi: nat, sp: seq<(int, int)>): seq<(int, int)>
    requires s != [] && 1 <= lo <= hi
  {
    var n := FirstChunk(s, p, hi);
    (if n < lo then [] else [(0, n)]) + ShiftSpans(sp, ChunkSkip(s, p, lo, hi))
  }

  lemma ChunkShift(s: string, p: char -> bool, lo: nat, hi: nat, d: nat, i: int, j: int)
    requires d <= |s| && d <= i
    ensures ChunkAt(s, p, lo, hi, i, j) <==> ChunkAt(s[d..], p, lo, hi, i - d, j - d)
    ensures i > d ==> (RunStart(s, p, i) <==> RunStart(s[d..], p, i - d))
  {
    var t := s[d..];
    if ChunkAt(s, p, lo, hi, i, j) {
      forall k | i - d <= k < j - d ensures p(t[k]) { assert t[k] == s[k + d]; }
      if j - d < |t| { assert t[j - d] == s[j]; }
    }
    if ChunkAt(t, p, lo, hi, i - d, j - d) {
      forall k | i <= k < j ensures p(s[k]) { assert s[k] == t[k - d]; }
      if j < |s| { assert s[j] == t[j - d]; }
    }
    if d < i <= |s| {
      assert t[i - d - 1] == s[i - 1];
    }
  }

  /** A chunk at the start of `s` is the first chunk, which is then long enough. */
  lemma ChunkAtStart(s: string, p: char -> bool, lo: nat, hi: nat, j: int)
    requires s != [] && 1 <= lo <= hi && ChunkAt(s, p, lo, hi, 0, j)
    ensures j == FirstChunk(s, p, hi) && lo <= FirstChunk(s, p, hi)
  {
  }

  lemma FirstChunkAt(s: string, p: char -> bool, lo: nat, hi: nat)
    requires s != [] && 1 <= lo <= hi && lo <= FirstChunk(s, p, hi)
    ensures ChunkAt(s, p, lo, hi, 0, FirstChunk(s, p, hi))
  {
  }

  lemma ChunkConsLength(s: string, p: char -> bool, lo: nat, hi: nat, sp: seq<(int, int)>)
    requires s != [] && 1 <= lo <= hi
    ensures |ChunkConsSpans(s, p, lo, hi, sp)| == (if FirstChunk(s, p, hi) < lo then 0 else 1) + |sp|
  {
  }

  /** The first entry of `ChunkConsSpans`, when the first chunk is kept. */
  lemma ChunkConsHead(s: string, p: char -> bool, lo: nat, hi: nat, sp: seq<(int, int)>)
    requires s != [] && 1 <= lo <= hi && lo <= FirstChunk(s, p, hi)
    ensures var spans := ChunkConsSpans(s, p, lo, hi, sp);
      0 < |spans| && spans[0] == (0, FirstChunk(s, p, hi)) && ChunkAt(s, p, lo, hi, 0, FirstChunk(s, p, hi))
  {
    FirstChunkAt(s, p, lo, hi);
  }

  /** One entry of `ChunkConsSpans` past the first chunk. */
  lemma ChunkConsEntry(s: string, p: char -> bool, lo: nat, hi: nat, sp: seq<(int, int)>, k: nat)
    requires s != [] && 1 <= lo <= hi && k < |sp|
    ensures var spans := ChunkConsSpans(s, p, lo, hi, sp);
      var d := ChunkSkip(s, p, lo, hi);
      var h := if FirstChunk(s, p, hi) < lo then 0 else 1;
      h + k < |spans| && spans[h + k] == (sp[k].0 + d, sp[k].1 + d)
  {
    var n := FirstChunk(s, p, hi);
    var front: seq<(int, int)> := if n < lo then [] else [(0, n)];
    var moved := ShiftSpans(sp, ChunkSkip(s, p, lo, hi));
    assert ChunkConsSpans(s, p, lo, hi, sp) == front + moved;
    assert (front + moved)[|front| + k] == moved[k];
  }

  /** Where the `k`-th span of the rest lands in `s`, and whether it may begin there. */
  predicate MovedSpanFits(s: string, p: char -> bool, lo: nat, hi: nat, sp: seq<(int, int)>, k: nat)
    requires s != [] && 1 <= lo <= hi && k < |sp|
  {
    var d := ChunkSkip(s, p, lo, hi);
    var h := if FirstChunk(s, p, hi) < lo then 0 else 1;
    var i := sp[k].0 + d;
    ChunkAt(s, p, lo, hi, i, sp[k].1 + d)
    && (RunStart(s, p, i) || (k > 0 && sp[k - 1].1 + d == i) || (k == 0 && h == 1 && d == i))
  }

  /** A chunk of the rest, moved back into `s`, is a chunk of `s` that begins where the source allows. */
  lemma MovedSpanFitsAt(s: string, p: char -> bool, lo: nat, hi: nat, sp: seq<(int, int)>, k: nat)
    requires s != [] && 1 <= lo <= hi && k < |sp| && (k > 0 ==> 0 < sp[k - 1].1 <= sp[k].0)
    requires var t := s[ChunkSkip(s, p, lo, hi)..];
      ChunkAt(t, p, lo, hi, sp[k].0, sp[k].1) && (RunStart(t, p, sp[k].0) || (k > 0 && sp[k - 1].1 == sp[k].0))
    ensures MovedSpanFits(s, p, lo, hi, sp, k)
  {
    var d := ChunkSkip(s, p, lo, hi);
    ChunkShift(s, p, lo, hi, d, sp[k].0 + d, sp[k].1 + d);
    if k == 0 && sp[0].0 == 0 && FirstChunk(s, p, hi) < lo {
      TooShortThenRunStart(s, p, lo, hi, sp[k].1);
    }
  }

  /** One moved span, given where it landed: a chunk of `s` that begins where the source allows. */
  lemma ChunkConsSoundAt(s: string, p: char -> bool, lo: nat, hi: nat, d: int, h: nat, spans: seq<(int, int)>, sp: seq<(int, int)>, k: nat)
    requires k < |sp| && h + k < |spans| && h <= 1
    requires spans[h + k] == (sp[k].0 + d, sp[k].1 + d)
    requires k > 0 ==> spans[h + k - 1] == (sp[k - 1].0 + d, sp[k - 1].1 + d)
    requires h == 1 ==> spans[0] == (0, d)
    requires ChunkAt(s, p, lo, hi, sp[k].0 + d, sp[k].1 + d)
    requires RunStart(s, p, sp[k].0 + d) || (k > 0 && sp[k - 1].1 + d == sp[k].0 + d) || (k == 0 && h == 1 && d == sp[k].0 + d)
    ensures ChunkAt(s, p, lo, hi, spans[h + k].0, spans[h + k].1)
    ensures RunStart(s, p, spans[h + k].0) || (h + k > 0 && spans[h + k - 1].1 == spans[h + k].0)
  {
  }

  /**
   * When the first chunk is too short the scan moves on by one; a chunk
   * right after that can then only follow a character outside `P`.
   */
  lemma TooShortThenRunStart(s: string, p: char -> bool, lo: nat, hi: nat, j: int)
    requires s != [] && 1 <= lo <= hi && FirstChunk(s, p, hi) < lo
    requires ChunkAt(s[1..], p, lo, hi, 0, j)
    ensures !p(s[0])
  {
    if p(s[0]) {
      var t := s[1..];
      forall m | 0 <= m < j + 1 ensures p(s[m]) {
        if m > 0 { assert s[m] == t[m - 1]; }
      }
    }
  }

  /** The `k`-th span of the rest, moved into `s`, is sound there. */
  lemma ChunkConsSoundMoved(s: string, p: char -> bool, lo: nat, hi: nat, sp: seq<(int, int)>, k: nat)
    requires s != [] && 1 <= lo <= hi && k < |sp|
    requires var t := s[ChunkSkip(s, p, lo, hi)..];
      ChunkAt(t, p, lo, hi, sp[k].0, sp[k].1) && (RunStart(t, p, sp[k].0) || (k > 0 && sp[k - 1].1 == sp[k].0))
      && (k > 0 ==> ChunkAt(t, p, lo, hi, sp[k - 1].0, sp[k - 1].1) && sp[k - 1].1 <= sp[k].0)
    ensures var spans := ChunkConsSpans(s, p, lo, hi, sp);
      var h := if FirstChunk(s, p, hi) < lo then 0 else 1;
      h + k < |spans|
      && ChunkAt(s, p, lo, hi, spans[h + k].0, spans[h + k].1)
      && (RunStart(s, p, spans[h + k].0) || (h + k > 0 && spans[h + k - 1].1 == spans[h + k].0))
  {
    var d := ChunkSkip(s, p, lo, hi);
    var h := if FirstChunk(s, p, hi) < lo then 0 else 1;
    var spans := ChunkConsSpans(s, p, lo, hi, sp);
    ChunkConsEntry(s, p, lo, hi, sp, k);
    if k > 0 {
      ChunkConsEntry(s, p, lo, hi, sp, k - 1);
    }
    MovedSpanFitsAt(s, p, lo, hi, sp, k);
    ChunkConsSoundAt(s, p, lo, hi, d, h, spans, sp, k);
  }

  lemma ChunkConsSound(s: string, p: char -> bool, lo: nat, hi: nat, sp: seq<(int, int)>)
    requires s != [] && 1 <= lo <= hi
    requires var t := s[ChunkSkip(s, p, lo, hi)..];
      (forall k | 0 <= k < |sp| :: ChunkAt(t, p, lo, hi, sp[k].0, sp[k].1))
      && (forall k | 0 <= k < |sp| :: RunStart(t, p, sp[k].0) || (k > 0 && sp[k - 1].1 == sp[k].0))
      && (forall k | 0 < k < |sp| :: sp[k - 1].1 <= sp[k].0)
    ensures var spans := ChunkConsSpans(s, p, lo, hi, sp);
      (forall k | 0 <= k < |spans| :: ChunkAt(s, p, lo, hi, spans[k].0, spans[k].1))
      && (forall k | 0 <= k < |spans| :: RunStart(s, p, spans[k].0) || (k > 0 && spans[k - 1].1 == spans[k].0))
  {
    var h := if FirstChunk(s, p, hi) < lo then 0 else 1;
    var spans := ChunkConsSpans(s, p, lo, hi, sp);
    ChunkConsLength(s, p, lo, hi, sp);
    if h == 1 {
      ChunkConsHead(s, p, lo, hi, sp);
    }
    forall m | h <= m < |spans|
      ensures ChunkAt(s, p, lo, hi, spans[m].0, spans[m].1)
      ensures RunStart(s, p, spans[m].0) || (m > 0 && spans[m - 1].1 == spans[m].0)
    {
      ChunkConsSoundMoved(s, p, lo, hi, sp, m - h);
    }
  }

  /** No chunk of `s` may begin strictly inside the first chunk. */
  lemma ChunkInsideFirst(s: string, p: char -> bool, lo: nat, hi: nat, sp: seq<(int, int)>, i: int)
    requires s != [] && 1 <= lo <= hi && 0 < i < ChunkSkip(s, p, lo, hi)
    requires forall k | 0 <= k < |sp| :: 0 <= sp[k].0 < sp[k].1
    ensures !RunStart(s, p, i) && !EndsAt(ChunkConsSpans(s, p, lo, hi, sp), i)
  {
    var d := ChunkSkip(s, p, lo, hi);
    var h := if FirstChunk(s, p, hi) < lo then 0 else 1;
    var spans := ChunkConsSpans(s, p, lo, hi, sp);
    assert i - 1 < RunLength(s, p);
  }

  /** A span of `s` ending after the restart point is a span of the rest, moved. */
  lemma EndsAfterSkip(s: string, p: char -> bool, lo: nat, hi: nat, sp: seq<(int, int)>, i: int)
    requires s != [] && 1 <= lo <= hi && ChunkSkip(s, p, lo, hi) < i
    requires EndsAt(ChunkConsSpans(s, p, lo, hi, sp), i)
    ensures EndsAt(sp, i - ChunkSkip(s, p, lo, hi))
  {
    var d := ChunkSkip(s, p, lo, hi);
    var h := if FirstChunk(s, p, hi) < lo then 0 else 1;
    var spans := ChunkConsSpans(s, p, lo, hi, sp);
    var k :| 0 <= k < |spans| && spans[k].1 == i;
    assert k >= h;
    assert spans[k] == (sp[k - h].0 + d, sp[k - h].1 + d);
  }

  lemma ShiftedIn(s: string, p: char -> bool, lo: nat, hi: nat, sp: seq<(int, int)>, i: int, j: int)
    requires s != [] && 1 <= lo <= hi && (i - ChunkSkip(s, p, lo, hi), j - ChunkSkip(s, p, lo, hi)) in sp
    ensures (i, j) in ChunkConsSpans(s, p, lo, hi, sp)
  {
    var d := ChunkSkip(s, p, lo, hi);
    var moved := ShiftSpans(sp, d);
    var k :| 0 <= k < |sp| && sp[k] == (i - d, j - d);
    assert moved[k] == (i, j);
    var n := FirstChunk(s, p, hi);
    assert ChunkConsSpans(s, p, lo, hi, sp) == (if n < lo then [] else [(0, n)]) + moved;
  }

  /** A chunk of `s` that begins at or after the restart point is one of the rest, moved. */
  lemma ChunkAfterSkip(s: string, p: char -> bool, lo: nat, hi: nat, sp: seq<(int, int)>, i: int, j: int)
    requires s != [] && 1 <= lo <= hi && ChunkSkip(s, p, lo, hi) <= i
    requires var t := s[ChunkSkip(s, p, lo, hi)..];
      forall i, j | ChunkAt(t, p, lo, hi, i, j) && (RunStart(t, p, i) || EndsAt(sp, i)) :: (i, j) in sp
    requires ChunkAt(s, p, lo, hi, i, j) && (RunStart(s, p, i) || EndsAt(ChunkConsSpans(s, p, lo, hi, sp), i))
    ensures (i, j) in ChunkConsSpans(s, p, lo, hi, sp)
  {
    var d := ChunkSkip(s, p, lo, hi);
    var h := if FirstChunk(s, p, hi) < lo then 0 else 1;
    var spans := ChunkConsSpans(s, p, lo, hi, sp);
    var t := s[d..];
    ChunkShift(s, p, lo, hi, d, i, j);
    assert ChunkAt(t, p, lo, hi, i - d, j - d);
    if i > d && !RunStart(s, p, i) {
      EndsAfterSkip(s, p, lo, hi, sp, i);
      assert EndsAt(sp, i - d);
    } else {
      assert RunStart(t, p, i - d);
    }
    assert (i - d, j - d) in sp;
    ShiftedIn(s, p, lo, hi, sp, i, j);
  }

  lemma ChunkConsHas(s: string, p: char -> bool, lo: nat, hi: nat, sp: seq<(int, int)>, i: int, j: int)
    requires s != [] && 1 <= lo <= hi
    requires var t := s[ChunkSkip(s, p, lo, hi)..];
      (forall k | 0 <= k < |sp| :: ChunkAt(t, p, lo, hi, sp[k].0, sp[k].1))
      && (forall i, j | ChunkAt(t, p, lo, hi, i, j) && (RunStart(t, p, i) || EndsAt(sp, i)) :: (i, j) in sp)
    requires ChunkAt(s, p, lo, hi, i, j) && (RunStart(s, p, i) || EndsAt(ChunkConsSpans(s, p, lo, hi, sp), i))
    ensures (i, j) in ChunkConsSpans(s, p, lo, hi, sp)
  {
    var d := ChunkSkip(s, p, lo, hi);
    if i == 0 {
      ChunkAtStart(s, p, lo, hi, j);
      assert ChunkConsSpans(s, p, lo, hi, sp)[0] == (i, j);
    } else if i < d {
      ChunkInsideFirst(s, p, lo, hi, sp, i);
    } else {
      ChunkAfterSkip(s, p, lo, hi, sp, i, j);
    }
  }

  lemma ChunkConsSpelled(s: string, p: char -> bool, lo: nat, hi: nat, sp: seq<(int, int)>, rest: seq<string>)
    requires s != [] && 1 <= lo <= hi && SpelledBy(s[ChunkSkip(s, p, lo, hi)..], sp, rest)
    requires rest == Chunks(s[ChunkSkip(s, p, lo, hi)..], p, lo, hi)
    ensures SpelledBy(s, ChunkConsSpans(s, p, lo, hi, sp), Chunks(s, p, lo, hi))
  {
    var d := ChunkSkip(s, p, lo, hi);
    var n := FirstChunk(s, p, hi);
    ShiftSpelled(s, d, sp, rest);
    assert Chunks(s, p, lo, hi) == (if n < lo then [] else [s[..n]]) + rest;
    if lo <= n {
      PrependSpan(s, d, ShiftSpans(sp, d), rest);
    }
  }

  /**
   * `Chunks` finds, left to right, exactly the chunks `[P]{lo,hi}` cuts:
   * the scan restarts at each run of `P` characters and right after each
   * chunk, takes the run from there cut at `hi`, and keeps it when it is
   * at least `lo` long.
   */
  lemma {:induction false} ChunksExact(s: string, p: char -> bool, lo: nat, hi: nat)
    requires 1 <= lo <= hi
    ensures exists spans :: ChunkSpans(s, p, lo, hi, spans, Chunks(s, p, lo, hi))
    decreases |s|
  {
    if s == [] {
      var none: seq<(int, int)> := [];
      assert ChunkSpans(s, p, lo, hi, none, Chunks(s, p, lo, hi));
    } else {
      var d := ChunkSkip(s, p, lo, hi);
      var rest := Chunks(s[d..], p, lo, hi);
      ChunksExact(s[d..], p, lo, hi);
      var sp: seq<(int, int)> :| ChunkSpans(s[d..], p, lo, hi, sp, rest);
      var spans := ChunkConsSpans(s, p, lo, hi, sp);
      ChunkConsSound(s, p, lo, hi, sp);
      ChunkConsSpelled(s, p, lo, hi, sp, rest);
      forall i, j | ChunkAt(s, p, lo, hi, i, j) && (RunStart(s, p, i) || EndsAt(spans, i)) ensures (i, j) in spans {
        ChunkConsHas(s, p, lo, hi, sp, i, j);
      }
      assert ChunkSpans(s, p, lo, hi, spans, Chunks(s, p, lo, hi));
    }
  }

  /** Every character satisfying `p` lies in some chunk, so no chunk at all means no such character. */
  lemma {:induction false} ChunksEmpty(s: string, p: char -> bool, hi: nat)
    requires 1 <= hi
    ensures Chunks(s, p, 1, hi) == [] <==> !HasCharIn(s, p)
    decreases |s|
  {
    if s != [] {
      ChunksEmpty(s[1..], p, hi);
      if !p(s[0]) {
        assert HasCharIn(s, p) ==> HasCharIn(s[1..], p) by {
          if HasCharIn(s, p) {
            var i :| 0 <= i < |s| && p(s[i]);
            assert s[1..][i - 1] == s[i];
          }
        }
        assert HasCharIn(s[1..], p) ==> HasCharIn(s, p) by {
          if HasCharIn(s[1..], p) {
            var i :| 0 <= i < |s[1..]| && p(s[1..][i]);
            assert s[i + 1] == s[1..][i];
          }
        }
      }
    }
  }

  // ------------------------------------------------- `(a|b|...)` literals

  /** The first of `alts`, in the order listed, that occurs in `s` at index `i`. */
  function FirstAltAt(s: string, alts: seq<string>, i: int): (m: Option<string>)
    ensures m.Some? ==> m.value in alts && OccursAt(s, m.value, i)
    ensures m.None? ==> forall a | a in alts :: !OccursAt(s, a, i)
  {
    if alts == [] then None
    else if OccursAt(s, alts[0], i) then Some(alts[0])
    else FirstAltAt(s, alts[1..], i)
  }

  /**
   * `re.findall('(a|b|...)', s)` for non-empty literal alternatives: at
   * each index the first alternative that occurs there is taken and the
   * scan continues after it; where none occurs the scan moves on by one.
   */
  function AltFindAll(s: string, alts: seq<string>): (ws: seq<string>)
    requires forall a | a in alts :: a != []
    decreases |s|
  {
    if s == [] then []
    else
      match FirstAltAt(s, alts, 0)
      case Some(a) => [a] + AltFindAll(s[|a|..], alts)
      case None => AltFindAll(s[1..], alts)
  }

  lemma FirstAltAtShift(s: string, alts: seq<string>, k: nat, i: nat)
    requires k <= |s|
    ensures FirstAltAt(s[k..], alts, i) == FirstAltAt(s, alts, i + k)
  {
    if alts != [] {
      assert OccursAt(s[k..], alts[0], i) <==> OccursAt(s, alts[0], i + k) by {
        if 0 <= i <= |s[k..]| - |alts[0]| {
          assert s[k..][i..i + |alts[0]|] == s[i + k..i + k + |alts[0]|];
        }
      }
      FirstAltAtShift(s, alts[1..], k, i);
    }
  }

  /** Every match is one of the alternatives and occurs in `s`. */
  lemma {:induction false} AltFindAllSound(s: string, alts: seq<string>)
    requires forall a | a in alts :: a != []
    ensures forall w | w in AltFindAll(s, alts) :: w in alts && InText(w, s)
    decreases |s|
  {
    if s != [] {
      var ws := AltFindAll(s, alts);
      match FirstAltAt(s, alts, 0)
      case Some(a) =>
        var rest := AltFindAll(s[|a|..], alts);
        AltFindAllSound(s[|a|..], alts);
        assert ws == [a] + rest;
        assert OccursAt(s, a, 0);
        forall w | w in ws ensures w in alts && InText(w, s) {
          if w in rest {
            InTail(w, s, |a|);
          }
        }
      case None =>
        AltFindAllSound(s[1..], alts);
        forall w | w in ws ensures w in alts && InText(w, s) {
          InTail(w, s, 1);
        }
    }
  }

  /** No index of `s` starts any of the alternatives. */
  predicate NoAltIn(s: string, alts: seq<string>, upTo: int) {
    forall j | 0 <= j < upTo :: FirstAltAt(s, alts, j) == None
  }

  /**
   * The scan finds nothing exactly when no alternative occurs anywhere,
   * and otherwise its first match is the alternative found at the
   * leftmost index where any occurs.
   */
  lemma {:induction false} AltFindAllFirst(s: string, alts: seq<string>)
    requires forall a | a in alts :: a != []
    ensures AltFindAll(s, alts) == [] <==> NoAltIn(s, alts, |s|)
    ensures var ws := AltFindAll(s, alts);
      ws != [] ==> exists i | 0 <= i < |s| :: FirstAltAt(s, alts, i) == Some(ws[0]) && NoAltIn(s, alts, i)
    decreases |s|
  {
    if s != [] {
      var ws := AltFindAll(s, alts);
      if FirstAltAt(s, alts, 0).None? {
        AltFindAllFirst(s[1..], alts);
        assert ws == AltFindAll(s[1..], alts);
        forall i | 0 <= i < |s[1..]| ensures FirstAltAt(s[1..], alts, i) == FirstAltAt(s, alts, i + 1) {
          FirstAltAtShift(s, alts, 1, i);
        }
        NoAltShift(s, alts);
        if ws != [] {
          var i :| 0 <= i < |s[1..]| && FirstAltAt(s[1..], alts, i) == Some(ws[0]) && NoAltIn(s[1..], alts, i);
          assert FirstAltAt(s, alts, i + 1) == Some(ws[0]);
        }
      } else {
        assert FirstAltAt(s, alts, 0) == Some(ws[0]);
        assert !NoAltIn(s, alts, |s|);
      }
    }
  }

  lemma NoAltShift(s: string, alts: seq<string>)
    requires s != [] && FirstAltAt(s, alts, 0) == None
    ensures forall i | 0 <= i <= |s[1..]| :: NoAltIn(s[1..], alts, i) <==> NoAltIn(s, alts, i + 1)
  {
    forall i | 0 <= i < |s[1..]| ensures FirstAltAt(s[1..], alts, i) == FirstAltAt(s, alts, i + 1) {
      FirstAltAtShift(s, alts, 1, i);
    }
    forall n | 0 <= n <= |s[1..]| ensures NoAltIn(s[1..], alts, n) <==> NoAltIn(s, alts, n + 1) {
      if NoAltIn(s[1..], alts, n) {
        forall j | 0 <= j < n + 1 ensures FirstAltAt(s, alts, j) == None {
          if j > 0 {
            assert FirstAltAt(s[1..], alts, j - 1) == None;
          }
        }
      }
      if NoAltIn(s, alts, n + 1) {
        forall j | 0 <= j < n ensures FirstAltAt(s[1..], alts, j) == None {
          assert FirstAltAt(s, alts, j + 1) == None;
        }
      }
    }
  }

  // ------------------------------------------------------ `re.search(\d+)`

  /** `re.search(r'(\d+)', s)`: the leftmost maximal run of digits, if any. */
  function FirstDigitRun(s: string): (m: Option<string>)
    ensures m.Some? ==> AllDigits(m.value) && InText(m.value, s)
    ensures m.None? <==> !HasCharIn(s, IsDigit)
    decreases |s|
  {
    if s == [] then None
    else if IsDigit(s[0]) then
      var n := RunLength(s, IsDigit);
      PrefixInText(s, n);
      Some(s[..n])
    else
      var m := FirstDigitRun(s[1..]);
      assert m.Some? ==> InText(m.value, s) by {
        if m.Some? { InTail(m.value, s, 1); }
      }
      assert HasCharIn(s, IsDigit) <==> HasCharIn(s[1..], IsDigit) by {
        if HasCharIn(s, IsDigit) {
          var i :| 0 <= i < |s| && IsDigit(s[i]);
          assert s[1..][i - 1] == s[i];
        }
        if HasCharIn(s[1..], IsDigit) {
          var i :| 0 <= i < |s[1..]| && IsDigit(s[1..][i]);
          assert s[i + 1] == s[1..][i];
        }
      }
      m
  }

  /**
   * `s[i..j]` is the leftmost maximal run of digits of `s`: no digit
   * comes before `i`, and the run cannot be extended at `j`.
   */
  predicate LeftmostDigitRun(s: string, i: int, j: int) {
    0 <= i < j <= |s|
    && (forall k | 0 <= k < i :: !IsDigit(s[k]))
    && (forall k | i <= k < j :: IsDigit(s[k]))
    && (j == |s| || !IsDigit(s[j]))
  }

  /** What `re.search(r'(\d+)', s)` matches is the leftmost maximal run of digits. */
  lemma {:induction false} FirstDigitRunLeftmost(s: string)
    ensures FirstDigitRun(s).Some? ==>
      exists i, j :: LeftmostDigitRun(s, i, j) && FirstDigitRun(s).value == s[i..j]
    decreases |s|
  {
    if s == [] {
    } else if IsDigit(s[0]) {
      var n := RunLength(s, IsDigit);
      assert LeftmostDigitRun(s, 0, n) && FirstDigitRun(s).value == s[0..n];
    } else if FirstDigitRun(s).Some? {
      var t := s[1..];
      FirstDigitRunLeftmost(t);
      var i, j :| LeftmostDigitRun(t, i, j) && FirstDigitRun(t).value == t[i..j];
      forall k | 0 < k < i + 1 ensures !IsDigit(s[k]) { assert s[k] == t[k - 1]; }
      forall k | i + 1 <= k < j + 1 ensures IsDigit(s[k]) { assert s[k] == t[k - 1]; }
      if j < |t| { assert s[j + 1] == t[j]; }
      assert t[i..j] == s[i + 1..j + 1];
      assert LeftmostDigitRun(s, i + 1, j + 1);
    }
  }

  /** `int(re.search(r'(\d+)', s).group(1))`, or `None` when `s` has no digit. */
  function FirstNumber(s: string): (n: Option<nat>)
    ensures n.None? <==> !HasCharIn(s, IsDigit)
    ensures n.Some? ==> exists i, j :: LeftmostDigitRun(s, i, j) && n.value == NatValue(s[i..j])
  {
    FirstDigitRunLeftmost(s);
    match FirstDigitRun(s)
    case Some(d) => Some(NatValue(d))
    case None => None
  }
}
