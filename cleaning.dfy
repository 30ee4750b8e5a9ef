/**
 * The text cleaner that every OCR tool runs on recognizer output:
 * collapse whitespace, strip the leading enumeration idioms ("12.",
 * "①", "第3题", "题目4", "5:", "A.", and in one tool "6)") one pattern
 * after the other, and in some tools keep only "meaningful" characters.
 */
module Cleaning {
  import opened Text
  import opened Scan

  /** The anchored prefix patterns, each removed by `re.sub(pattern, '', text)`. */
  datatype Prefix =
    | DigitsThenMark   // ^\d+[\.、\s]
    | CircledNumber    // ^[①②③④⑤⑥⑦⑧⑨⑩]
    | OrdinalQuestion  // ^第\d+题
    | QuestionNumber   // ^题目\d+
    | DigitsColon      // ^\d+\s*[:：]
    | OptionLetter     // ^[A-Z]\.
    | DigitsParen      // ^\d+\)

  /** The six patterns of `clean_text`, in the order they are applied. */
  const SerialPrefixes: seq<Prefix> :=
    [DigitsThenMark, CircledNumber, OrdinalQuestion, QuestionNumber, DigitsColon, OptionLetter]

  /**
   * Length of the match of `p` at the start of `s`, or 0 when it does not
   * match (no pattern matches the empty string). Backtracking never helps:
   * giving back a digit leaves a digit where the pattern needs a mark.
   */
  function PrefixLength(p: Prefix, s: string): (n: nat)
    ensures n <= |s|
  {
    match p
    case DigitsThenMark =>
      var d := RunLength(s, IsDigit);
      if 1 <= d < |s| && (s[d] == '.' || s[d] == '、' || IsSpace(s[d])) then d + 1 else 0
    case CircledNumber =>
      if s != [] && '\U{2460}' <= s[0] <= '\U{2469}' then 1 else 0
    case OrdinalQuestion =>
      if s != [] && s[0] == '第' then
        var d := RunLength(s[1..], IsDigit);
        if 1 <= d && 1 + d < |s| && s[1 + d] == '题' then d + 2 else 0
      else 0
    case QuestionNumber =>
      if |s| >= 2 && s[..2] == "题目" then
        var d := RunLength(s[2..], IsDigit);
        if d >= 1 then 2 + d else 0
      else 0
    case DigitsColon =>
      var d := RunLength(s, IsDigit);
      if d >= 1 then
        var w := RunLength(s[d..], IsSpace);
        if d + w < |s| && (s[d + w] == ':' || s[d + w] == '：') then d + w + 1 else 0
      else 0
    case OptionLetter =>
      if |s| >= 2 && IsAsciiUpper(s[0]) && s[1] == '.' then 2 else 0
    case DigitsParen =>
      var d := RunLength(s, IsDigit);
      if 1 <= d < |s| && s[d] == ')' then d + 1 else 0
  }

  /** One turn of the prefix loop: `text = re.sub(pattern, '', text).strip()`. */
  function StripPrefix(p: Prefix, t: string): string
  {
    Strip(t[PrefixLength(p, t)..])
  }

  /** The prefix loop over `ps`, each pattern applied once, in order. */
  function StripPrefixes(t: string, ps: seq<Prefix>): string
    decreases |ps|
  {
    if ps == [] then t else StripPrefixes(StripPrefix(ps[0], t), ps[1..])
  }

  /** Characters kept by `re.sub(r'[^\w一-鿿△○□/\-]', '', text)`. */
  predicate Meaningful(c: char) {
    IsWordChar(c) || IsCjk(c) || c == '△' || c == '○' || c == '□' || c == '/' || c == '-'
  }

  /** Deletes every character that is not `Meaningful`. */
  function KeepMeaningful(s: string): (r: string)
    ensures |r| <= |s|
    ensures forall i | 0 <= i < |r| :: Meaningful(r[i])
  {
    if s == [] then []
    else (if Meaningful(s[0]) then [s[0]] else []) + KeepMeaningful(s[1..])
  }

  /** A string made only of meaningful characters passes the filter unchanged, so the filter is idempotent. */
  lemma {:induction false} KeepMeaningfulFixed(s: string)
    requires forall i | 0 <= i < |s| :: Meaningful(s[i])
    ensures KeepMeaningful(s) == s
  {
    if s != [] {
      assert forall i | 0 <= i < |s[1..]| :: Meaningful(s[1..][i]) by {
        forall i | 0 <= i < |s[1..]| ensures Meaningful(s[1..][i]) { assert s[1..][i] == s[i + 1]; }
      }
      KeepMeaningfulFixed(s[1..]);
    }
  }

  lemma KeepMeaningfulIdempotent(s: string)
    ensures KeepMeaningful(KeepMeaningful(s)) == KeepMeaningful(s)
  {
    KeepMeaningfulFixed(KeepMeaningful(s));
  }

  lemma MeaningfulNotSpace(c: char)
    requires Meaningful(c)
    ensures !IsSpace(c)
  {
  }

  /** What one tool's cleaner does: which prefix patterns, and whether the character filter follows. */
  datatype CleanConfig = CleanConfig(prefixes: seq<Prefix>, filtered: bool)

  /** The cleaned text: `""` for `""`, otherwise collapse, prefix loop, optional filter, strip. */
  function Cleaned(text: string, cfg: CleanConfig): string
  {
    if text == [] then []
    else
      var t := StripPrefixes(Collapse(Strip(text)), cfg.prefixes);
      Strip(if cfg.filtered then KeepMeaningful(t) else t)
  }

  /** `clean_text`: the prefix loop written as the loop it is. */
  method CleanText(text: string, cfg: CleanConfig) returns (r: string)
    ensures r == Cleaned(text, cfg)
  {
    if text == [] {
      return [];
    }
    var t := Collapse(Strip(text));
    ghost var goal := StripPrefixes(t, cfg.prefixes);
    var ps := cfg.prefixes;
    for i := 0 to |ps|
      invariant StripPrefixes(t, ps[i..]) == goal
    {
      assert ps[i..][0] == ps[i] && ps[i..][1..] == ps[i + 1..];
      t := Strip(t[PrefixLength(ps[i], t)..]);
    }
    assert ps[|ps|..] == [];
    if cfg.filtered {
      t := KeepMeaningful(t);
    }
    r := Strip(t);
  }

  // ------------------------------------------------------------ properties

  predicate IsSuffix(u: string, c: string) {
    |u| <= |c| && u == c[|c| - |u|..]
  }

  /** Stripping a suffix of a stripped string only removes its leading whitespace. */
  lemma StripSuffixOfStripped(u: string, c: string)
    requires IsStripped(c) && IsSuffix(u, c)
    ensures IsSuffix(Strip(u), c)
  {
    var l := LStrip(u);
    if l != [] {
      assert l[|l| - 1] == c[|c| - 1];
      assert RStrip(l) == l;
    }
  }

  lemma {:induction false} StripPrefixesSuffix(c: string, ps: seq<Prefix>)
    requires IsStripped(c)
    ensures IsSuffix(StripPrefixes(c, ps), c)
    decreases |ps|
  {
    if ps != [] {
      var t := StripPrefix(ps[0], c);
      StripPrefixSuffix(ps[0], c);
      StripPrefixesSuffix(t, ps[1..]);
      SuffixTransitive(StripPrefixes(t, ps[1..]), t, c);
    }
  }

  /** One turn of the loop keeps a suffix of a stripped text, itself stripped. */
  lemma StripPrefixSuffix(p: Prefix, c: string)
    requires IsStripped(c)
    ensures IsStripped(StripPrefix(p, c)) && IsSuffix(StripPrefix(p, c), c)
  {
    var n := PrefixLength(p, c);
    assert IsSuffix(c[n..], c);
    StripSuffixOfStripped(c[n..], c);
  }

  lemma SuffixTransitive(u: string, t: string, c: string)
    requires IsSuffix(u, t) && IsSuffix(t, c)
    ensures IsSuffix(u, c)
  {
    assert c[|c| - |u|..] == c[|c| - |t|..][|t| - |u|..];
  }

  lemma CollapsedStripped(text: string)
    ensures IsStripped(Collapse(Strip(text)))
  {
  }

  lemma CleanedUnfiltered(text: string, cfg: CleanConfig)
    requires text != [] && !cfg.filtered
    ensures IsStripped(Cleaned(text, cfg)) && SingleSpaced(Cleaned(text, cfg))
    ensures IsSuffix(Cleaned(text, cfg), Collapse(Strip(text)))
  {
    var c := Collapse(Strip(text));
    CollapsedStripped(text);
    var t := StripPrefixes(c, cfg.prefixes);
    StripPrefixesSuffix(c, cfg.prefixes);
    var r := Strip(t);
    assert Cleaned(text, cfg) == r;
    StripSuffixOfStripped(t, c);
    SingleSpacedSuffix(r, c);
  }

  lemma SingleSpacedSuffix(u: string, c: string)
    requires SingleSpaced(c) && IsSuffix(u, c)
    ensures SingleSpaced(u)
  {
    SingleSpacedSlice(c, |c| - |u|, |c|);
    assert c[|c| - |u|..|c|] == u;
  }

  lemma CleanedFiltered(text: string, cfg: CleanConfig)
    requires text != [] && cfg.filtered
    ensures var r := Cleaned(text, cfg);
      forall i | 0 <= i < |r| :: Meaningful(r[i]) && !IsSpace(r[i])
  {
    var k := KeepMeaningful(StripPrefixes(Collapse(Strip(text)), cfg.prefixes));
    assert Cleaned(text, cfg) == Strip(k);
    forall i | 0 <= i < |k| ensures !IsSpace(k[i]) {
      MeaningfulNotSpace(k[i]);
    }
    StripStripped(k);
  }

  lemma NoSpaceSingleSpaced(s: string)
    requires forall i | 0 <= i < |s| :: !IsSpace(s[i])
    ensures SingleSpaced(s)
  {
  }

  /**
   * Cleaning `""` gives `""`. Otherwise the result has no leading or
   * trailing whitespace and no whitespace but single spaces; without the
   * filter it is a suffix of the whitespace-collapsed text (only a leading
   * enumeration is ever removed), and with the filter it holds only
   * meaningful characters and no whitespace at all.
   */
  lemma CleanedShape(text: string, cfg: CleanConfig)
    ensures text == [] ==> Cleaned(text, cfg) == []
    ensures IsStripped(Cleaned(text, cfg)) && SingleSpaced(Cleaned(text, cfg))
    ensures !cfg.filtered ==> IsSuffix(Cleaned(text, cfg), Collapse(Strip(text)))
    ensures cfg.filtered ==> forall i | 0 <= i < |Cleaned(text, cfg)| ::
      Meaningful(Cleaned(text, cfg)[i]) && !IsSpace(Cleaned(text, cfg)[i])
  {
    if text != [] {
      if cfg.filtered {
        CleanedFiltered(text, cfg);
        NoSpaceSingleSpaced(Cleaned(text, cfg));
      } else {
        CleanedUnfiltered(text, cfg);
      }
    }
  }

  // -------------------------------------------------------------- examples

  /** Patterns that do not match a stripped text leave it as it is. */
  lemma {:induction false} StripPrefixesInert(t: string, ps: seq<Prefix>)
    requires IsStripped(t) && forall p | p in ps :: PrefixLength(p, t) == 0
    ensures StripPrefixes(t, ps) == t
    decreases |ps|
  {
    if ps != [] {
      assert t[0..] == t;
      StripStripped(t);
      assert StripPrefix(ps[0], t) == t;
      StripPrefixesInert(t, ps[1..]);
    }
  }

  /** `strip` of one space before a stripped text. */
  lemma LeadingSpace(s: string, t: string)
    requires s == [' '] + t && t != [] && IsStripped(t)
    ensures Strip(s) == t
  {
    assert s[1..] == t;
    LStripOnce(s);
    assert RStrip(t) == t;
  }

  // The steps of the two examples below, one lemma each to keep every
  // proof small.

  lemma CollapsedExample()
    ensures Collapse(Strip("3. 骆驼")) == "3. 骆驼"
  {
    assert SingleSpaced("3. 骆驼");
    StripStripped("3. 骆驼");
    CollapseSingleSpaced("3. 骆驼");
  }

  lemma CollapsedTwice()
    ensures Collapse(Strip("1.2.骆驼")) == "1.2.骆驼"
  {
    assert SingleSpaced("1.2.骆驼");
    StripStripped("1.2.骆驼");
    CollapseSingleSpaced("1.2.骆驼");
  }

  lemma FirstStepExample()
    ensures StripPrefix(DigitsThenMark, "3. 骆驼") == "骆驼"
  {
    assert RunLength("3. 骆驼"[1..], IsDigit) == 0;
    assert PrefixLength(DigitsThenMark, "3. 骆驼") == 2;
    assert "3. 骆驼"[2..] == " 骆驼";
    LeadingSpace(" 骆驼", "骆驼");
  }

  lemma FirstStepTwice()
    ensures StripPrefix(DigitsThenMark, "1.2.骆驼") == "2.骆驼"
  {
    assert RunLength("1.2.骆驼"[1..], IsDigit) == 0;
    assert PrefixLength(DigitsThenMark, "1.2.骆驼") == 2;
    assert "1.2.骆驼"[2..] == "2.骆驼";
    StripStripped("2.骆驼");
  }

  lemma ExamplesInert()
    ensures IsStripped("骆驼") && IsStripped("2.骆驼")
    ensures forall p | p in SerialPrefixes[1..] :: PrefixLength(p, "骆驼") == 0
    ensures forall p | p in SerialPrefixes[1..] :: PrefixLength(p, "2.骆驼") == 0
  {
    assert RunLength("2.骆驼"[1..], IsDigit) == 0;
    assert RunLength("2.骆驼"[1..], IsSpace) == 0;
  }

  /** Only the first pattern matches `s`, and it leaves `t`. */
  lemma ExampleLoop(s: string, t: string)
    requires StripPrefix(DigitsThenMark, s) == t
    requires IsStripped(t) && forall p | p in SerialPrefixes[1..] :: PrefixLength(p, t) == 0
    ensures StripPrefixes(s, SerialPrefixes) == t
  {
    StripPrefixesInert(t, SerialPrefixes[1..]);
  }

  /** "3. 骆驼" loses its enumeration and the space after it. */
  lemma CleanedExample()
    ensures Cleaned("3. 骆驼", CleanConfig(SerialPrefixes, false)) == "骆驼"
  {
    CollapsedExample();
    FirstStepExample();
    ExamplesInert();
    ExampleLoop("3. 骆驼", "骆驼");
    StripStripped("骆驼");
  }

  /** Each pattern is applied once: a second enumeration survives the first pass. */
  lemma CleanedOncePerPattern()
    ensures Cleaned("1.2.骆驼", CleanConfig(SerialPrefixes, false)) == "2.骆驼"
  {
    CollapsedTwice();
    FirstStepTwice();
    ExamplesInert();
    ExampleLoop("1.2.骆驼", "2.骆驼");
    StripStripped("2.骆驼");
  }
}
