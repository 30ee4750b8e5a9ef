/**
 * Python `str` behaviour that the OCR scripts rely on: character classes
 * (`str.isspace`, `str.isdigit`, the regex class `\w`), `strip`, the
 * whitespace collapse `re.sub(r'\s+', ' ', s)`, `in`, `replace`, `int`,
 * `upper`/`lower`, `isalpha`/`isupper` and `' '.join`.
 *
 * Unicode tables are not available, so the classes below list the
 * ranges that occur in the answers the tools read: ASCII, Latin-1,
 * kana, CJK, Hangul, circled numbers and fullwidth forms.
 */
module Text {

  /** `str.isspace()`, which is also what the regex class `\s` matches on `str`. */
  predicate IsSpace(c: char) {
    ('\t' <= c <= '\r') || ('\U{1C}' <= c <= '\U{1F}') || c == ' ' || c == '\U{85}' || c == '\U{A0}'
    || c == '\U{1680}' || ('\U{2000}' <= c <= '\U{200A}') || c == '\U{2028}' || c == '\U{2029}'
    || c == '\U{202F}' || c == '\U{205F}' || c == '\U{3000}'
  }

  /** The regex class `\d` and `[0-9]`, restricted to ASCII digits. */
  predicate IsDigit(c: char) { '0' <= c <= '9' }

  predicate IsAsciiUpper(c: char) { 'A' <= c <= 'Z' }

  predicate IsAsciiLower(c: char) { 'a' <= c <= 'z' }

  predicate IsAsciiLetter(c: char) { IsAsciiUpper(c) || IsAsciiLower(c) }

  /** The block `一-鿿` that every script uses for "Chinese character". */
  predicate IsCjk(c: char) { '\U{4E00}' <= c <= '\U{9FFF}' }

  /** Upper-case letters (`str.isupper` on one character). */
  predicate IsUpperChar(c: char) {
    IsAsciiUpper(c) || ('\U{C0}' <= c <= '\U{DE}' && c != '\U{D7}') || ('\U{FF21}' <= c <= '\U{FF3A}')
  }

  /** Lower-case letters (`str.islower` on one character). */
  predicate IsLowerChar(c: char) {
    IsAsciiLower(c) || ('\U{DF}' <= c <= '\U{FF}' && c != '\U{F7}') || ('\U{FF41}' <= c <= '\U{FF5A}')
  }

  /** `str.isalpha()` on one character. */
  predicate IsAlphaChar(c: char) {
    IsUpperChar(c) || IsLowerChar(c)
    || ('\U{3041}' <= c <= '\U{3096}') || ('\U{30A1}' <= c <= '\U{30FA}')
    || ('\U{3400}' <= c <= '\U{4DBF}') || IsCjk(c) || ('\U{AC00}' <= c <= '\U{D7A3}')
  }

  /** Numeric characters other than letters: ASCII and fullwidth digits, circled numbers. */
  predicate IsNumericChar(c: char) {
    IsDigit(c) || ('\U{FF10}' <= c <= '\U{FF19}') || ('\U{2460}' <= c <= '\U{2473}')
  }

  /** The regex class `\w` on `str`: letters, numbers and the underscore. */
  predicate IsWordChar(c: char) { IsAlphaChar(c) || IsNumericChar(c) || c == '_' }

  lemma CjkIsWordChar(c: char)
    requires IsCjk(c)
    ensures IsWordChar(c) && !IsSpace(c) && !IsDigit(c) && !IsAsciiLetter(c)
  {
  }

  // ---------------------------------------------------------------- strip

  predicate IsStripped(s: string) {
    s == [] || (!IsSpace(s[0]) && !IsSpace(s[|s| - 1]))
  }

  /** `str.lstrip()`: the suffix of `s` left after its leading whitespace. */
  function LStrip(s: string): (r: string)
    ensures |r| <= |s| && r == s[|s| - |r|..]
    ensures forall i | 0 <= i < |s| - |r| :: IsSpace(s[i])
    ensures r == [] || !IsSpace(r[0])
    decreases |s|
  {
    if s != [] && IsSpace(s[0]) then LStrip(s[1..]) else s
  }

  /** `str.rstrip()`: the prefix of `s` left before its trailing whitespace. */
  function RStrip(s: string): (r: string)
    ensures |r| <= |s| && r == s[..|r|]
    ensures forall i | |r| <= i < |s| :: IsSpace(s[i])
    ensures r == [] || !IsSpace(r[|r| - 1])
    decreases |s|
  {
    if s != [] && IsSpace(s[|s| - 1]) then RStrip(s[..|s| - 1]) else s
  }

  /** Number of leading whitespace characters of `s`. */
  function StripStart(s: string): nat
  {
    |s| - |LStrip(s)|
  }

  /** `str.strip()`: the part of `s` between its leading and its trailing whitespace. */
  function Strip(s: string): (r: string)
    ensures IsStripped(r)
    ensures StripStart(s) + |r| <= |s| && r == s[StripStart(s)..StripStart(s) + |r|]
    ensures forall i | 0 <= i < |s| && (i < StripStart(s) || StripStart(s) + |r| <= i) :: IsSpace(s[i])
  {
    var l := LStrip(s);
    var r := RStrip(l);
    assert r == s[StripStart(s)..StripStart(s) + |r|];
    r
  }

  lemma StripStripped(s: string)
    requires IsStripped(s)
    ensures Strip(s) == s
  {
    assert LStrip(s) == s;
    assert RStrip(s) == s;
  }

  lemma StripIdempotent(s: string)
    ensures Strip(Strip(s)) == Strip(s)
  {
    StripStripped(Strip(s));
  }

  // ----------------------------------------------------- whitespace runs

  /** No whitespace other than `' '`, and never two whitespace characters in a row. */
  predicate SingleSpaced(s: string) {
    forall i | 0 <= i < |s| && IsSpace(s[i]) :: s[i] == ' ' && (i + 1 < |s| ==> !IsSpace(s[i + 1]))
  }

  /** The characters of `s` that are not whitespace, in order. */
  function NonSpace(s: string): string
  {
    if s == [] then [] else (if IsSpace(s[0]) then [] else [s[0]]) + NonSpace(s[1..])
  }

  /** `re.sub(r'\s+', ' ', s)`: every maximal whitespace run becomes one space. */
  function Collapse(s: string): (r: string)
    ensures SingleSpaced(r)
    ensures |r| <= |s| && (r == [] <==> s == [])
    ensures r != [] ==> r[0] == (if IsSpace(s[0]) then ' ' else s[0])
    ensures r != [] ==> (IsSpace(r[|r| - 1]) <==> IsSpace(s[|s| - 1]))
    decreases |s|
  {
    if s == [] then []
    else if IsSpace(s[0]) then [' '] + Collapse(LStrip(s))
    else [s[0]] + Collapse(s[1..])
  }

  lemma {:induction false} NonSpaceLStrip(s: string)
    ensures NonSpace(LStrip(s)) == NonSpace(s)
    decreases |s|
  {
    if s != [] && IsSpace(s[0]) {
      NonSpaceLStrip(s[1..]);
    }
  }

  /** Collapsing whitespace keeps every other character, in order. */
  lemma {:induction false} CollapseKeepsNonSpace(s: string)
    ensures NonSpace(Collapse(s)) == NonSpace(s)
    decreases |s|
  {
    if s == [] {
    } else if IsSpace(s[0]) {
      var t := LStrip(s);
      CollapseKeepsNonSpace(t);
      NonSpaceLStrip(s);
      assert ([' '] + Collapse(t))[1..] == Collapse(t);
    } else {
      CollapseKeepsNonSpace(s[1..]);
      assert ([s[0]] + Collapse(s[1..]))[1..] == Collapse(s[1..]);
    }
  }

  /** A string that is already single-spaced is left unchanged, so collapsing is idempotent. */
  lemma {:induction false} CollapseSingleSpaced(s: string)
    requires SingleSpaced(s)
    ensures Collapse(s) == s
    decreases |s|
  {
    if s != [] {
      var t := s[1..];
      SingleSpacedSlice(s, 1, |s|);
      assert s[1..|s|] == t;
      CollapseSingleSpaced(t);
      if IsSpace(s[0]) {
        LStripOnce(s);
        assert Collapse(s) == [' '] + Collapse(t);
      } else {
        assert Collapse(s) == [s[0]] + Collapse(t);
      }
      assert s == [s[0]] + t;
    }
  }

  /** One leading whitespace character followed by something else is all `lstrip` removes. */
  lemma LStripOnce(s: string)
    requires s != [] && IsSpace(s[0]) && (|s| > 1 ==> !IsSpace(s[1]))
    ensures LStrip(s) == s[1..]
  {
    var t := s[1..];
    if t != [] {
      assert t[0] == s[1];
    }
    assert LStrip(t) == t;
  }

  lemma CollapseIdempotent(s: string)
    ensures Collapse(Collapse(s)) == Collapse(s)
  {
    CollapseSingleSpaced(Collapse(s));
  }

  /** Cutting a slice out of a single-spaced string leaves it single-spaced. */
  lemma SingleSpacedSlice(s: string, a: nat, b: nat)
    requires SingleSpaced(s) && a <= b <= |s|
    ensures SingleSpaced(s[a..b])
  {
    forall i | 0 <= i < |s[a..b]| && IsSpace(s[a..b][i])
      ensures s[a..b][i] == ' ' && (i + 1 < |s[a..b]| ==> !IsSpace(s[a..b][i + 1]))
    {
      assert s[a..b][i] == s[a + i];
      if i + 1 < |s[a..b]| {
        assert s[a..b][i + 1] == s[a + i + 1];
      }
    }
  }

  // ------------------------------------------------------------ substrings

  /** `p` occurs in `s` starting at index `i`. */
  predicate OccursAt(s: string, p: string, i: int) {
    0 <= i <= |s| - |p| && s[i..i + |p|] == p
  }

  lemma OccursInTail(s: string, p: string, i: int)
    requires s != [] && OccursAt(s[1..], p, i)
    ensures OccursAt(s, p, i + 1)
  {
    assert s[1..][i..i + |p|] == s[i + 1..i + 1 + |p|];
  }

  lemma OccursInSuffix(s: string, p: string, k: nat, i: int)
    requires k <= |s| && OccursAt(s[k..], p, i)
    ensures OccursAt(s, p, i + k)
  {
    assert s[k..][i..i + |p|] == s[i + k..i + k + |p|];
  }

  /** Python's `p in s`. */
  function Contains(s: string, p: string): (b: bool)
    ensures b <==> exists i :: OccursAt(s, p, i)
    decreases |s|
  {
    if |p| > |s| then false
    else if p <= s then (assert OccursAt(s, p, 0); true)
    else
      var b := Contains(s[1..], p);
      assert b ==> exists i :: OccursAt(s, p, i) by {
        if b {
          var i :| OccursAt(s[1..], p, i);
          OccursInTail(s, p, i);
        }
      }
      assert (exists i :: OccursAt(s, p, i)) ==> b by {
        if exists i :: OccursAt(s, p, i) {
          var i :| OccursAt(s, p, i);
          assert i != 0;
          assert s[i..i + |p|] == s[1..][i - 1..i - 1 + |p|];
          assert OccursAt(s[1..], p, i - 1);
        }
      }
      b
  }

  /** Python's `any(c in s for c in cs)` for single characters. */
  predicate HasCharIn(s: string, p: char -> bool) {
    exists i | 0 <= i < |s| :: p(s[i])
  }

  predicate ContainsCjk(s: string) { HasCharIn(s, IsCjk) }

  /** `s.replace(pat, rep)`: every non-overlapping occurrence of `pat`, scanned from the left, becomes `rep`. */
  function Replace(s: string, pat: string, rep: string): (r: string)
    decreases |s|
  {
    if pat == [] then
      // Python inserts `rep` before every character and at the end
      if s == [] then rep else rep + [s[0]] + Replace(s[1..], pat, rep)
    else if s == [] then []
    else if pat <= s then rep + Replace(s[|pat|..], pat, rep)
    else [s[0]] + Replace(s[1..], pat, rep)
  }

  lemma ContainsTail(s: string, p: string)
    requires s != []
    ensures Contains(s[1..], p) ==> Contains(s, p)
  {
    if Contains(s[1..], p) {
      var i :| OccursAt(s[1..], p, i);
      OccursInTail(s, p, i);
    }
  }

  /** Replacing something that does not occur changes nothing. */
  lemma {:induction false} ReplaceAbsent(s: string, pat: string, rep: string)
    requires pat != [] && !Contains(s, pat)
    ensures Replace(s, pat, rep) == s
    decreases |s|
  {
    if s != [] {
      ContainsTail(s, pat);
      ReplaceAbsent(s[1..], pat, rep);
    }
  }

  // --------------------------------------------------------------- digits

  /** `str.isdigit()` on ASCII: non-empty and all digits. */
  predicate AllDigits(s: string) {
    s != [] && forall i | 0 <= i < |s| :: IsDigit(s[i])
  }

  /** Every string of `ks` is non-empty and starts with something other than a digit. */
  predicate NoDigitStart(ks: seq<string>) {
    forall k | k in ks :: k != [] && !IsDigit(k[0])
  }

  function DigitValue(c: char): nat
    requires IsDigit(c)
  {
    (c as int - '0' as int) as nat
  }

  function Pow10(n: nat): (p: nat)
    ensures p >= 1
  {
    if n == 0 then 1 else 10 * Pow10(n - 1)
  }

  /** `int(s)` on a string of digits (so `int("009") == 9`). */
  function NatValue(s: string): (v: nat)
    requires forall i | 0 <= i < |s| :: IsDigit(s[i])
    ensures v < Pow10(|s|)
  {
    if s == [] then 0 else 10 * NatValue(s[..|s| - 1]) + DigitValue(s[|s| - 1])
  }

  /** `int(str(n))`, read the other way: the decimal digits of `n`. */
  function DecimalString(n: nat): (s: string)
    ensures forall i | 0 <= i < |s| :: IsDigit(s[i])
    ensures s != [] && NatValue(s) == n
  {
    var d := ['0' + (n % 10) as char];
    assert DigitValue(d[0]) == n % 10;
    if n < 10 then d
    else
      var t := DecimalString(n / 10);
      assert (t + d)[..|t + d| - 1] == t;
      t + d
  }

  // ------------------------------------------------------------------ case

  function UpperChar(c: char): char {
    if IsAsciiLower(c) then (c as int - 32) as char else c
  }

  function LowerChar(c: char): char {
    if IsAsciiUpper(c) then (c as int + 32) as char else c
  }

  /** `str.upper()` on ASCII letters; every other character is kept. */
  function Upper(s: string): (r: string)
    ensures |r| == |s| && forall i | 0 <= i < |s| :: r[i] == UpperChar(s[i])
  {
    seq(|s|, i requires 0 <= i < |s| => UpperChar(s[i]))
  }

  /** `str.lower()` on ASCII letters; every other character is kept. */
  function Lower(s: string): (r: string)
    ensures |r| == |s| && forall i | 0 <= i < |s| :: r[i] == LowerChar(s[i])
  {
    seq(|s|, i requires 0 <= i < |s| => LowerChar(s[i]))
  }

  /** `str.isalpha()`: non-empty and every character a letter (CJK included). */
  predicate IsAlpha(s: string) {
    s != [] && forall i | 0 <= i < |s| :: IsAlphaChar(s[i])
  }

  /** `str.isupper()`: at least one upper-case letter and no lower-case one. */
  predicate IsUpper(s: string) {
    HasCharIn(s, IsUpperChar) && !HasCharIn(s, IsLowerChar)
  }

  // ------------------------------------------------------------------ join

  /** `sep.join(xs)`. */
  function Join(sep: string, xs: seq<string>): string
  {
    if xs == [] then [] else if |xs| == 1 then xs[0] else xs[0] + sep + Join(sep, xs[1..])
  }
}
