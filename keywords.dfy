/**
 * Keyword dictionaries `{answer: [keyword, ...]}` of the final and smart
 * tools: a canonical answer is revealed by any of its keywords occurring
 * in a text.
 */
module Keywords {
  import opened Text
  import opened Sorting

  /** One dictionary entry: the canonical answer and the keywords that reveal it. */
  datatype Pattern = Pattern(answer: string, keywords: seq<string>)

  /** Some keyword of `p` occurs in `text`. */
  predicate Mentions(text: string, p: Pattern) {
    exists j | 0 <= j < |p.keywords| :: Contains(text, p.keywords[j])
  }

  /** The canonical answers, in dictionary order. */
  function Answers(ps: seq<Pattern>): (r: seq<string>)
    ensures |r| == |ps| && forall i | 0 <= i < |ps| :: r[i] == ps[i].answer
  {
    seq(|ps|, i requires 0 <= i < |ps| => ps[i].answer)
  }

  predicate DistinctAnswers(ps: seq<Pattern>) {
    forall i, j | 0 <= i < j < |ps| :: ps[i].answer != ps[j].answer
  }
  /** The test `keyword in text`, as a function value. */
  function OccursIn(text: string): string -> bool {
    (kw: string) => Contains(text, kw)
  }

  /** The test "some keyword occurs in `text`", as a function value. */
  function MentionedIn(text: string): Pattern -> bool {
    (p: Pattern) => Mentions(text, p)
  }

  /** `for keyword in keywords: if keyword in text: ...; break`: whether the scan stops early. */
  method ScanKeywords(p: Pattern, text: string) returns (found: bool)
    ensures found <==> Mentions(text, p)
  {
    var k := FindFirst(p.keywords, OccursIn(text));
    found := k < |p.keywords|;
  }

  /** `for answer, keywords in d.items(): for keyword in keywords: if keyword in text: return answer`. */
  method FirstMentioned(ps: seq<Pattern>, text: string) returns (i: nat)
    ensures i == FirstIndex(ps, MentionedIn(text))
  {
    i := 0;
    while i < |ps|
      invariant i <= |ps| && forall j | 0 <= j < i :: !Mentions(text, ps[j])
    {
      var found := ScanKeywords(ps[i], text);
      if found {
        FirstIndexAt(ps, MentionedIn(text), i);
        return;
      }
      i := i + 1;
    }
    FirstIndexAt(ps, MentionedIn(text), i);
  }
}
