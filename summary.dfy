/**
 * The OCR summary: every record is either still the crawler's
 * placeholder or lands in exactly one answer category.
 */
module OcrSummary {
  import opened Wrappers
  import opened Text
  import opened Records
  import opened AnswerKinds

  const Animals: seq<string> := ["熊猫", "兔子", "老虎", "狼", "骆驼", "马", "牛", "羊", "金鱼", "蝴蝶", "蜻蜓", "鹅", "燕子"]
  const Objects: seq<string> := ["手枪", "冲锋枪", "军舰", "卡车", "摩托车", "拖拉机", "剪刀", "壶", "高射炮"]

  /** The `if/elif` chain: animals, objects, digits, capitals, CJK, other. */
  function KindOf(a: string): Kind {
    if a in Animals then Animal
    else if a in Objects then Object
    else if AllDigits(a) then Digits
    else if IsLetters(a) then Letters
    else if ContainsCjk(a) then Chinese
    else Other
  }

  /**
   * Each category means what its test says, the earlier tests winning: a
   * listed word is an animal or object even though it is CJK, a digit
   * string is never a capitals word, and "other" passes no test.
   */
  lemma KindMeaning(a: string)
    ensures KindOf(a) == Animal <==> a in Animals
    ensures KindOf(a) == Object <==> a in Objects
    ensures KindOf(a) == Digits <==> AllDigits(a)
    ensures KindOf(a) == Letters <==> IsLetters(a) && !AllDigits(a) && a !in Animals && a !in Objects
    ensures KindOf(a) == Chinese <==> ContainsCjk(a) && !IsLetters(a) && !AllDigits(a) && a !in Animals && a !in Objects
    ensures KindOf(a) == Other <==> !ContainsCjk(a) && !IsLetters(a) && !AllDigits(a) && a !in Animals && a !in Objects
  {
    if a in Animals || a in Objects {
      assert !AllDigits(a) by {
        assert a != [] && !IsDigit(a[0]);
      }
      assert a !in Animals || a !in Objects;
    }
  }

  /** The `(filename, answer)` pairs of category `k` after the records `rs`. */
  function Bucket(rs: seq<Record>, k: Kind): seq<(string, string)> {
    if rs == [] then []
    else
      var r := rs[|rs| - 1];
      Bucket(rs[..|rs| - 1], k) + (if r.answer != Placeholder && KindOf(r.answer) == k then [(r.filename, r.answer)] else [])
  }

  function Types(rs: seq<Record>): (types: map<Kind, seq<(string, string)>>)
    ensures forall k: Kind :: k in types && types[k] == Bucket(rs, k)
  {
    map k: Kind | k in NoTypes<(string, string)>() :: Bucket(rs, k)
  }

  /** What `summarize_ocr_results` prints. */
  datatype Summary = Summary(types: map<Kind, seq<(string, string)>>, pending: nat, completionRate: real)

  /** The classification loop. */
  method Classify(rs: seq<Record>) returns (types: map<Kind, seq<(string, string)>>, pending: nat)
    ensures types == Types(rs) && pending == CountPlaceholders(rs)
  {
    types := NoTypes();
    pending := 0;
    for i := 0 to |rs|
      invariant forall k: Kind :: k in types && types[k] == Bucket(rs[..i], k)
      invariant pending == CountPlaceholders(rs[..i])
    {
      assert rs[..i + 1][..i] == rs[..i];
      var answer := rs[i].answer;
      if answer == Placeholder {
        pending := pending + 1;
        continue;
      }
      var k := KindOf(answer);
      types := types[k := types[k] + [(rs[i].filename, answer)]];
    }
    assert rs[..|rs|] == rs;
    assert forall k: Kind :: k in types <==> k in Types(rs);
  }

  /** `summarize_ocr_results`: the completion rate divides by `len(answers_data)`, so an empty file raises. */
  method SummarizeOcrResults(rs: seq<Record>) returns (r: Result<Summary>)
    ensures r.Err? <==> rs == []
    ensures r.Err? ==> r.error == ZeroDivision
    ensures r.Ok? ==>
      (r.value.types == Types(rs) && r.value.pending == CountPlaceholders(rs)
       && r.value.completionRate == Percent(|rs| - CountPlaceholders(rs), |rs|))
  {
    var types, pending := Classify(rs);
    if |rs| == 0 {
      return Err(ZeroDivision);
    }
    r := Ok(Summary(types, pending, Percent(|rs| - pending, |rs|)));
  }

  /** The categories and the pending count together account for every record once. */
  lemma {:induction false} SummaryTotals(rs: seq<Record>)
    ensures Total(Types(rs)) + CountPlaceholders(rs) == |rs|
  {
    if rs != [] {
      SummaryTotals(rs[..|rs| - 1]);
    }
  }
}
