/**
 * The preprocessing enumerations of the tesseract-based tools: for every
 * crop region that is not empty, every preprocessing method and every
 * scale factor, one image to recognize; and the recognizer readings that
 * survive `text.strip()`. The pixel work itself is not modelled: an image
 * is named by the region index, the method and the scale.
 */
module Imaging {
  import opened Text
  import opened Sorting
  import opened Regions

  /** The image `region{i}_{method}_scale{scale}`. */
  datatype Variant = Variant(region: nat, step: string, scale: nat)

  /** The scales of one method applied to region `i`. */
  function ScaleVariants(i: nat, m: string, scales: seq<nat>): (vs: seq<Variant>)
    ensures |vs| == |scales|
    ensures forall k | 0 <= k < |vs| :: vs[k] == Variant(i, m, scales[k])
  {
    seq(|scales|, k requires 0 <= k < |scales| => Variant(i, m, scales[k]))
  }

  /** The methods, each with all its scales, applied to region `i`. */
  function MethodVariants(i: nat, methods: seq<string>, scales: seq<nat>): seq<seq<Variant>>
  {
    seq(|methods|, j requires 0 <= j < |methods| => ScaleVariants(i, methods[j], scales))
  }

  /** The images of region `i`: methods in order, scales in order within each method. */
  function RegionVariants(i: nat, methods: seq<string>, scales: seq<nat>): seq<Variant> {
    Concat(MethodVariants(i, methods, scales))
  }

  /** All images, regions in table order, empty regions skipped; `region` is the index in the table. */
  function Expand(table: seq<Region>, methods: seq<string>, scales: seq<nat>): seq<Variant> {
    if table == [] then []
    else
      var n := |table| - 1;
      Expand(table[..n], methods, scales) + (if NonEmpty(table[n]) then RegionVariants(n, methods, scales) else [])
  }

  lemma ExpandNext(table: seq<Region>, methods: seq<string>, scales: seq<nat>, i: nat)
    requires i < |table|
    ensures Expand(table[..i + 1], methods, scales)
      == Expand(table[..i], methods, scales) + (if NonEmpty(table[i]) then RegionVariants(i, methods, scales) else [])
  {
    assert table[..i + 1][..i] == table[..i];
  }

  /** The `for scale in scales: append` loop for one method of region `i`. */
  method ScaleImages(i: nat, m: string, scales: seq<nat>) returns (vs: seq<Variant>)
    ensures vs == ScaleVariants(i, m, scales)
  {
    vs := [];
    for k := 0 to |scales|
      invariant vs == ScaleVariants(i, m, scales)[..k]
    {
      vs := vs + [Variant(i, m, scales[k])];
    }
  }

  /** The `for method in methods: for scale in scales: append` loops for region `i`. */
  method RegionImages(i: nat, methods: seq<string>, scales: seq<nat>) returns (vs: seq<Variant>)
    ensures vs == RegionVariants(i, methods, scales)
  {
    vs := [];
    ghost var mvs := MethodVariants(i, methods, scales);
    for j := 0 to |methods|
      invariant vs == Concat(mvs[..j])
    {
      assert mvs[..j + 1][..j] == mvs[..j];
      var step := ScaleImages(i, methods[j], scales);
      vs := vs + step;
    }
    assert mvs[..|methods|] == mvs;
  }

  /** The nested `for region / for method / for scale: append` loops of the preprocessors. */
  method ExpandRegions(table: seq<Region>, methods: seq<string>, scales: seq<nat>) returns (images: seq<Variant>)
    ensures images == Expand(table, methods, scales)
  {
    images := [];
    for i := 0 to |table|
      invariant images == Expand(table[..i], methods, scales)
    {
      ExpandNext(table, methods, scales, i);
      if !NonEmpty(table[i]) {
        continue;
      }
      var vs := RegionImages(i, methods, scales);
      images := images + vs;
    }
    assert table[..|table|] == table;
  }

  lemma RegionVariantsLength(i: nat, methods: seq<string>, scales: seq<nat>)
    ensures |RegionVariants(i, methods, scales)| == |methods| * |scales|
  {
    ConcatUniform(MethodVariants(i, methods, scales), |scales|);
  }

  lemma KeepNonEmptyLength(table: seq<Region>)
    requires table != []
    ensures |KeepNonEmpty(table)|
      == |KeepNonEmpty(table[..|table| - 1])| + (if NonEmpty(table[|table| - 1]) then 1 else 0)
  {
  }

  lemma MulNext(a: nat, per: nat)
    ensures (a + 1) * per == a * per + per
  {
  }

  /** Every non-empty region contributes one image per method and scale. */
  lemma {:induction false} ExpandLength(table: seq<Region>, methods: seq<string>, scales: seq<nat>)
    ensures |Expand(table, methods, scales)| == |KeepNonEmpty(table)| * (|methods| * |scales|)
  {
    if table != [] {
      var n := |table| - 1;
      ExpandLength(table[..n], methods, scales);
      RegionVariantsLength(n, methods, scales);
      KeepNonEmptyLength(table);
      MulNext(|KeepNonEmpty(table[..n])|, |methods| * |scales|);
    }
  }

  /** Extending the table only appends images. */
  lemma {:induction false} ExpandPrefix(table: seq<Region>, methods: seq<string>, scales: seq<nat>, m: nat)
    requires m <= |table|
    ensures Expand(table[..m], methods, scales) <= Expand(table, methods, scales)
    decreases |table|
  {
    if m < |table| {
      var n := |table| - 1;
      assert table[..n][..m] == table[..m];
      ExpandPrefix(table[..n], methods, scales, m);
    } else {
      assert table[..m] == table;
    }
  }

  /** Every image names a non-empty region of the table, a listed method and a listed scale. */
  lemma {:induction false} ExpandMembers(table: seq<Region>, methods: seq<string>, scales: seq<nat>)
    ensures forall v | v in Expand(table, methods, scales) ::
      v.region < |table| && NonEmpty(table[v.region]) && v.step in methods && v.scale in scales
  {
    if table != [] {
      var n := |table| - 1;
      ExpandMembers(table[..n], methods, scales);
      forall v | v in RegionVariants(n, methods, scales)
        ensures v.region == n && v.step in methods && v.scale in scales
      {
        ConcatMember(MethodVariants(n, methods, scales), v);
      }
    }
  }

  /** `processed_images[:limit]`. */
  function Take<T>(xs: seq<T>, limit: nat): (r: seq<T>)
    ensures |r| == if |xs| < limit then |xs| else limit
    ensures r == xs[..|r|]
  {
    if |xs| <= limit then xs else xs[..limit]
  }

  // ------------------------------------------------------------ readings

  /** The readings kept by `if text.strip(): all_texts.append(text.strip())`. */
  function Readings(raw: seq<string>): (texts: seq<string>)
    ensures forall i | 0 <= i < |texts| :: texts[i] != [] && IsStripped(texts[i])
    ensures |texts| <= |raw|
  {
    if raw == [] then []
    else
      var t := Strip(raw[|raw| - 1]);
      Readings(raw[..|raw| - 1]) + (if t != [] then [t] else [])
  }

  /** The reading loop, over the recognizer outputs in call order. */
  method CollectReadings(raw: seq<string>) returns (texts: seq<string>)
    ensures texts == Readings(raw)
  {
    texts := [];
    for i := 0 to |raw|
      invariant texts == Readings(raw[..i])
    {
      assert raw[..i + 1][..i] == raw[..i];
      var t := Strip(raw[i]);
      if t != [] {
        texts := texts + [t];
      }
    }
    assert raw[..|raw|] == raw;
  }
}
