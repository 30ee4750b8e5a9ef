/**
 * Crop rectangles that the OCR tools cut out of an image of `width` by
 * `height` pixels, given as fractions of the size. A coordinate such as
 * `int(height*0.75)` is taken as the exact floor `height * 75 / 100`.
 */
module Regions {

  /** The rectangle `img[y1:y2, x1:x2]` under a name. */
  datatype Region = Region(name: string, x1: int, y1: int, x2: int, y2: int)

  /** `int(n * pct / 100)`, the coordinate at `pct` percent of `n`. */
  function At(n: nat, pct: nat): nat {
    n * pct / 100
  }

  lemma AtMonotone(n: nat, p: nat, q: nat)
    requires p <= q
    ensures At(n, p) <= At(n, q)
  {
    assert n * p <= n * q by {
      assert n * q - n * p == n * (q - p);
    }
  }

  lemma AtBounded(n: nat, p: nat)
    requires p <= 100
    ensures At(n, p) <= n
  {
    AtMonotone(n, p, 100);
    assert n * 100 / 100 == n;
  }

  /** Inside the image, corners in order: `0 <= x1 <= x2 <= width` and `0 <= y1 <= y2 <= height`. */
  predicate Within(r: Region, width: int, height: int) {
    0 <= r.x1 <= r.x2 <= width && 0 <= r.y1 <= r.y2 <= height
  }

  /** `roi.size != 0`: the crop has at least one pixel. */
  predicate NonEmpty(r: Region) {
    r.x1 < r.x2 && r.y1 < r.y2
  }

  /** The regions that `preprocess` keeps, in table order. */
  function KeepNonEmpty(rs: seq<Region>): (kept: seq<Region>)
    ensures forall i | 0 <= i < |kept| :: NonEmpty(kept[i]) && kept[i] in rs
    ensures forall r | r in rs && NonEmpty(r) :: r in kept
    ensures |kept| <= |rs|
  {
    if rs == [] then []
    else
      var p := KeepNonEmpty(rs[..|rs| - 1]);
      assert forall r | r in rs[..|rs| - 1] :: r in rs;
      assert forall r | r in rs :: r in rs[..|rs| - 1] || r == rs[|rs| - 1];
      if NonEmpty(rs[|rs| - 1]) then p + [rs[|rs| - 1]] else p
  }

  /** The crop loop: `for region in answer_regions: ... if roi.size == 0: continue; regions.append(...)`. */
  method CropRegions(table: seq<Region>) returns (kept: seq<Region>)
    ensures kept == KeepNonEmpty(table)
  {
    kept := [];
    for i := 0 to |table|
      invariant kept == KeepNonEmpty(table[..i])
    {
      assert table[..i + 1][..i] == table[..i];
      if NonEmpty(table[i]) {
        kept := kept + [table[i]];
      }
    }
    assert table[..|table|] == table;
  }

  /** Region names are distinct. */
  predicate DistinctNames(rs: seq<Region>) {
    forall i, j | 0 <= i < j < |rs| :: rs[i].name != rs[j].name
  }
}
