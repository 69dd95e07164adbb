/** Per-object depth: crop the depth map to each box and reduce the crop to its
    arithmetic mean, one scalar per box. */
module Aggregate {
  import opened Grids
  import opened Boxes

  /** torchvision `crop(img, top, left, height, width)` on an in-bounds box. */
  function Crop(g: Grid, h: nat, w: nat, k: CropBox): (c: Grid)
    requires IsGrid(g, h, w) && CropInBounds(k, h, w)
    ensures IsGrid(c, k.height, k.width)
    ensures forall i, j :: 0 <= i < k.height && 0 <= j < k.width ==> c[i][j] == g[k.top + i][k.left + j]
  {
    seq(k.height, i requires 0 <= i < k.height => g[k.top + i][k.left .. k.left + k.width])
  }

  function Sum(s: seq<real>): real {
    if |s| == 0 then 0.0 else Sum(s[..|s| - 1]) + s[|s| - 1]
  }

  function GridSum(g: Grid): real {
    if |g| == 0 then 0.0 else GridSum(g[..|g| - 1]) + Sum(g[|g| - 1])
  }

  /** `Tensor.mean()` of a non-empty h x w crop: the sum of its values over their count. */
  function Mean(g: Grid, h: nat, w: nat): (m: real)
    requires IsGrid(g, h, w) && h > 0 && w > 0
    ensures ((h * w) as real) * m == GridSum(g)
  {
    GridSum(g) / ((h * w) as real)
  }

  /** The depth scalar of one object: the mean of the map over its crop. */
  function CropMean(g: Grid, h: nat, w: nat, k: CropBox): real
    requires IsGrid(g, h, w) && CropInBounds(k, h, w) && k.height > 0 && k.width > 0
  {
    Mean(Crop(g, h, w, k), k.height, k.width)
  }

  predicate CropsInBounds(crops: seq<CropBox>, h: int, w: int) {
    forall i :: 0 <= i < |crops| ==> CropInBounds(crops[i], h, w) && crops[i].height > 0 && crops[i].width > 0
  }

  /** `torch.tensor([crop_.mean() for crop_ in crops])`: exactly one scalar per box,
      scalar i being the mean of the values inside crop i. */
  function ObjectMeans(g: Grid, h: nat, w: nat, crops: seq<CropBox>): (ds: seq<real>)
    requires IsGrid(g, h, w) && CropsInBounds(crops, h, w)
    ensures |ds| == |crops|
    ensures forall i :: 0 <= i < |crops| ==>
              ((crops[i].height * crops[i].width) as real) * ds[i] == GridSum(Crop(g, h, w, crops[i]))
  {
    seq(|crops|, i requires 0 <= i < |crops| => CropMean(g, h, w, crops[i]))
  }

  predicate RowWithin(s: seq<real>, lo: real, hi: real) {
    forall i :: 0 <= i < |s| ==> lo <= s[i] <= hi
  }

  predicate ValuesWithin(g: Grid, lo: real, hi: real) {
    forall r :: 0 <= r < |g| ==> RowWithin(g[r], lo, hi)
  }

  /** n copies of v added up; keeps the bound proofs below in linear arithmetic. */
  function Times(n: nat, v: real): real {
    if n == 0 then 0.0 else Times(n - 1, v) + v
  }

  lemma {:induction false} TimesIsProduct(n: nat, v: real)
    ensures Times(n, v) == (n as real) * v
  {
    if n > 0 {
      TimesIsProduct(n - 1, v);
    }
  }

  lemma {:induction false} SumWithin(s: seq<real>, lo: real, hi: real)
    requires RowWithin(s, lo, hi)
    ensures Times(|s|, lo) <= Sum(s) <= Times(|s|, hi)
  {
    if |s| > 0 {
      SumWithin(s[..|s| - 1], lo, hi);
    }
  }

  lemma {:induction false} GridSumWithin(g: Grid, h: nat, w: nat, lo: real, hi: real)
    requires IsGrid(g, h, w) && ValuesWithin(g, lo, hi)
    ensures Times(h, Times(w, lo)) <= GridSum(g) <= Times(h, Times(w, hi))
  {
    if h > 0 {
      var prefix := g[..h - 1];
      assert IsGrid(prefix, h - 1, w) && ValuesWithin(prefix, lo, hi) by {
        forall r | 0 <= r < h - 1
          ensures prefix[r] == g[r]
        {
        }
      }
      GridSumWithin(prefix, h - 1, w, lo, hi);
      SumWithin(g[h - 1], lo, hi);
    }
  }

  /** h rows of w copies of v add up to the crop's area times v. */
  lemma TimesArea(h: nat, w: nat, v: real)
    ensures Times(h, Times(w, v)) == ((h * w) as real) * v
  {
    TimesIsProduct(w, v);
    TimesIsProduct(h, Times(w, v));
    assert (h * w) as real == (h as real) * (w as real);
  }

  /** A total divided by a positive count stays between the bounds its terms keep. */
  lemma QuotientWithin(s: real, n: real, lo: real, hi: real)
    requires n > 0.0 && n * lo <= s <= n * hi
    ensures lo <= s / n <= hi
  {
    var q := s / n;
    assert q * n == s;
    assert n * (q - lo) >= 0.0;
    assert n * (hi - q) >= 0.0;
  }

  /** The mean of a crop lies between any bounds its values keep. */
  lemma MeanWithin(g: Grid, h: nat, w: nat, lo: real, hi: real)
    requires IsGrid(g, h, w) && h > 0 && w > 0 && ValuesWithin(g, lo, hi)
    ensures lo <= Mean(g, h, w) <= hi
  {
    GridSumWithin(g, h, w, lo, hi);
    TimesArea(h, w, lo);
    TimesArea(h, w, hi);
    QuotientWithin(GridSum(g), (h * w) as real, lo, hi);
  }

  /** Every object's scalar lies within the range of the depth map's values. */
  lemma ObjectMeansWithin(g: Grid, h: nat, w: nat, crops: seq<CropBox>, lo: real, hi: real)
    requires IsGrid(g, h, w) && CropsInBounds(crops, h, w) && ValuesWithin(g, lo, hi)
    ensures forall i :: 0 <= i < |crops| ==> lo <= ObjectMeans(g, h, w, crops)[i] <= hi
  {
    forall i | 0 <= i < |crops|
      ensures lo <= ObjectMeans(g, h, w, crops)[i] <= hi
    {
      var k := crops[i];
      MeanWithin(Crop(g, h, w, k), k.height, k.width, lo, hi);
    }
  }

  /** An object whose crop holds one value everywhere gets exactly that value. */
  lemma UniformCropMean(g: Grid, h: nat, w: nat, k: CropBox, v: real)
    requires IsGrid(g, h, w) && CropInBounds(k, h, w) && k.height > 0 && k.width > 0
    requires forall r, c :: k.top <= r < k.top + k.height && k.left <= c < k.left + k.width ==> g[r][c] == v
    ensures CropMean(g, h, w, k) == v
  {
    MeanWithin(Crop(g, h, w, k), k.height, k.width, v, v);
  }

  /** The scalar of an object depends only on the map values inside its rectangle. */
  lemma CropMeanIsLocal(g1: Grid, g2: Grid, h: nat, w: nat, k: CropBox)
    requires IsGrid(g1, h, w) && IsGrid(g2, h, w) && CropInBounds(k, h, w) && k.height > 0 && k.width > 0
    requires forall r, c :: k.top <= r < k.top + k.height && k.left <= c < k.left + k.width ==> g1[r][c] == g2[r][c]
    ensures CropMean(g1, h, w, k) == CropMean(g2, h, w, k)
  {
    var c1 := Crop(g1, h, w, k);
    var c2 := Crop(g2, h, w, k);
    forall i | 0 <= i < k.height
      ensures c1[i] == c2[i]
    {
      forall j | 0 <= j < k.width
        ensures c1[i][j] == c2[i][j]
      {
        assert c1[i][j] == g1[k.top + i][k.left + j];
      }
    }
    assert c1 == c2;
  }
}
