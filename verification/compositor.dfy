/** The painter's algorithm: each object's rectangle is filled with its constant
    depth, in depth order, onto a zero canvas, later objects overwriting earlier ones. */
module Compositor {
  import opened Grids
  import opened Boxes
  import opened DepthOrder

  /** `d.clone().repeat(shape)`: an h x w patch holding d everywhere. */
  function Fill(d: real, h: nat, w: nat): (p: Grid)
    ensures IsGrid(p, h, w)
    ensures forall i, j :: 0 <= i < h && 0 <= j < w ==> p[i][j] == d
  {
    seq(h, _ => seq(w, _ => d))
  }

  /** The slice assignment `canvas[..., y:ymax, x:xmax] = patch` for an in-bounds box
      whose patch has exactly the slice's shape: rows outside [y, ymax) are kept, and
      inside them only columns [x, xmax) are replaced. */
  function Assign(canvas: Grid, h: nat, w: nat, b: CornerBox, patch: Grid): (out: Grid)
    requires IsGrid(canvas, h, w) && InBounds(b, h, w) && IsGrid(patch, b.ymax - b.y, b.xmax - b.x)
    ensures IsGrid(out, h, w)
    ensures forall r, c :: InGrid(r, c, h, w) && Covers(b, r, c) ==> out[r][c] == patch[r - b.y][c - b.x]
    ensures forall r, c :: InGrid(r, c, h, w) && !Covers(b, r, c) ==> out[r][c] == canvas[r][c]
  {
    seq(h, r requires 0 <= r < h =>
      if b.y <= r < b.ymax then canvas[r][..b.x] + patch[r - b.y] + canvas[r][b.xmax..] else canvas[r])
  }

  /** The entry's original index names one of the boxes. */
  predicate IndicesBelow(order: seq<Entry>, n: int) {
    forall p :: 0 <= p < |order| ==> order[p].index < n
  }

  /** One iteration of the painting loop: the patch takes the crop box's shape and is
      written at the corner box of the same object. */
  function PaintObject(canvas: Grid, h: nat, w: nat, e: Entry, crops: seq<CropBox>, corners: seq<CornerBox>): (out: Grid)
    requires IsGrid(canvas, h, w) && ScaledBoxes(crops, corners, h, w) && e.index < |corners|
    ensures IsGrid(out, h, w)
    ensures forall r, c :: InGrid(r, c, h, w) && Covers(corners[e.index], r, c) ==> out[r][c] == e.depth
    ensures forall r, c :: InGrid(r, c, h, w) && !Covers(corners[e.index], r, c) ==> out[r][c] == canvas[r][c]
  {
    var k := crops[e.index];
    Assign(canvas, h, w, corners[e.index], Fill(e.depth, k.height, k.width))
  }

  /** `for i, d in boxes_depths: ...`: paint the objects in the given order. */
  function PaintAll(canvas: Grid, h: nat, w: nat, order: seq<Entry>, crops: seq<CropBox>, corners: seq<CornerBox>): (out: Grid)
    requires IsGrid(canvas, h, w) && ScaledBoxes(crops, corners, h, w) && IndicesBelow(order, |corners|)
    ensures IsGrid(out, h, w)
    decreases |order|
  {
    if |order| == 0 then
      canvas
    else
      var prev := PaintAll(canvas, h, w, order[..|order| - 1], crops, corners);
      PaintObject(prev, h, w, order[|order| - 1], crops, corners)
  }

  predicate EntryCovers(corners: seq<CornerBox>, e: Entry, r: int, c: int) {
    e.index < |corners| && Covers(corners[e.index], r, c)
  }

  /** Position p of the order holds the last entry whose box covers pixel (r, c). */
  ghost predicate IsLastCover(order: seq<Entry>, corners: seq<CornerBox>, r: int, c: int, p: int) {
    0 <= p < |order| && EntryCovers(corners, order[p], r, c) &&
    forall q :: p < q < |order| ==> !EntryCovers(corners, order[q], r, c)
  }

  /** Later objects win: after painting, a pixel holds the depth of the last entry in
      the order whose box covers it, and a pixel no box covers keeps its value. */
  lemma {:induction false} PaintAllLastWins(canvas: Grid, h: nat, w: nat, order: seq<Entry>, crops: seq<CropBox>, corners: seq<CornerBox>)
    requires IsGrid(canvas, h, w) && ScaledBoxes(crops, corners, h, w) && IndicesBelow(order, |corners|)
    ensures forall r, c, p :: InGrid(r, c, h, w) && IsLastCover(order, corners, r, c, p) ==>
              PaintAll(canvas, h, w, order, crops, corners)[r][c] == order[p].depth
    ensures forall r, c :: InGrid(r, c, h, w) && (forall q :: 0 <= q < |order| ==> !EntryCovers(corners, order[q], r, c)) ==>
              PaintAll(canvas, h, w, order, crops, corners)[r][c] == canvas[r][c]
    decreases |order|
  {
    if |order| > 0 {
      var n := |order| - 1;
      var prefix := order[..n];
      var prev := PaintAll(canvas, h, w, prefix, crops, corners);
      var out := PaintAll(canvas, h, w, order, crops, corners);
      assert out == PaintObject(prev, h, w, order[n], crops, corners);
      PaintAllLastWins(canvas, h, w, prefix, crops, corners);
      forall r, c, p | InGrid(r, c, h, w) && IsLastCover(order, corners, r, c, p)
        ensures out[r][c] == order[p].depth
      {
        if p < n {
          assert IsLastCover(prefix, corners, r, c, p);
        }
      }
      forall r, c | InGrid(r, c, h, w) && (forall q :: 0 <= q < |order| ==> !EntryCovers(corners, order[q], r, c))
        ensures out[r][c] == canvas[r][c]
      {
        assert forall q :: 0 <= q < n ==> !EntryCovers(corners, prefix[q], r, c) by {
          forall q | 0 <= q < n
            ensures !EntryCovers(corners, prefix[q], r, c)
          {
            assert prefix[q] == order[q];
          }
        }
      }
    }
  }

  /** No box covers pixel (r, c). */
  predicate Uncovered(corners: seq<CornerBox>, r: int, c: int) {
    forall k :: 0 <= k < |corners| ==> !Covers(corners[k], r, c)
  }

  /** Box k is the one that should show at pixel (r, c) under the painter's policy:
      it covers the pixel, and every covering box is shallower, or equally deep with
      a smaller index. That is, k has the greatest depth among the covering boxes
      and, among equal greatest depths, the greatest index. */
  ghost predicate IsTopCover(corners: seq<CornerBox>, ds: seq<real>, r: int, c: int, k: int) {
    0 <= k < |ds| && k < |corners| && Covers(corners[k], r, c) &&
    forall j :: 0 <= j < |ds| && j < |corners| && Covers(corners[j], r, c) ==>
      ds[j] < ds[k] || (ds[j] == ds[k] && j <= k)
  }

  /** In a stable sort of all objects by depth, the last entry covering a pixel is
      that pixel's top cover, carrying its own depth. */
  lemma LastCoverIsTop(order: seq<Entry>, ds: seq<real>, corners: seq<CornerBox>, r: int, c: int, p: int)
    requires |ds| == |corners|
    requires StablySorted(order) && multiset(order) == multiset(Enumerate(ds))
    requires IsLastCover(order, corners, r, c, p)
    ensures IsTopCover(corners, ds, r, c, order[p].index)
    ensures order[p].depth == ds[order[p].index]
  {
    var es := Enumerate(ds);
    assert order[p] in multiset(es);
    var k :| 0 <= k < |es| && es[k] == order[p];
    forall j | 0 <= j < |ds| && Covers(corners[j], r, c)
      ensures ds[j] < ds[k] || (ds[j] == ds[k] && j <= k)
    {
      assert es[j] in multiset(order);
      var q :| 0 <= q < |order| && order[q] == es[j];
      assert EntryCovers(corners, order[q], r, c);
      assert q <= p;
      if q < p {
        assert Precedes(order[q], order[p]);
      }
    }
  }

  /** A pixel covered by some box in the order has a last covering entry. */
  lemma {:induction false} LastCoverExists(order: seq<Entry>, corners: seq<CornerBox>, r: int, c: int, q: int)
    requires 0 <= q < |order| && EntryCovers(corners, order[q], r, c)
    ensures exists p :: IsLastCover(order, corners, r, c, p)
    decreases |order|
  {
    var n := |order| - 1;
    if EntryCovers(corners, order[n], r, c) {
      assert IsLastCover(order, corners, r, c, n);
    } else {
      LastCoverExists(order[..n], corners, r, c, q);
      var p :| IsLastCover(order[..n], corners, r, c, p);
      assert IsLastCover(order, corners, r, c, p);
    }
  }

  /** Two top covers of one pixel are the same box. */
  lemma TopCoverUnique(corners: seq<CornerBox>, ds: seq<real>, r: int, c: int, k1: int, k2: int)
    requires IsTopCover(corners, ds, r, c, k1) && IsTopCover(corners, ds, r, c, k2)
    ensures k1 == k2
  {
  }

  /** The compositing of one image: enumerate the depths, sort the pairs stably by
      depth and paint them in that order onto a zero canvas of the map's shape. */
  function Composite(h: nat, w: nat, ds: seq<real>, crops: seq<CropBox>, corners: seq<CornerBox>): (layout: Grid)
    requires ScaledBoxes(crops, corners, h, w) && |ds| == |corners|
    ensures IsGrid(layout, h, w)
  {
    SortEnumerated(ds);
    PaintAll(Zeros(h, w), h, w, SortByDepth(Enumerate(ds)), crops, corners)
  }

  /** Every pixel some box covers has a top cover. */
  lemma TopCoverExists(corners: seq<CornerBox>, ds: seq<real>, r: int, c: int, k0: int)
    requires |ds| == |corners| && 0 <= k0 < |corners| && Covers(corners[k0], r, c)
    ensures exists k :: IsTopCover(corners, ds, r, c, k)
  {
    var order := SortByDepth(Enumerate(ds));
    SortEnumerated(ds);
    var q :| 0 <= q < |order| && order[q] == Entry(k0, ds[k0]);
    LastCoverExists(order, corners, r, c, q);
    var p :| IsLastCover(order, corners, r, c, p);
    LastCoverIsTop(order, ds, corners, r, c, p);
  }

  /** The composited layout, pixel by pixel: a pixel no box covers stays 0, and a
      covered pixel holds the depth of its top cover, the deepest-valued covering box
      with ties going to the larger index. */
  lemma CompositeShowsTopCover(h: nat, w: nat, ds: seq<real>, crops: seq<CropBox>, corners: seq<CornerBox>)
    requires ScaledBoxes(crops, corners, h, w) && |ds| == |corners|
    ensures forall r, c, k :: InGrid(r, c, h, w) && IsTopCover(corners, ds, r, c, k) ==>
              Composite(h, w, ds, crops, corners)[r][c] == ds[k]
    ensures forall r, c :: InGrid(r, c, h, w) && Uncovered(corners, r, c) ==>
              Composite(h, w, ds, crops, corners)[r][c] == 0.0
  {
    var order := SortByDepth(Enumerate(ds));
    SortEnumerated(ds);
    var layout := Composite(h, w, ds, crops, corners);
    assert layout == PaintAll(Zeros(h, w), h, w, order, crops, corners);
    PaintAllLastWins(Zeros(h, w), h, w, order, crops, corners);
    forall r, c, k | InGrid(r, c, h, w) && IsTopCover(corners, ds, r, c, k)
      ensures layout[r][c] == ds[k]
    {
      var q :| 0 <= q < |order| && order[q] == Entry(k, ds[k]);
      LastCoverExists(order, corners, r, c, q);
      var p :| IsLastCover(order, corners, r, c, p);
      LastCoverIsTop(order, ds, corners, r, c, p);
      TopCoverUnique(corners, ds, r, c, k, order[p].index);
    }
    forall r, c | InGrid(r, c, h, w) && Uncovered(corners, r, c)
      ensures layout[r][c] == 0.0
    {
      // No box covers (r, c), so in particular no entry of the order does.
      assert forall q :: 0 <= q < |order| ==> !EntryCovers(corners, order[q], r, c);
    }
  }

  /** Every pixel of the layout is 0 or the depth of some object. */
  lemma CompositeValues(h: nat, w: nat, ds: seq<real>, crops: seq<CropBox>, corners: seq<CornerBox>)
    requires ScaledBoxes(crops, corners, h, w) && |ds| == |corners|
    ensures forall r, c :: InGrid(r, c, h, w) ==>
              var v := Composite(h, w, ds, crops, corners)[r][c];
              v == 0.0 || exists k :: 0 <= k < |ds| && v == ds[k]
  {
    var layout := Composite(h, w, ds, crops, corners);
    CompositeShowsTopCover(h, w, ds, crops, corners);
    forall r, c | InGrid(r, c, h, w)
      ensures layout[r][c] == 0.0 || exists k :: 0 <= k < |ds| && layout[r][c] == ds[k]
    {
      if !Uncovered(corners, r, c) {
        var k0 :| 0 <= k0 < |corners| && Covers(corners[k0], r, c);
        TopCoverExists(corners, ds, r, c, k0);
        var k :| IsTopCover(corners, ds, r, c, k);
        assert layout[r][c] == ds[k];
      }
    }
  }
}
