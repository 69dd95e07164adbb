/** The depth layout of one image, end to end: orient the cached depth map, take the
    mean depth inside every object box, normalize those scalars into [0, 1], and
    composite them by the painter's algorithm. */
module DepthLayout {
  import opened Grids
  import opened Boxes
  import opened Aggregate
  import opened DepthOrder
  import opened Compositor

  /** What the layout relies on `normalize_tensor(depths, (0, 1))` to do: one output
      per input, each in [0, 1]. Its formula is not part of this model. */
  ghost predicate UnitNormalizer(norm: seq<real> -> seq<real>) {
    forall s :: |norm(s)| == |s| && forall i :: 0 <= i < |s| ==> 0.0 <= norm(s)[i] <= 1.0
  }

  /** The inputs of one image: an h x w depth map and, per object, the two
      `scale_boxes` results describing one non-empty rectangle inside the map. */
  predicate ValidImage(m: Grid, h: nat, w: nat, crops: seq<CropBox>, corners: seq<CornerBox>) {
    IsGrid(m, h, w) && ScaledBoxes(crops, corners, h, w) &&
    forall i :: 0 <= i < |corners| ==> NonEmpty(corners[i])
  }

  lemma ValidImageCrops(m: Grid, h: nat, w: nat, crops: seq<CropBox>, corners: seq<CornerBox>)
    requires ValidImage(m, h, w, crops, corners)
    ensures CropsInBounds(crops, h, w)
  {
    forall i | 0 <= i < |crops|
      ensures CropInBounds(crops[i], h, w) && crops[i].height > 0 && crops[i].width > 0
    {
      CropOfInBounds(corners[i], h, w);
    }
  }

  /** The normalized depth of every object, in box order: the mean of the oriented
      map over the object's crop, passed through the normalizer. */
  function ObjectDepths(m: Grid, h: nat, w: nat, flip: bool, crops: seq<CropBox>, corners: seq<CornerBox>,
                        norm: seq<real> -> seq<real>): (ds: seq<real>)
    requires ValidImage(m, h, w, crops, corners) && UnitNormalizer(norm)
    ensures |ds| == |crops|
    ensures forall i :: 0 <= i < |ds| ==> 0.0 <= ds[i] <= 1.0
  {
    OrientKeepsShape(m, flip, h, w);
    ValidImageCrops(m, h, w, crops, corners);
    var means := ObjectMeans(Orient(m, flip), h, w, crops);
    norm(means)
  }

  /** The depth layout of one image. It has the depth map's shape; a pixel no box
      covers is 0; a covered pixel holds the depth of its top cover (the covering
      object of greatest depth, ties going to the larger index); so every pixel is 0
      or some object's depth, and all lie in [0, 1]. */
  function Layout(m: Grid, h: nat, w: nat, flip: bool, crops: seq<CropBox>, corners: seq<CornerBox>,
                  norm: seq<real> -> seq<real>): (layout: Grid)
    requires ValidImage(m, h, w, crops, corners) && UnitNormalizer(norm)
    ensures IsGrid(layout, h, w)
    ensures var ds := ObjectDepths(m, h, w, flip, crops, corners, norm);
            forall r, c, k :: InGrid(r, c, h, w) && IsTopCover(corners, ds, r, c, k) ==> layout[r][c] == ds[k]
    ensures forall r, c :: InGrid(r, c, h, w) && Uncovered(corners, r, c) ==> layout[r][c] == 0.0
    ensures var ds := ObjectDepths(m, h, w, flip, crops, corners, norm);
            forall r, c :: InGrid(r, c, h, w) ==>
              layout[r][c] == 0.0 || exists k :: 0 <= k < |ds| && layout[r][c] == ds[k]
    ensures forall r, c :: InGrid(r, c, h, w) ==> 0.0 <= layout[r][c] <= 1.0
  {
    var ds := ObjectDepths(m, h, w, flip, crops, corners, norm);
    CompositeShowsTopCover(h, w, ds, crops, corners);
    CompositeValues(h, w, ds, crops, corners);
    Composite(h, w, ds, crops, corners)
  }
}
