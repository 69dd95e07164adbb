/** The two pixel-space forms of one object box.
    `scale_boxes` turns every normalized box into a crop box (the argument order
    of torchvision `crop`: top, left, height, width) and a corner box
    (`x, y, xmax, ymax`). The compositor relies on both describing the same
    rectangle of the depth map. */
module Boxes {

  datatype CropBox = CropBox(top: int, left: int, height: int, width: int)

  datatype CornerBox = CornerBox(x: int, y: int, xmax: int, ymax: int)

  /** The crop box of the rectangle a corner box spans. */
  function CornerToCrop(b: CornerBox): (k: CropBox)
    ensures k.top == b.y && k.left == b.x
    ensures k.top + k.height == b.ymax && k.left + k.width == b.xmax
  {
    CropBox(b.y, b.x, b.ymax - b.y, b.xmax - b.x)
  }

  /** The corner box of the rectangle a crop box spans. */
  function CropToCorner(k: CropBox): (b: CornerBox)
    ensures b.xmax - b.x == k.width && b.ymax - b.y == k.height
    ensures b.x == k.left && b.y == k.top
  {
    CornerBox(k.left, k.top, k.left + k.width, k.top + k.height)
  }

  /** The two conversions are mutually inverse, so either form determines the other. */
  lemma FormsRoundTrip(b: CornerBox, k: CropBox)
    ensures CropToCorner(CornerToCrop(b)) == b
    ensures CornerToCrop(CropToCorner(k)) == k
    ensures k == CornerToCrop(b) <==> b == CropToCorner(k)
  {
  }

  /** Rows [y, ymax) and columns [x, xmax) lie inside an h x w map. */
  predicate InBounds(b: CornerBox, h: int, w: int) {
    0 <= b.y <= b.ymax <= h && 0 <= b.x <= b.xmax <= w
  }

  predicate NonEmpty(b: CornerBox) {
    b.y < b.ymax && b.x < b.xmax
  }

  predicate CropInBounds(k: CropBox, h: int, w: int) {
    0 <= k.top && 0 <= k.height && k.top + k.height <= h &&
    0 <= k.left && 0 <= k.width && k.left + k.width <= w
  }

  /** Pixel (r, c) lies in the slice `[y:ymax, x:xmax]`. */
  predicate Covers(b: CornerBox, r: int, c: int) {
    b.y <= r < b.ymax && b.x <= c < b.xmax
  }

  /** What the compositor needs of the two `scale_boxes` results for one image:
      one crop box per corner box, each describing the same in-bounds rectangle. */
  predicate ScaledBoxes(crops: seq<CropBox>, corners: seq<CornerBox>, h: int, w: int) {
    |crops| == |corners| &&
    forall i :: 0 <= i < |corners| ==> crops[i] == CornerToCrop(corners[i]) && InBounds(corners[i], h, w)
  }

  /** The pairing can be read from either side: each corner box is equally the
      corner form of its crop box. */
  lemma ScaledBoxesEitherForm(crops: seq<CropBox>, corners: seq<CornerBox>, h: int, w: int)
    ensures ScaledBoxes(crops, corners, h, w) <==>
              |crops| == |corners| &&
              forall i :: 0 <= i < |corners| ==> corners[i] == CropToCorner(crops[i]) && InBounds(corners[i], h, w)
  {
    forall i | 0 <= i < |corners| && i < |crops|
      ensures crops[i] == CornerToCrop(corners[i]) <==> corners[i] == CropToCorner(crops[i])
    {
      FormsRoundTrip(corners[i], crops[i]);
    }
  }

  /** An in-bounds corner box yields an in-bounds crop of the same area. */
  lemma CropOfInBounds(b: CornerBox, h: int, w: int)
    requires InBounds(b, h, w)
    ensures CropInBounds(CornerToCrop(b), h, w)
    ensures NonEmpty(b) <==> CornerToCrop(b).height > 0 && CornerToCrop(b).width > 0
  {
  }
}
