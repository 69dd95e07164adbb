# Depth-ordered layout compositor

A Dafny model of how the LostGANs depth pipeline builds a *depth layout* for one
image (the `__main__` block of `compute_depth.py`). The cached depth map of the
image is mirrored left-right when the image was flipped. Each object's box comes in
two pixel forms: a crop box in torchvision `crop` order (top, left, height, width)
and a corner box (x, y, xmax, ymax). The depth map is cropped to every box and the
crop is reduced to its mean, giving one scalar per object. The scalars are
normalized into [0, 1]. The `(index, depth)` pairs are stably sorted ascending by
depth. Finally each object's rectangle is painted with its depth onto a zero canvas
in that order, so later objects overwrite earlier ones (a painter's algorithm).

Modules, one per step:

- `Grids` (`grids.dfy`): maps as `seq<seq<real>>`, the zero canvas, `torch.fliplr`, and the flip step.
- `Boxes` (`boxes.dfy`): the two box forms, the conversions between them, and the bounds and coverage predicates.
- `Aggregate` (`aggregate.dfy`): crop, sum and mean, with the bounds of the mean.
- `DepthOrder` (`depth_order.dfy`): the enumerated pairs and the stable insertion sort.
- `Compositor` (`compositor.dfy`): the patch, the slice assignment, the painting loop, and the per-pixel "top cover" theorem.
- `DepthLayout` (`depth_layout.dfy`): the whole per-image pipeline.

The central result is `Compositor.CompositeShowsTopCover`, lifted to the pipeline by
`DepthLayout.Layout`. A pixel that no box covers stays 0. A covered pixel holds the
depth of its *top cover*: the covering object with the greatest normalized depth,
and among equal greatest depths the one with the largest original index. In the
sorted order that is the last covering entry.

`scale_boxes` and `normalize_tensor` are not part of this model. Their results enter
as inputs, with only the properties the code relies on:

- The two box lists have one entry per object. Entry i of each describes the same
  rectangle, and that rectangle lies inside the map (`Boxes.ScaledBoxes`). This
  is what lets the patch of shape `crops[i].shape` be assigned to `[y:ymax, x:xmax]`.
- The normalizer is a function parameter that returns one value per input, each in
  [0, 1] (`DepthLayout.UnitNormalizer`).

`compute_depth.py` does not clamp boxes, skip zero-area boxes, filter background
objects, special-case equal depths, or make the sort direction configurable; it
always sorts ascending. So in an overlap the object with the greatest normalized
depth wins, and among equal normalized depths the one with the larger index.

## Model

| member | source | states |
|---|---|---|
| Grids.Zeros | compute_depth.py:126 | An h x w grid holding 0 at every pixel |
| Grids.FlipLR | compute_depth.py:99 | Same number of rows; value c of row r is value W-1-c of row r of the map, so each row is read right to left |
| Grids.Orient | compute_depth.py:97-99 | With the flip flag set, value (r, c) of the result is value (r, W-1-c) of the cached map; without it the map is unchanged; the shape is kept either way |
| Grids.FlipInvolution | compute_depth.py:97-99 | Mirroring left-right twice returns the original map exactly |
| Grids.OrientInvolution | compute_depth.py:97-99 | Orienting twice with the same flag returns the cached map |
| Boxes.FormsRoundTrip | compute_depth.py:101-107 | The crop form and the corner form determine each other: converting one to the other and back gives the original box |
| Boxes.ScaledBoxesEitherForm | compute_depth.py:101-107 | Pairing each crop box with its corner box is the same condition whichever form is converted into the other |
| Boxes.CropOfInBounds | compute_depth.py:110-111 | The crop box of an in-bounds corner box lies inside the map, and it has positive height and width exactly when the corner box is non-empty |
| Aggregate.Crop | compute_depth.py:110-111 | The crop has the box's height and width, and crop value (i, j) is map value (top+i, left+j) |
| Aggregate.Mean | compute_depth.py:114 | The mean of a non-empty h x w crop times its pixel count h·w equals the sum of its values |
| Aggregate.ObjectMeans | compute_depth.py:113-114 | Exactly one scalar per box; scalar i times the number of pixels in crop i equals the sum of crop i's values |
| Aggregate.MeanWithin | compute_depth.py:114 | The mean of a crop lies between any lower and upper bound that all its values keep |
| Aggregate.ObjectMeansWithin | compute_depth.py:110-114 | Every object's scalar lies within any range that holds all of the depth map's values |
| Aggregate.UniformCropMean | compute_depth.py:114 | An object whose crop holds one value v everywhere gets scalar v |
| Aggregate.CropMeanIsLocal | compute_depth.py:110-114 | An object's scalar depends only on the map values inside its own rectangle: two maps that agree there give the same scalar |
| DepthOrder.Enumerate | compute_depth.py:121 | One pair per depth, pair k being (k, depths[k]) |
| DepthOrder.SortByDepth | compute_depth.py:123 | The sorted list is a permutation of the input pairs (equal multisets) |
| DepthOrder.SortSorted | compute_depth.py:123 | The sorted list is non-decreasing in depth |
| DepthOrder.SortStable | compute_depth.py:121-123 | If the original indices ascend along the input, then equal depths come out in ascending index order |
| DepthOrder.SortEnumerated | compute_depth.py:121-123 | Sorting the enumerated depths yields each pair (k, depths[k]) exactly once, in (depth, index) order |
| DepthOrder.StablySortedUnique | compute_depth.py:121-123 | Two (depth, index)-ordered arrangements of the same pairs are equal, so the paint order depends only on the depths |
| Compositor.Fill | compute_depth.py:130 | An h x w patch holding the object's depth d at every position |
| Compositor.Assign | compute_depth.py:133 | The slice assignment keeps the canvas shape. Pixels in rows [y, ymax) x columns [x, xmax) take the patch value at the matching offset; every other pixel is unchanged |
| Compositor.PaintObject | compute_depth.py:128-133 | Painting one object writes its depth into exactly its rectangle and leaves every pixel outside it unchanged |
| Compositor.PaintAll | compute_depth.py:126-133 | The painting loop never changes the canvas shape |
| Compositor.PaintAllLastWins | compute_depth.py:126-133 | After painting in a given order, a pixel holds the depth of the last entry whose box covers it; a pixel no entry covers keeps its initial value |
| Compositor.LastCoverIsTop | compute_depth.py:121-133 | In the stably sorted order of all objects, the last entry covering a pixel is its top cover (greatest depth, ties to the largest index) and carries that object's depth |
| Compositor.TopCoverUnique | compute_depth.py:121-133 | A pixel has at most one top cover |
| Compositor.TopCoverExists | compute_depth.py:121-133 | Every pixel covered by some box has a top cover |
| Compositor.Composite | compute_depth.py:121-133 | The composited layout has the depth map's shape |
| Compositor.CompositeShowsTopCover | compute_depth.py:121-133 | In the composited layout a pixel covered by no box is 0, and a covered pixel holds the depth of its top cover |
| Compositor.CompositeValues | compute_depth.py:126-133 | Every pixel of the composited layout is 0 or the depth of some object |
| DepthLayout.ObjectDepths | compute_depth.py:110-117 | One normalized depth per box, each in [0, 1] |
| DepthLayout.Layout | compute_depth.py:97-133 | The layout has the map's shape. A pixel no box covers is 0, and a covered pixel holds its top cover's normalized depth. So every pixel is 0 or an object's depth, and all lie in [0, 1] |

## Left out

- `depth_estimation` (compute_depth.py:18-76): it runs the MiDaS model from `torch.hub`, reads images with cv2, interpolates bicubically and saves `.npy` files. These are foreign calls, I/O and floating-point numerics.
- Loading the dataset and the cached `.npy` depth map (compute_depth.py:84-95): this is I/O. The map enters as an input, and the loop over images runs the modelled pipeline once per image.
- Visualization (compute_depth.py:135-149): matplotlib and `draw_bounding_boxes`.
- `scale_boxes`: its rounding is not part of this model. Its two results are inputs, required to describe the same in-bounds rectangle per object.
- torchvision `crop`'s zero-padding of boxes outside the map: boxes are required to lie inside the map.
- Zero-area boxes: the mean of an empty crop is NaN in torch, and reals have no NaN, so the pipeline requires every box to have positive height and width. The compositor alone (`Compositor.Composite`) accepts empty boxes, which paint nothing.
- DepthLayout.ObjectDepths: states only that the normalized depths are in [0, 1] and one per box. The min-max formula of `normalize_tensor` is not part of this model, so the depths are not related to the means by it.
- DepthLayout.UnitNormalizer: the normalizer is assumed to return values in [0, 1] for every input, including the all-equal case (a single object, or objects whose means coincide), where a plain min-max formula divides by zero. Whatever `normalize_tensor` does there, the model takes it to land in [0, 1]; the [0, 1] bound of `DepthLayout.Layout` rests on that assumption.
- Floating-point arithmetic: the mean is an exact real sum over the pixel count, with no rounding or summation order.
- The 32-bit integer type of the scaled boxes: the boxes are unbounded integers, and in-bounds boxes never come near the 32-bit limits.
- train_depth.py, test.py, metrics.py and data/datasets.py: the training loop, inference, FID and dataset dispatch. The flip at train_depth.py:214-216 is not the same operation as `Grids.Orient`: there the map has been made a (1, H, W) tensor at line 211 (the squeeze at line 212 is commented out), so `torch.fliplr` reverses dimension 1, the rows, mirroring the map up-down; that flip is not part of this model.
