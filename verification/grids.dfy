/** Dense single-channel maps: the cached depth map and the depth-layout canvas.
    A map is a sequence of rows; `IsGrid(g, h, w)` says it has h rows of w values each. */
module Grids {

  type Grid = seq<seq<real>>

  predicate IsGrid(g: Grid, h: int, w: int) {
    |g| == h && forall r :: 0 <= r < |g| ==> |g[r]| == w
  }

  predicate InGrid(r: int, c: int, h: int, w: int) {
    0 <= r < h && 0 <= c < w
  }

  /** The `torch.zeros(shape)` canvas. */
  function Zeros(h: nat, w: nat): (z: Grid)
    ensures IsGrid(z, h, w)
    ensures forall r, c :: InGrid(r, c, h, w) ==> z[r][c] == 0.0
  {
    seq(h, _ => seq(w, _ => 0.0))
  }

  /** One row read right to left. */
  function Reverse(row: seq<real>): (m: seq<real>)
    ensures |m| == |row|
    ensures forall c :: 0 <= c < |row| ==> m[c] == row[|row| - 1 - c]
  {
    seq(|row|, c requires 0 <= c < |row| => row[|row| - 1 - c])
  }

  /** `torch.fliplr`: every row mirrored, the rows themselves kept in place. */
  function FlipLR(g: Grid): (f: Grid)
    ensures |f| == |g|
    ensures forall r :: 0 <= r < |g| ==> f[r] == Reverse(g[r])
  {
    seq(|g|, r requires 0 <= r < |g| => Reverse(g[r]))
  }

  /** The depth map brought into the orientation of the (possibly flipped) image:
      mirrored left-right exactly when `flip` is set, the shape kept either way. */
  function Orient(g: Grid, flip: bool): (o: Grid)
    ensures |o| == |g|
    ensures forall r :: 0 <= r < |g| ==> |o[r]| == |g[r]|
    ensures forall r, c :: 0 <= r < |g| && 0 <= c < |g[r]| ==>
              o[r][c] == (if flip then g[r][|g[r]| - 1 - c] else g[r][c])
  {
    if flip then FlipLR(g) else g
  }

  lemma OrientKeepsShape(g: Grid, flip: bool, h: int, w: int)
    requires IsGrid(g, h, w)
    ensures IsGrid(Orient(g, flip), h, w)
  {
  }

  lemma ReverseInvolution(row: seq<real>)
    ensures Reverse(Reverse(row)) == row
  {
    var m := Reverse(Reverse(row));
    assert |m| == |row|;
    forall c | 0 <= c < |row|
      ensures m[c] == row[c]
    {
      assert m[c] == Reverse(row)[|row| - 1 - c];
    }
  }

  /** Mirroring twice gives back the map it started from, value for value. */
  lemma FlipInvolution(g: Grid)
    ensures FlipLR(FlipLR(g)) == g
  {
    var f := FlipLR(FlipLR(g));
    forall r | 0 <= r < |g|
      ensures f[r] == g[r]
    {
      ReverseInvolution(g[r]);
    }
  }

  /** Orienting an already oriented map with the same flag undoes the first step. */
  lemma OrientInvolution(g: Grid, flip: bool)
    ensures Orient(Orient(g, flip), flip) == g
  {
    if flip {
      FlipInvolution(g);
    }
  }
}
