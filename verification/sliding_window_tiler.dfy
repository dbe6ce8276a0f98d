/**
 The sliding-window tiler (`readAndPixelSplit`): overlapping 64 x 64 windows
 whose origins step by `stepsSize` pixels, y in the outer loop, x in the inner.
 */
module SlidingWindowTiler {
  import opened Geometry

  /** `(width - outputWidth) / stepsSize` with C++ truncation; never positive for an image narrower than a tile. */
  function XSteps(width: nat): (n: int)
    ensures width >= OutputWidth ==> n >= 0 && n * StepsSize <= width - OutputWidth < (n + 1) * StepsSize
    ensures width < OutputWidth ==> -6 <= n <= 0
  {
    TruncDiv(width - OutputWidth, StepsSize)
  }

  /** `(height - outputHeight) / stepsSize` with C++ truncation. */
  function YSteps(height: nat): (n: int)
    ensures height >= OutputHeight ==> n >= 0 && n * StepsSize <= height - OutputHeight < (n + 1) * StepsSize
    ensures height < OutputHeight ==> -6 <= n <= 0
  {
    TruncDiv(height - OutputHeight, StepsSize)
  }

  /** A loop `for (i = 0; i < n; i++)` runs `n` times when `n` is positive and not at all otherwise. */
  function Iterations(n: int): nat {
    if n > 0 then n else 0
  }

  /** The windows of one image in emission order. */
  function SlidingWindows(width: nat, height: nat): (r: seq<Rect>)
    ensures |r| == Iterations(XSteps(width)) * Iterations(YSteps(height))
  {
    Grid(Iterations(XSteps(width)), Iterations(YSteps(height)), StepsSize, StepsSize)
  }

  /**
   The two nested loops of the source, appending one window per inner
   iteration; they produce exactly `SlidingWindows`.
   */
  method PixelSplit(width: nat, height: nat) returns (windows: seq<Rect>)
    ensures windows == SlidingWindows(width, height)
    ensures |windows| == Iterations(XSteps(width)) * Iterations(YSteps(height))
  {
    var xSteps, ySteps := XSteps(width), YSteps(height);
    ghost var cols, rows := Iterations(xSteps), Iterations(ySteps);
    ghost var all := SlidingWindows(width, height);
    windows := [];
    var y := 0;
    while y < ySteps
      invariant 0 <= y <= rows
      invariant y * cols <= |all|
      invariant windows == all[..y * cols]
    {
      var x := 0;
      while x < xSteps
        invariant 0 <= x <= cols
        invariant y * cols + x <= |all|
        invariant windows == all[..y * cols + x]
      {
        GridCell(cols, rows, StepsSize, StepsSize, x, y);
        windows := windows + [Rect(x * StepsSize, y * StepsSize, OutputWidth, OutputHeight)];
        x := x + 1;
      }
      assert (y + 1) * cols == y * cols + cols;
      MulMono(y + 1, rows, cols);
      y := y + 1;
    }
    assert windows == all;
  }

  /** Every window is 64 x 64, its origin is on the stride lattice, and it lies inside the image. */
  lemma SlidingWindowShape(width: nat, height: nat, k: nat)
    requires k < |SlidingWindows(width, height)|
    ensures var t := SlidingWindows(width, height)[k];
      && t.width == OutputWidth && t.height == OutputHeight
      && t.x % StepsSize == 0 && t.y % StepsSize == 0
      && Inside(t, width, height)
  {
    var cols, rows := Iterations(XSteps(width)), Iterations(YSteps(height));
    GridBounds(cols, rows, StepsSize, StepsSize, k);
    assert (cols - 1) * StepsSize + StepsSize == cols * StepsSize;
    assert (rows - 1) * StepsSize + StepsSize == rows * StepsSize;
  }

  /** Windows come out with y in the outer loop and x in the inner loop. */
  lemma SlidingWindowsRowMajor(width: nat, height: nat, i: nat, j: nat)
    requires i < j < |SlidingWindows(width, height)|
    ensures var g := SlidingWindows(width, height);
      g[i].y < g[j].y || (g[i].y == g[j].y && g[i].x < g[j].x)
  {
    GridRowMajor(Iterations(XSteps(width)), Iterations(YSteps(height)), StepsSize, StepsSize, i, j);
  }

  /** An image narrower or lower than a tile gives no window. */
  lemma SlidingWindowsSmallImage(width: nat, height: nat)
    requires width < OutputWidth || height < OutputHeight
    ensures SlidingWindows(width, height) == []
  {
  }

  /**
   The window at the last offset that still fits horizontally is never
   emitted: the loop stops one stride short, so the rightmost strip of the
   image is not covered (a 64-pixel-wide image gives no window at all).
   */
  lemma SlidingWindowsSkipLastOffset(width: nat, height: nat, k: nat)
    requires width >= OutputWidth
    requires k < |SlidingWindows(width, height)|
    ensures XSteps(width) * StepsSize + OutputWidth <= width
    ensures SlidingWindows(width, height)[k].x < XSteps(width) * StepsSize
  {
    var cols, rows := Iterations(XSteps(width)), Iterations(YSteps(height));
    GridBounds(cols, rows, StepsSize, StepsSize, k);
  }

  /** A 150 x 90 image gives 8 steps across and 2 down: 16 windows. */
  lemma SlidingWindowExample()
    ensures XSteps(150) == 8 && YSteps(90) == 2
    ensures |SlidingWindows(150, 90)| == 16
  {
  }
}
