/**
 The region tiler (`readAndRegionSplit`): cuts a decoded image into a grid of
 non-overlapping 64 x 64 tiles, leaving out the last full column and row.
 */
module RegionTiler {
  import opened Geometry

  /** Number of grid columns, `(width / outputWidth) - 1`; -1 for an image narrower than a tile. */
  function Columns(width: nat): (w: int)
    ensures w >= -1
    ensures w >= 1 <==> width >= 2 * OutputWidth
    ensures (w + 1) * OutputWidth <= width < (w + 2) * OutputWidth
  {
    TruncDiv(width, OutputWidth) - 1
  }

  /** Number of grid rows, `(height / outputHeight) - 1`. */
  function Rows(height: nat): (h: int)
    ensures h >= -1
    ensures h >= 1 <==> height >= 2 * OutputHeight
    ensures (h + 1) * OutputHeight <= height < (h + 2) * OutputHeight
  {
    TruncDiv(height, OutputHeight) - 1
  }

  /**
   The regions of interest exactly as the loop `for (i = 0; i < w * h; i++)`
   computes them, with C++ `%` and `/`. When the image is smaller than one
   tile in both directions, `w == h == -1` and the loop runs once.
   */
  function RegionTilesAsWritten(width: nat, height: nat): (r: seq<Rect>)
    ensures |r| == if width < OutputWidth && height < OutputHeight then 1 else |RegionTiles(width, height)|
  {
    var w, h := Columns(width), Rows(height);
    AsWrittenCount(w, h);
    var n := if w * h > 0 then w * h else 0;
    seq(n, i requires 0 <= i < n =>
      Rect(TruncMod(i, w) * OutputWidth, TruncDiv(i, w) * OutputHeight, OutputWidth, OutputHeight))
  }

  /**
   The region tiles: a `Columns x Rows` grid stepping by the tile size, and no
   tile at all when either count is not positive.
   */
  function RegionTiles(width: nat, height: nat): (r: seq<Rect>)
    ensures Columns(width) >= 1 && Rows(height) >= 1 ==> |r| == Columns(width) * Rows(height)
    ensures Columns(width) <= 0 || Rows(height) <= 0 ==> r == []
  {
    var w, h := Columns(width), Rows(height);
    if w >= 1 && h >= 1 then Grid(w, h, OutputWidth, OutputHeight) else []
  }

  /**
   Tile `k` is the 64 x 64 square at column `k % w`, row `k / w`; it lies
   inside the image and stops short of the last full column and row.
   */
  lemma RegionTileShape(width: nat, height: nat, k: nat)
    ensures k < |RegionTiles(width, height)| ==> Columns(width) >= 1 && Rows(height) >= 1
    ensures k < |RegionTiles(width, height)| ==>
      var t := RegionTiles(width, height)[k];
      && t == Rect((k % Columns(width)) * OutputWidth, (k / Columns(width)) * OutputHeight, OutputWidth, OutputHeight)
      && Inside(t, width, height)
      && t.x + OutputWidth <= Columns(width) * OutputWidth
      && t.y + OutputHeight <= Rows(height) * OutputHeight
  {
    if k < |RegionTiles(width, height)| {
      var w, h := Columns(width), Rows(height);
      GridTile(w, h, OutputWidth, OutputHeight, k);
      GridBounds(w, h, OutputWidth, OutputHeight, k);
      assert (w - 1) * OutputWidth + OutputWidth == w * OutputWidth;
      assert (h - 1) * OutputHeight + OutputHeight == h * OutputHeight;
    }
  }

  /** Two different region tiles of one image share no pixel. */
  lemma RegionTilesDisjoint(width: nat, height: nat, i: nat, j: nat)
    requires i < |RegionTiles(width, height)| && j < |RegionTiles(width, height)| && i != j
    ensures !Overlap(RegionTiles(width, height)[i], RegionTiles(width, height)[j])
  {
    GridDisjoint(Columns(width), Rows(height), OutputWidth, OutputHeight, i, j);
  }

  /** Region tiles are emitted row by row, left to right. */
  lemma RegionTilesRowMajor(width: nat, height: nat, i: nat, j: nat)
    requires i < j < |RegionTiles(width, height)|
    ensures var g := RegionTiles(width, height);
      g[i].y < g[j].y || (g[i].y == g[j].y && g[i].x < g[j].x)
  {
    GridRowMajor(Columns(width), Rows(height), OutputWidth, OutputHeight, i, j);
  }

  /** The grid is complete: every column-row cell is emitted, at index `cy * w + cx`. */
  lemma RegionTilesComplete(width: nat, height: nat, cx: nat, cy: nat)
    requires cx < Columns(width) && cy < Rows(height)
    ensures cy * Columns(width) + cx < |RegionTiles(width, height)|
    ensures RegionTiles(width, height)[cy * Columns(width) + cx]
         == Rect(cx * OutputWidth, cy * OutputHeight, OutputWidth, OutputHeight)
  {
    GridCell(Columns(width), Rows(height), OutputWidth, OutputHeight, cx, cy);
  }

  lemma ProductPositive(w: int, h: int)
    requires w >= 0
    ensures w * h > 0 <==> (w >= 1 && h >= 1)
  {
    if w >= 1 && h <= 0 {
      MulMono(h, 0, w);
    }
  }

  /**
   The loop bound `w * h` of the code as written, for `w, h >= -1`: positive
   exactly when both counts are, and 1 when both are -1.
   */
  lemma AsWrittenCount(w: int, h: int)
    requires w >= -1 && h >= -1
    ensures (w * h > 0 && !(w == -1 && h == -1)) <==> (w >= 1 && h >= 1)
    ensures w == -1 && h == -1 ==> w * h == 1
  {
    if w >= 0 {
      ProductPositive(w, h);
    } else if h >= 0 {
      ProductPositive(h, w);
      assert w * h == h * w;
    }
  }

  /** As soon as one side holds a full tile, the loop as written and the grid agree. */
  lemma RegionAsWrittenAgrees(width: nat, height: nat)
    requires width >= OutputWidth || height >= OutputHeight
    ensures RegionTilesAsWritten(width, height) == RegionTiles(width, height)
  {
    var w, h := Columns(width), Rows(height);
    var a, g := RegionTilesAsWritten(width, height), RegionTiles(width, height);
    if width >= OutputWidth {
      ProductPositive(w, h);
    } else {
      ProductPositive(h, w);
      assert w * h == h * w;
    }
    if w >= 1 && h >= 1 {
      forall k | 0 <= k < |a|
        ensures a[k] == g[k]
      {
        GridTile(w, h, OutputWidth, OutputHeight, k);
      }
    }
  }

  /**
   The loop as written, on an image smaller than a tile both ways: it crops one
   64 x 64 region at the origin, which does not fit in the image.
   */
  lemma RegionAsWrittenEscapes(width: nat, height: nat)
    requires width < OutputWidth && height < OutputHeight
    ensures RegionTilesAsWritten(width, height) == [Rect(0, 0, OutputWidth, OutputHeight)]
    ensures !Inside(RegionTilesAsWritten(width, height)[0], width, height)
    ensures RegionTiles(width, height) == []
  {
    assert Columns(width) == -1 && Rows(height) == -1;
  }

  /** A 200 x 140 image gives two tiles, at `(0, 0)` and `(64, 0)`. */
  lemma RegionExample()
    ensures RegionTiles(200, 140) == [Rect(0, 0, 64, 64), Rect(64, 0, 64, 64)]
  {
    var g := RegionTiles(200, 140);
    assert Columns(200) == 2 && Rows(140) == 1;
    RegionTilesComplete(200, 140, 0, 0);
    RegionTilesComplete(200, 140, 1, 0);
  }
}
