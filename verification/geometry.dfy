/**
 Integer rectangle geometry shared by the tilers and the augmentation pipeline:
 the fixed output tile size, OpenCV-style rectangles and the region-of-interest
 bounds rule, C++ truncating division, and the row-major cross product that
 every nested enumeration loop of the generator follows.
 */
module Geometry {

  /** Width and height of every written tile (`outputWidth`, `outputHeight`). */
  const OutputWidth: nat := 64
  const OutputHeight: nat := 64

  /** Stride of the sliding window (`stepsSize`). */
  const StepsSize: nat := 10

  /** An axis-aligned rectangle `(x, y, width, height)`, as `cv::Rect` holds it. */
  datatype Rect = Rect(x: int, y: int, width: int, height: int)

  /** The rule a region of interest must meet for `image(roi)` on a `width` x `height` image. */
  predicate Inside(r: Rect, width: int, height: int) {
    && 0 <= r.x && 0 <= r.width && r.x + r.width <= width
    && 0 <= r.y && 0 <= r.height && r.y + r.height <= height
  }

  /** True when the two rectangles share at least one pixel. */
  predicate Overlap(a: Rect, b: Rect) {
    && a.x < b.x + b.width && b.x < a.x + a.width
    && a.y < b.y + b.height && b.y < a.y + a.height
  }

  function Abs(a: int): nat {
    if a < 0 then -a else a
  }

  lemma MulNegLeft(b: int, q: int)
    ensures (-b) * q == -(b * q)
  {
  }

  lemma MulNegRight(b: int, q: int)
    ensures b * (-q) == -(b * q)
  {
  }

  /** The remainder left by the truncated quotient has the magnitude of the natural-number remainder and the sign of `a`. */
  lemma TruncRemainder(a: int, b: int, q: int)
    requires b != 0
    requires q == if (a < 0) == (b < 0) then Abs(a) / Abs(b) else -(Abs(a) / Abs(b))
    ensures a - b * q == if a < 0 then -(Abs(a) % Abs(b)) else Abs(a) % Abs(b)
  {
    var A: int, B: int := Abs(a), Abs(b);
    var m, r := A / B, A % B;
    assert A == B * m + r;
    if b > 0 {
      if a < 0 {
        MulNegRight(B, m);
      }
    } else {
      MulNegLeft(B, m);
      if a >= 0 {
        MulNegRight(-B, m);
      }
    }
  }

  /**
   C++ integer division, which truncates toward zero (Dafny's `/` is Euclidean).
   The quotient is the unique one whose remainder is smaller than the divisor in
   magnitude and never has the opposite sign of the dividend.
   */
  function TruncDiv(a: int, b: int): (q: int)
    requires b != 0
    ensures Abs(a - b * q) < Abs(b)
    ensures a - b * q == 0 || ((a - b * q < 0) <==> (a < 0))
    ensures a >= 0 && b > 0 ==> q == a / b
  {
    var q: int := if (a < 0) == (b < 0) then Abs(a) / Abs(b) else -(Abs(a) / Abs(b));
    TruncRemainder(a, b, q);
    q
  }

  /** C++ `%`: the remainder that goes with `TruncDiv`. */
  function TruncMod(a: int, b: int): (r: int)
    requires b != 0
    ensures a == b * TruncDiv(a, b) + r
    ensures Abs(r) < Abs(b)
    ensures r == 0 || ((r < 0) <==> (a < 0))
    ensures a >= 0 && b > 0 ==> r == a % b
  {
    a - b * TruncDiv(a, b)
  }

  /** C++ truncation differs from Dafny's Euclidean division on a negative dividend. */
  lemma TruncDivNegative()
    ensures TruncDiv(-7, 10) == 0 && -7 / 10 == -1
    ensures TruncDiv(-64, 10) == -6 && -64 / 10 == -7
  {
  }

  /** The loop counter values `0, 1, ..., n - 1`. */
  function Range(n: nat): (r: seq<int>)
    ensures |r| == n
    ensures forall i :: 0 <= i < n ==> r[i] == i
  {
    seq(n, i requires 0 <= i < n => i)
  }

  /**
   The pairs `(o, i)` in the order two nested loops visit them: `outer` in the
   outer loop, `inner` in the inner loop.
   */
  function Pairs<A, B>(outer: seq<A>, inner: seq<B>): (r: seq<(A, B)>)
    ensures |r| == |outer| * |inner|
    ensures forall k :: 0 <= k < |r| ==> r[k].0 in outer && r[k].1 in inner
  {
    if |outer| == 0 then []
    else
      var row := seq(|inner|, j requires 0 <= j < |inner| => (outer[0], inner[j]));
      var rest := Pairs(outer[1..], inner);
      assert |row| + |rest| == |outer| * |inner| by {
        assert |outer| * |inner| == |inner| + (|outer| - 1) * |inner|;
      }
      row + rest
  }

  /** The pair built from outer element `a` and inner element `b` sits at index `a * |inner| + b`. */
  lemma {:induction false} PairsIndex<A, B>(outer: seq<A>, inner: seq<B>, a: nat, b: nat)
    requires a < |outer| && b < |inner|
    ensures a * |inner| + b < |outer| * |inner|
    ensures Pairs(outer, inner)[a * |inner| + b] == (outer[a], inner[b])
  {
    var n := |inner|;
    MulStrict(a, |outer|, n);
    if a > 0 {
      PairsIndex(outer[1..], inner, a - 1, b);
      assert a * n == n + (a - 1) * n;
    }
  }

  lemma MulMono(a: int, b: int, s: nat)
    requires a <= b
    ensures a * s <= b * s
  {
  }

  lemma MulStrict(a: int, b: int, s: nat)
    requires a < b
    ensures a * s + s <= b * s
  {
    MulMono(a + 1, b, s);
    assert (a + 1) * s == a * s + s;
  }

  lemma MulCancel(q: int, m: int, n: nat)
    requires q * n < m * n
    ensures q < m
  {
    if m <= q {
      MulMono(m, q, n);
    }
  }

  lemma DivBelow(k: nat, n: nat, m: nat)
    requires n > 0 && k < m * n
    ensures k / n < m
  {
    MulCancel(k / n, m, n);
  }

  /** Reading the pairs back: index `k` holds `outer[k / |inner|]` and `inner[k % |inner|]`. */
  lemma PairsAt<A, B>(outer: seq<A>, inner: seq<B>, k: nat)
    requires k < |outer| * |inner|
    ensures |inner| > 0 && k / |inner| < |outer|
    ensures Pairs(outer, inner)[k] == (outer[k / |inner|], inner[k % |inner|])
  {
    var n := |inner|;
    var a, b := k / n, k % n;
    DivBelow(k, n, |outer|);
    assert a * n + b == k;
    PairsIndex(outer, inner, a, b);
  }

  /**
   The tiles of a `cols` x `rows` grid whose origins advance by `stepX` and
   `stepY`, row by row (y in the outer loop, x in the inner loop).
   */
  function Grid(cols: nat, rows: nat, stepX: nat, stepY: nat): (r: seq<Rect>)
    ensures |r| == cols * rows
    ensures forall k :: 0 <= k < |r| ==> r[k].width == OutputWidth && r[k].height == OutputHeight
  {
    var cells := Pairs<int, int>(Range(rows), Range(cols));
    seq(|cells|, k requires 0 <= k < |cells| =>
      Rect(cells[k].1 * stepX, cells[k].0 * stepY, OutputWidth, OutputHeight))
  }

  /** Cell `(cx, cy)` of the grid is tile number `cy * cols + cx`. */
  lemma GridCell(cols: nat, rows: nat, stepX: nat, stepY: nat, cx: nat, cy: nat)
    requires cx < cols && cy < rows
    ensures cy * cols + cx < |Grid(cols, rows, stepX, stepY)|
    ensures Grid(cols, rows, stepX, stepY)[cy * cols + cx] == Rect(cx * stepX, cy * stepY, OutputWidth, OutputHeight)
  {
    var k := cy * cols + cx;
    PairsIndex<int, int>(Range(rows), Range(cols), cy, cx);
    var cells := Pairs<int, int>(Range(rows), Range(cols));
    assert cells[k] == (cy, cx);
  }

  /** Tile number `k` of the grid has its origin at column `k % cols` and row `k / cols`. */
  lemma GridTile(cols: nat, rows: nat, stepX: nat, stepY: nat, k: nat)
    requires k < cols * rows
    ensures cols > 0 && k / cols < rows
    ensures Grid(cols, rows, stepX, stepY)[k] == Rect((k % cols) * stepX, (k / cols) * stepY, OutputWidth, OutputHeight)
  {
    PairsAt<int, int>(Range(rows), Range(cols), k);
    var cells := Pairs<int, int>(Range(rows), Range(cols));
    assert cells[k] == (k / cols, k % cols);
  }

  lemma MultipleMod(a: nat, s: nat)
    requires s > 0
    ensures (a * s) % s == 0
  {
    var m := a * s;
    assert m == s * (m / s) + m % s;
    if m % s != 0 {
      if m / s < a {
        MulStrict(m / s, a, s);
      } else {
        MulMono(a, m / s, s);
      }
    }
  }

  /** Every grid origin is a multiple of the step and at most the origin of the last column and row. */
  lemma GridBounds(cols: nat, rows: nat, stepX: nat, stepY: nat, k: nat)
    requires k < cols * rows
    ensures stepX > 0 ==> Grid(cols, rows, stepX, stepY)[k].x % stepX == 0
    ensures stepY > 0 ==> Grid(cols, rows, stepX, stepY)[k].y % stepY == 0
    ensures 0 <= Grid(cols, rows, stepX, stepY)[k].x <= (cols - 1) * stepX
    ensures 0 <= Grid(cols, rows, stepX, stepY)[k].y <= (rows - 1) * stepY
  {
    GridTile(cols, rows, stepX, stepY, k);
    var cx, cy := k % cols, k / cols;
    MulMono(cx, cols - 1, stepX);
    MulMono(cy, rows - 1, stepY);
    if stepX > 0 {
      MultipleMod(cx, stepX);
    }
    if stepY > 0 {
      MultipleMod(cy, stepY);
    }
  }

  lemma DivModOrder(i: nat, j: nat, n: nat)
    requires i < j && n > 0
    ensures i / n < j / n || (i / n == j / n && i % n < j % n)
  {
    assert i == (i / n) * n + i % n;
    assert j == (j / n) * n + j % n;
    if j / n < i / n {
      MulStrict(j / n, i / n, n);
    }
  }

  /** Tiles come out row by row: a later tile is on a later row, or further right on the same row. */
  lemma GridRowMajor(cols: nat, rows: nat, stepX: nat, stepY: nat, i: nat, j: nat)
    requires i < j < cols * rows && stepX > 0 && stepY > 0
    ensures var g := Grid(cols, rows, stepX, stepY);
      g[i].y < g[j].y || (g[i].y == g[j].y && g[i].x < g[j].x)
  {
    GridTile(cols, rows, stepX, stepY, i);
    GridTile(cols, rows, stepX, stepY, j);
    DivModOrder(i, j, cols);
    if i / cols == j / cols {
      MulStrict(i % cols, j % cols, stepX);
    } else {
      MulStrict(i / cols, j / cols, stepY);
    }
  }

  /** With steps at least the tile size, two different tiles of a grid share no pixel. */
  lemma GridDisjoint(cols: nat, rows: nat, stepX: nat, stepY: nat, i: nat, j: nat)
    requires i < cols * rows && j < cols * rows && i != j
    requires stepX >= OutputWidth && stepY >= OutputHeight
    ensures var g := Grid(cols, rows, stepX, stepY); !Overlap(g[i], g[j])
  {
    if j < i {
      GridDisjoint(cols, rows, stepX, stepY, j, i);
    } else {
      GridTile(cols, rows, stepX, stepY, i);
      GridTile(cols, rows, stepX, stepY, j);
      DivModOrder(i, j, cols);
      if i / cols == j / cols {
        MulStrict(i % cols, j % cols, stepX);
      } else {
        MulStrict(i / cols, j / cols, stepY);
      }
    }
  }
}
