/**
 The robot augmentation pipeline (`readAndPostProcess`): a centred square crop,
 then for every scale a centred zoom window, for every angle a rotation and for
 every kernel size a Gaussian blur, each combination giving one output image.
 */
module RobotAugmentation {
  import opened Geometry
  import opened Labeler

  /** `scales`, held as exact tenths: 1.0, 0.9, 0.8. */
  const ScaleTenths: seq<int> := [10, 9, 8]

  /** `rotDegrees`. */
  const RotDegrees: seq<int> := [0]

  /** `guasianFilterSizes`. */
  const GaussianFilterSizes: seq<int> := [1, 3, 5, 7, 9, 11]

  /** Number of outputs per decodable robot image: `|scales| * |rotDegrees| * |guasianFilterSizes|`. */
  const VariantsPerImage: nat := |ScaleTenths| * (|RotDegrees| * |GaussianFilterSizes|)

  /**
   The square cut from a `width` x `height` image: side `min(width, height)`,
   offset only along the longer side, by half the difference rounded down.
   */
  function SquareCrop(width: nat, height: nat): (r: Rect)
    ensures r.width == r.height
    ensures r.width == width || r.width == height
    ensures r.width <= width && r.width <= height
    ensures Inside(r, width, height)
    ensures width <= height ==> r.x == 0
    ensures height <= width ==> r.y == 0
    ensures 0 <= (width - r.x - r.width) - r.x <= 1
    ensures 0 <= (height - r.y - r.height) - r.y <= 1
  {
    var x := if width < height then 0 else (width - height) / 2;
    var y := if width > height then 0 else (height - width) / 2;
    var dim := if width < height then width else height;
    Rect(x, y, dim, dim)
  }

  /**
   The zoom window inside the `dim` x `dim` square for a scale of `tenths`/10:
   offset `((1 - scale) * dim) / 2` and side `scale * dim`, both truncated.
   */
  function ZoomCrop(dim: nat, tenths: int): (r: Rect)
    requires 0 <= tenths <= 10
    ensures r.x == r.y && r.width == r.height
    ensures Inside(r, dim, dim)
    ensures tenths == 10 ==> r == Rect(0, 0, dim, dim)
    ensures 0 <= (dim - r.x - r.width) - r.x <= 2
    ensures r.width * 10 <= tenths * dim < r.width * 10 + 10
  {
    var start := ((10 - tenths) * dim) / 20;
    var side := (tenths * dim) / 10;
    assert (10 - tenths) * dim + tenths * dim == 10 * dim;
    Rect(start, start, side, side)
  }

  /** Every parameter combination, scale outermost, rotation in the middle, blur innermost. */
  function Combinations(): (r: seq<(int, (int, int))>)
    ensures |r| == VariantsPerImage == 18
  {
    Pairs(ScaleTenths, Pairs(RotDegrees, GaussianFilterSizes))
  }

  /** The outputs of one decoded `width` x `height` robot image, in emission order. */
  function Variants(width: nat, height: nat): (r: seq<Payload>)
    ensures |r| == VariantsPerImage
  {
    var square := SquareCrop(width, height);
    var combos := Combinations();
    seq(|combos|, k requires 0 <= k < |combos| =>
      var (tenths, (angle, blur)) := combos[k];
      Variant(square, ZoomCrop(square.width, tenths), Augmentation(tenths, angle, blur)))
  }

  /**
   Combination `(s, a, b)` is output number `s * 6 + a * 6 + b` of the image
   (6 being `|rotDegrees| * |guasianFilterSizes|`): scale outermost, rotation
   in the middle, blur innermost.
   */
  lemma VariantOrder(width: nat, height: nat, s: nat, a: nat, b: nat)
    requires s < |ScaleTenths| && a < |RotDegrees| && b < |GaussianFilterSizes|
    ensures var k := s * (|RotDegrees| * |GaussianFilterSizes|) + (a * |GaussianFilterSizes| + b);
      && k < |Variants(width, height)|
      && Variants(width, height)[k] == Variant(
           SquareCrop(width, height),
           ZoomCrop(SquareCrop(width, height).width, ScaleTenths[s]),
           Augmentation(ScaleTenths[s], RotDegrees[a], GaussianFilterSizes[b]))
  {
    var inner := Pairs(RotDegrees, GaussianFilterSizes);
    PairsIndex(RotDegrees, GaussianFilterSizes, a, b);
    PairsIndex(ScaleTenths, inner, s, a * |GaussianFilterSizes| + b);
  }

  /** Reading the order back: combination `k` is scale `k / 6`, the single angle, and blur `k % 6`. */
  lemma CombinationAt(k: nat)
    requires k < VariantsPerImage
    ensures k / 6 < |ScaleTenths| && k % 6 < |GaussianFilterSizes|
    ensures Combinations()[k] == (ScaleTenths[k / 6], (RotDegrees[0], GaussianFilterSizes[k % 6]))
  {
    var inner := Pairs(RotDegrees, GaussianFilterSizes);
    assert |inner| == 6;
    PairsAt(ScaleTenths, inner, k);
    PairsAt(RotDegrees, GaussianFilterSizes, k % 6);
    assert (k % 6) / 6 == 0 && (k % 6) % 6 == k % 6;
  }

  /** Output `k` of an image uses scale `k / 6`, angle 0 and blur `k % 6`. */
  lemma VariantAt(width: nat, height: nat, k: nat)
    requires k < VariantsPerImage
    ensures k / 6 < |ScaleTenths| && k % 6 < |GaussianFilterSizes|
    ensures Variants(width, height)[k].params
         == Augmentation(ScaleTenths[k / 6], RotDegrees[0], GaussianFilterSizes[k % 6])
  {
    CombinationAt(k);
  }

  /**
   Every output of an image: the square lies inside the image, the zoom
   window inside the square (so inside the image too), the angle is 0 and the
   blur kernel size positive and odd.
   */
  lemma VariantWellFormed(width: nat, height: nat, k: nat)
    requires k < |Variants(width, height)|
    ensures var v := Variants(width, height)[k];
      && v.Variant?
      && v.params.scaleTenths in ScaleTenths
      && v.square == SquareCrop(width, height)
      && v.zoom == ZoomCrop(v.square.width, v.params.scaleTenths)
      && Inside(v.zoom, v.square.width, v.square.height)
      && Inside(Rect(v.square.x + v.zoom.x, v.square.y + v.zoom.y, v.zoom.width, v.zoom.height), width, height)
      && v.params.angle == 0
      && v.params.blurSize > 0 && v.params.blurSize % 2 == 1
  {
    var c := Combinations()[k];
    assert c.0 in ScaleTenths && c.1.0 in RotDegrees && c.1.1 in GaussianFilterSizes;
  }

  lemma ParameterListsDistinct(x: nat, y: nat)
    requires x != y
    ensures x < |ScaleTenths| && y < |ScaleTenths| ==> ScaleTenths[x] != ScaleTenths[y]
    ensures x < |GaussianFilterSizes| && y < |GaussianFilterSizes| ==> GaussianFilterSizes[x] != GaussianFilterSizes[y]
  {
  }

  lemma CombinationsDistinct(i: nat, j: nat)
    requires i < VariantsPerImage && j < VariantsPerImage && i != j
    ensures Combinations()[i] != Combinations()[j]
  {
    CombinationAt(i);
    CombinationAt(j);
    if i / 6 != j / 6 {
      ParameterListsDistinct(i / 6, j / 6);
    } else {
      ParameterListsDistinct(i % 6, j % 6);
    }
  }

  /** The outputs of one image use pairwise different parameter combinations. */
  lemma VariantsDistinct(width: nat, height: nat, i: nat, j: nat)
    requires i < |Variants(width, height)| && j < |Variants(width, height)| && i != j
    ensures Variants(width, height)[i].params != Variants(width, height)[j].params
  {
    CombinationsDistinct(i, j);
  }

  /** At scale 1.0 the zoom window is the whole square, and the square has side `min(width, height)`. */
  lemma FullScaleIsWholeSquare(width: nat, height: nat)
    ensures var d := SquareCrop(width, height).width;
      d == if width < height then width else height
    ensures Variants(width, height)[0].zoom
         == Rect(0, 0, SquareCrop(width, height).width, SquareCrop(width, height).width)
  {
    VariantAt(width, height, 0);
  }

  /**
   A one-pixel-wide (or one-pixel-high) image: the 0.9 and 0.8 zoom windows
   are empty, so there is nothing to resize to 64 x 64.
   */
  lemma ZoomCollapses(width: nat, height: nat)
    requires width == 1 || height == 1
    ensures SquareCrop(width, height).width <= 1
    ensures ZoomCrop(SquareCrop(width, height).width, 9).width == 0
    ensures ZoomCrop(SquareCrop(width, height).width, 8).width == 0
  {
  }
}
