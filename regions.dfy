/**
 * Shared region model: rasters, pixel regions, detected objects and the
 * in-place fills that every command uses to paint them.
 *
 * A raster is stored row-major as a flat sequence of samples, so a pixel is
 * its index into that sequence. A region (an ImageJ ROI after rasterisation)
 * is the set of pixels it covers; the library rasterises polygons, so the
 * model works with the covered pixels directly.
 */
module Regions {

  datatype Option<T> = None | Some(value: T)

  type Pixel = int

  /** The pixels a region covers. Pixels outside the raster are ignored by fills. */
  type Region = set<Pixel>

  /** A point in raster coordinates (a contour centroid). */
  datatype Point = Point(x: real, y: real)

  /**
   * One detected object as the ROI manager stores it. The centroid and the
   * calibrated area are what the library computes for the object.
   */
  datatype Roi = Roi(pixels: Region, centroid: Point, area: real)

  /**
   * A mask image as saved on disk: its samples and the selection stored with
   * it (`getRoi()`, `None` when the image carries no selection).
   */
  datatype MaskImage = MaskImage(samples: seq<int>, roi: Option<Region>)

  /** `s` in reverse order. */
  function Reversed<T>(s: seq<T>): (r: seq<T>)
    ensures |r| == |s|
  {
    if |s| == 0 then [] else Reversed(s[1..]) + [s[0]]
  }

  /** Reversing keeps every element with its multiplicity. */
  lemma {:induction false} ReversedSameElements<T>(s: seq<T>)
    ensures multiset(Reversed(s)) == multiset(s)
  {
    if |s| > 0 {
      ReversedSameElements(s[1..]);
      assert s == [s[0]] + s[1..];
    }
  }

  /** A raster of `n` samples, all equal to `v`. */
  function Constant(n: nat, v: int): (r: seq<int>)
    ensures |r| == n
    ensures forall p :: 0 <= p < n ==> r[p] == v
  {
    seq(n, _ => v)
  }

  /** `s` with every pixel of `region` set to `v` (ImageJ `fill(roi)`). */
  function Filled(s: seq<int>, region: Region, v: int): (r: seq<int>)
    ensures |r| == |s|
    ensures forall p :: 0 <= p < |s| ==> r[p] == if p in region then v else s[p]
  {
    seq(|s|, p requires 0 <= p < |s| => if p in region then v else s[p])
  }

  /** `s` with every pixel outside `region` set to `v` (ImageJ `fillOutside(roi)`). */
  function FilledOutside(s: seq<int>, region: Region, v: int): (r: seq<int>)
    ensures |r| == |s|
    ensures forall p :: 0 <= p < |s| ==> r[p] == if p in region then s[p] else v
  {
    seq(|s|, p requires 0 <= p < |s| => if p in region then s[p] else v)
  }

  /**
   * The selection `ThresholdToSelection` extracts from a raster thresholded at
   * exactly 255; `None` (a null ROI) when no pixel is 255.
   */
  function Selection(s: seq<int>): (r: Option<Region>)
    ensures r.Some? <==> exists p :: 0 <= p < |s| && s[p] == 255
    ensures r.Some? ==> forall p :: p in r.value <==> 0 <= p < |s| && s[p] == 255
  {
    var region := set p | 0 <= p < |s| && s[p] == 255;
    if region == {} then
      assert forall p :: 0 <= p < |s| && s[p] == 255 ==> p in region;
      None
    else
      Some(region)
  }

  /**
   * The position of the last object in `rois` whose region covers `p`, or -1
   * when none does: on a raster the objects are filled onto one after
   * another, that object decides the pixel.
   */
  function LastCover(rois: seq<Roi>, p: Pixel): (k: int)
    ensures -1 <= k < |rois|
    ensures k >= 0 ==> p in rois[k].pixels
    ensures forall j :: k < j < |rois| ==> p !in rois[j].pixels
  {
    if |rois| == 0 then -1
    else if p in rois[|rois| - 1].pixels then |rois| - 1
    else
      var k := LastCover(rois[..|rois| - 1], p);
      assert forall j :: k < j < |rois| - 1 ==> rois[..|rois| - 1][j] == rois[j];
      k
  }

  /** `ip.setColor(v); ip.fill()`: paints the whole raster. */
  method FillAll(a: array<int>, v: int)
    modifies a
    ensures a[..] == Constant(a.Length, v)
  {
    for p := 0 to a.Length
      invariant forall q :: 0 <= q < p ==> a[q] == v
    {
      a[p] := v;
    }
  }

  /** `ip.setColor(v); ip.fill(roi)`: paints the pixels of `region`. */
  method FillRegion(a: array<int>, region: Region, v: int)
    modifies a
    ensures a[..] == Filled(old(a[..]), region, v)
  {
    for p := 0 to a.Length
      invariant forall q :: 0 <= q < p ==> a[q] == if q in region then v else old(a[q])
      invariant forall q :: p <= q < a.Length ==> a[q] == old(a[q])
    {
      if p in region {
        a[p] := v;
      }
    }
  }

  /** `ip.setColor(v); ip.fillOutside(roi)`: paints every pixel not in `region`. */
  method FillOutside(a: array<int>, region: Region, v: int)
    modifies a
    ensures a[..] == FilledOutside(old(a[..]), region, v)
  {
    for p := 0 to a.Length
      invariant forall q :: 0 <= q < p ==> a[q] == if q in region then old(a[q]) else v
      invariant forall q :: p <= q < a.Length ==> a[q] == old(a[q])
    {
      if p !in region {
        a[p] := v;
      }
    }
  }

  /** `duplicate()`: a fresh raster holding the samples of `s`. */
  method Duplicate(s: seq<int>) returns (a: array<int>)
    ensures fresh(a) && a[..] == s
  {
    a := new int[|s|](p requires 0 <= p < |s| => s[p]);
  }
}
