/**
 * Radial sublayers: a coarse-to-fine search for the enlargement radius of a
 * tissue mask that covers 95% of a label's area, the concentric band masks
 * cut from that radius, and the label splits chained over the bands.
 *
 * The library's `RoiEnlarger.enlarge(mask, r)` is the pixel region
 * `enlarge(r)`; `areaIn(R)` is the label area inside a region `R` (area
 * fraction times area), and `bounds(R)` is the bounding rectangle of `R`,
 * which ImageJ's `fill()` paints when an image holds the selection `R`.
 */
module SegmentSublayers {
  import opened Regions
  import SegmentLabel
  import Text

  /** Step sizes in the order the search uses them. */
  const Steps: seq<int> := [128, 64, 32, 16, 8, 4, 2, 1]

  /** `area >= 0.95 * total`, in exact arithmetic. */
  predicate Covered(area: int, total: int)
  {
    20 * area >= 19 * total
  }

  /** The label area inside the mask enlarged by `r` (`getArea` after `RoiEnlarger.enlarge`). */
  function Coverage(enlarge: real -> Region, areaIn: Region -> nat, r: int): nat
  {
    areaIn(enlarge(r as real))
  }

  /** Coverage never decreases as the radius grows. */
  ghost predicate MonotoneCoverage(enlarge: real -> Region, areaIn: Region -> nat)
  {
    forall a: int, b: int :: a <= b ==> Coverage(enlarge, areaIn, a) <= Coverage(enlarge, areaIn, b)
  }

  /**
   * The coverage search of `subSegment`. Each round grows the expansion by
   * the step until the coverage reaches 95% of the total, backs off one step
   * and halves the step; eight rounds (128 down to 1) are followed by a
   * one-pixel margin. `bound` is a radius from which on coverage is reached:
   * without one the inner loop need not end.
   */
  method CoverageSearch(enlarge: real -> Region, areaIn: Region -> nat, total: nat, ghost bound: int)
    returns (expansion: int, ghost rounds: seq<int>)
    requires forall r :: r >= bound ==> Covered(Coverage(enlarge, areaIn, r), total)
    ensures rounds == Steps
    ensures total == 0 ==> expansion == -254
    ensures total > 0 ==> expansion >= 1 && Covered(Coverage(enlarge, areaIn, expansion), total)
    ensures total > 0 ==> expansion == 1 || !Covered(Coverage(enlarge, areaIn, expansion - 1), total)
    ensures total > 0 && MonotoneCoverage(enlarge, areaIn) ==>
      forall r :: 1 <= r < expansion ==> !Covered(Coverage(enlarge, areaIn, r), total)
  {
    expansion := 0;
    var stepSize := 128;
    rounds := [];
    while stepSize >= 1
      invariant |rounds| <= 8 && rounds == Steps[..|rounds|]
      invariant stepSize == if |rounds| < 8 then Steps[|rounds|] else 0
      invariant total == 0 ==> expansion + 256 == if |rounds| < 8 then 2 * stepSize else 1
      invariant total > 0 ==> expansion >= 0 && (expansion == 0 || !Covered(Coverage(enlarge, areaIn, expansion), total))
      invariant total > 0 && |rounds| > 0 ==> Covered(Coverage(enlarge, areaIn, expansion + rounds[|rounds| - 1]), total)
      decreases stepSize
    {
      ghost var start := expansion;
      var selectedArea := 0;
      while 20 * selectedArea < 19 * total
        invariant selectedArea >= 0
        invariant total == 0 ==> expansion == start
        invariant expansion >= start
        invariant expansion == start ==> selectedArea == 0
        invariant expansion > start ==> selectedArea == Coverage(enlarge, areaIn, expansion)
        invariant expansion > start ==>
          expansion - stepSize == start || !Covered(Coverage(enlarge, areaIn, expansion - stepSize), total)
        invariant expansion > start ==> expansion - stepSize >= start
        decreases (if bound > start then bound else start) + stepSize - expansion
      {
        expansion := expansion + stepSize;
        var enlargedRoi := enlarge(expansion as real);
        selectedArea := areaIn(enlargedRoi);
      }
      expansion := expansion - stepSize;
      StepHalves(|rounds|);
      rounds := rounds + [stepSize];
      stepSize := stepSize / 2;
    }
    assert |rounds| == 8;
    expansion := expansion + 1;
  }

  /** Each step is twice the next, and the last one is 1. */
  lemma StepHalves(k: int)
    requires 0 <= k < 8
    ensures k < 7 ==> Steps[k] == 2 * Steps[k + 1] && Steps[k] / 2 == Steps[k + 1]
    ensures k == 7 ==> Steps[k] == 1
  {
    if k == 0 {} else if k == 1 {} else if k == 2 {} else if k == 3 {}
    else if k == 4 {} else if k == 5 {} else if k == 6 {} else {}
  }

  /** Enlargement never shrinks as the radius grows. */
  ghost predicate MonotoneEnlarge(enlarge: real -> Region)
  {
    forall a: real, b: real :: a <= b ==> enlarge(a) <= enlarge(b)
  }

  /** The label area inside a region never shrinks as the region grows. */
  ghost predicate MonotoneArea(areaIn: Region -> nat)
  {
    forall a: Region, b: Region :: a <= b ==> areaIn(a) <= areaIn(b)
  }

  /** A monotone enlargement measured by a monotone area gives monotone coverage. */
  lemma CoverageMonotone(enlarge: real -> Region, areaIn: Region -> nat)
    requires MonotoneEnlarge(enlarge) && MonotoneArea(areaIn)
    ensures MonotoneCoverage(enlarge, areaIn)
  {
  }

  /** The radius of the `i`-th of `n` band boundaries: `expansion * i / n`. */
  function Radius(expansion: int, i: int, n: int): real
    requires n > 0
  {
    (expansion * i) as real / n as real
  }

  /**
   * Whether pixel `p` belongs to band `i` of `n`: inside the `i`-th boundary
   * (for the last band, anywhere in that boundary's bounding rectangle) and
   * outside the `(i-1)`-th.
   */
  predicate InBand(enlarge: real -> Region, bounds: Region -> Region, expansion: int, n: int, i: int, p: Pixel)
    requires 1 <= i <= n
  {
    var outer := enlarge(Radius(expansion, i, n));
    (p in outer || (i == n && p in bounds(outer))) && p !in enlarge(Radius(expansion, i - 1, n))
  }

  /**
   * One band mask: a copy of the cleared mask raster, 255 on the `i`-th
   * enlargement (and, for the last band, on that enlargement's bounding
   * rectangle, which `fill()` paints while the image holds it), then 0 on the
   * `(i-1)`-th; its selection is re-extracted from the pixels equal to 255.
   */
  method BuildBand(cleared: seq<int>, enlarge: real -> Region, bounds: Region -> Region, expansion: int, n: int, i: int)
    returns (band: MaskImage)
    requires 1 <= i <= n
    requires forall p :: 0 <= p < |cleared| ==> cleared[p] == 0
    ensures |band.samples| == |cleared|
    ensures forall p :: 0 <= p < |cleared| ==>
      band.samples[p] == if InBand(enlarge, bounds, expansion, n, i, p) then 255 else 0
    ensures band.roi == Selection(band.samples)
  {
    var ip := Duplicate(cleared);
    var enlargedRoi := enlarge(Radius(expansion, i, n));
    FillRegion(ip, enlargedRoi, 255);
    if i == n {
      FillRegion(ip, bounds(enlargedRoi), 255);
    }
    FillRegion(ip, enlarge(Radius(expansion, i - 1, n)), 0);
    band := MaskImage(ip[..], Selection(ip[..]));
  }

  /**
   * What the coverage search promises: −254 with zero total area; otherwise
   * a radius of at least 1 that reaches 95% coverage while one less does not
   * (or it is 1), and, under monotone coverage, no smaller radius from 1 up
   * reaches it.
   */
  ghost predicate Searched(enlarge: real -> Region, areaIn: Region -> nat, total: nat, expansion: int)
  {
    && (total == 0 ==> expansion == -254)
    && (total > 0 ==> expansion >= 1 && Covered(Coverage(enlarge, areaIn, expansion), total))
    && (total > 0 ==> expansion == 1 || !Covered(Coverage(enlarge, areaIn, expansion - 1), total))
    && (total > 0 && MonotoneCoverage(enlarge, areaIn) ==>
          forall r :: 1 <= r < expansion ==> !Covered(Coverage(enlarge, areaIn, r), total))
  }

  /**
   * Exactly n bands (none for n < 1), each of the mask's size, 255 exactly
   * on the pixels of its band and 0 elsewhere, with its thresholded
   * selection.
   */
  ghost predicate Banded(size: int, enlarge: real -> Region, bounds: Region -> Region, expansion: int, n: int,
                         bands: seq<MaskImage>)
  {
    && |bands| == (if n > 0 then n else 0)
    && forall i :: 0 <= i < |bands| ==>
      && |bands[i].samples| == size
      && bands[i].roi == Selection(bands[i].samples)
      && forall p :: 0 <= p < size ==>
           bands[i].samples[p] == if InBand(enlarge, bounds, expansion, n, i + 1, p) then 255 else 0
  }

  /**
   * `subSegment`: clears the mask raster, runs the coverage search and builds
   * bands 1..n (none when n < 1).
   */
  method SubSegment(maskSamples: seq<int>, enlarge: real -> Region, bounds: Region -> Region, areaIn: Region -> nat,
                    total: nat, n: int, ghost bound: int)
    returns (expansion: int, bands: seq<MaskImage>)
    requires forall r :: r >= bound ==> Covered(Coverage(enlarge, areaIn, r), total)
    ensures Searched(enlarge, areaIn, total, expansion)
    ensures Banded(|maskSamples|, enlarge, bounds, expansion, n, bands)
  {
    var maskIp := Duplicate(maskSamples);
    FillAll(maskIp, 0);
    ghost var rounds;
    expansion, rounds := CoverageSearch(enlarge, areaIn, total, bound);
    var cleared := maskIp[..];
    bands := [];
    var i := 1;
    while i <= n
      invariant n > 0 ==> 1 <= i <= n + 1
      invariant n <= 0 ==> i == 1
      invariant |bands| == i - 1
      invariant forall k :: 0 <= k < |bands| ==>
        && |bands[k].samples| == |maskSamples|
        && bands[k].roi == Selection(bands[k].samples)
        && forall p :: 0 <= p < |maskSamples| ==>
             bands[k].samples[p] == if InBand(enlarge, bounds, expansion, n, k + 1, p) then 255 else 0
    {
      var band := BuildBand(cleared, enlarge, bounds, expansion, n, i);
      bands := bands + [band];
      i := i + 1;
    }
  }

  lemma RadiusMonotone(expansion: int, i: int, j: int, n: int)
    requires n > 0 && expansion >= 0 && i <= j
    ensures Radius(expansion, i, n) <= Radius(expansion, j, n)
  {
    assert expansion * i <= expansion * j by {
      assert expansion * (j - i) >= 0;
    }
  }

  /** The pixels the last band's boundary paints: its enlargement and that enlargement's bounding rectangle. */
  function Outermost(enlarge: real -> Region, bounds: Region -> Region, expansion: int): Region
  {
    enlarge(expansion as real) + bounds(enlarge(expansion as real))
  }

  /** Searching outward from band `k`, the first boundary that holds `p` gives its band. */
  lemma {:induction false} FindBand(enlarge: real -> Region, bounds: Region -> Region, expansion: int, n: int,
                                    k: int, p: Pixel)
    requires 1 <= k <= n
    requires p !in enlarge(Radius(expansion, k - 1, n))
    requires p in Outermost(enlarge, bounds, expansion)
    ensures exists i :: k <= i <= n && InBand(enlarge, bounds, expansion, n, i, p)
    decreases n - k
  {
    if k < n && p !in enlarge(Radius(expansion, k, n)) {
      FindBand(enlarge, bounds, expansion, n, k + 1, p);
    } else {
      if k == n {
        assert Radius(expansion, n, n) == expansion as real;
      }
      assert InBand(enlarge, bounds, expansion, n, k, p);
    }
  }

  /**
   * With a monotone enlargement and a non-negative radius, the `n` bands are
   * pairwise disjoint and together cover exactly the pixels of the outermost
   * enlargement and its bounding rectangle that lie outside the unenlarged
   * mask. A pixel beyond that rectangle is in no band.
   */
  lemma BandsPartition(enlarge: real -> Region, bounds: Region -> Region, expansion: int, n: int, p: Pixel)
    requires n >= 1 && expansion >= 0 && MonotoneEnlarge(enlarge)
    ensures (exists i :: 1 <= i <= n && InBand(enlarge, bounds, expansion, n, i, p))
        <==> p in Outermost(enlarge, bounds, expansion) && p !in enlarge(0.0)
    ensures forall i, j :: 1 <= i < j <= n && InBand(enlarge, bounds, expansion, n, i, p) ==>
      !InBand(enlarge, bounds, expansion, n, j, p)
  {
    assert Radius(expansion, 0, n) == 0.0;
    assert Radius(expansion, n, n) == expansion as real;
    if p !in enlarge(0.0) && p in Outermost(enlarge, bounds, expansion) {
      FindBand(enlarge, bounds, expansion, n, 1, p);
    }
    forall i | 1 <= i <= n && InBand(enlarge, bounds, expansion, n, i, p)
      ensures p !in enlarge(0.0) && p in Outermost(enlarge, bounds, expansion)
    {
      RadiusMonotone(expansion, 0, i - 1, n);
      RadiusMonotone(expansion, i, n, n);
    }
    forall i, j | 1 <= i < j <= n && InBand(enlarge, bounds, expansion, n, i, p)
      ensures !InBand(enlarge, bounds, expansion, n, j, p)
    {
      RadiusMonotone(expansion, i, j - 1, n);
    }
  }

  /** The file name band `i` is saved under. */
  function BandName(i: int): string
  {
    "sublayer_myo_trabecular_" + Text.IntToString(i) + ".tif"
  }

  /** `k` is none of the names bands 1..n are saved under. */
  predicate OtherThanBands(k: string, n: int)
  {
    forall j :: 1 <= j <= n ==> k != BandName(j)
  }

  /** `after` holds the same files as `before` under every name other than those of bands 1..n. */
  ghost predicate KeepsOtherFiles(before: map<string, MaskImage>, after: map<string, MaskImage>, n: int)
  {
    forall k :: OtherThanBands(k, n) ==> (k in after <==> k in before) && (k in before ==> after[k] == before[k])
  }

  /** Distinct bands are saved under distinct names. */
  lemma BandNameInjective(i: nat, j: nat)
    requires BandName(i) == BandName(j)
    ensures i == j
  {
    var a, b := Text.IntToString(i), Text.IntToString(j);
    var pre := "sublayer_myo_trabecular_";
    assert |a| == |b| by {
      assert |BandName(i)| == |pre| + |a| + 4;
      assert |BandName(j)| == |pre| + |b| + 4;
    }
    assert a == BandName(i)[|pre|..|pre| + |a|];
    assert b == BandName(j)[|pre|..|pre| + |b|];
    Text.CountRoundTrip(i);
    Text.CountRoundTrip(j);
  }

  /** The selection saved with band `i`, if that band file exists and has one. */
  function BandMask(s: SegmentLabel.Store, i: int): Option<Region>
  {
    if BandName(i) in s.masks then s.masks[BandName(i)].roi else None
  }

  /** The objects of `tissue` before the splits (an absent object list opens empty). */
  function Objects(s: SegmentLabel.Store, tissue: string): seq<Roi>
  {
    if tissue in s.zips then s.zips[tissue] else []
  }

  /** A raster of zeros the size of `tissue`'s label image (the cleared base raster and its duplicate). */
  function Cleared(s: SegmentLabel.Store, tissue: string): seq<int>
    requires tissue in s.labels
  {
    Constant(|s.labels[tissue]|, 0)
  }

  /**
   * `name` holds what `segmentLabel` writes for the objects of `tissue` whose
   * centroid is inside `m`: those objects in their order, painted with their
   * index in the tissue's list plus one.
   */
  ghost predicate Inner(before: SegmentLabel.Store, after: SegmentLabel.Store, tissue: string, name: string,
                        m: Region, containsPoint: (Region, Point) -> bool)
  {
    var rois := Objects(before, tissue);
    && tissue in before.labels && name in after.labels && name in after.zips
    && after.zips[name] == SegmentLabel.Keep(rois, containsPoint, m, true)
    && after.labels[name] == SegmentLabel.PaintFrom(Cleared(before, tissue), rois, containsPoint, m, true, 0)
  }

  /**
   * `name` holds what `segmentLabel` writes for the other objects of
   * `tissue`: those objects in walk (descending) order, painted with their
   * index in the tissue's list plus one.
   */
  ghost predicate Outer(before: SegmentLabel.Store, after: SegmentLabel.Store, tissue: string, name: string,
                        m: Region, containsPoint: (Region, Point) -> bool)
  {
    var rois := Objects(before, tissue);
    && tissue in before.labels && name in after.labels && name in after.zips
    && after.zips[name] == Reversed(SegmentLabel.Keep(rois, containsPoint, m, false))
    && after.labels[name] == SegmentLabel.PaintFrom(Cleared(before, tissue), rois, containsPoint, m, false, 0)
  }

  /** The two-layer split of `tissue` on band 1: base inside it, apex outside. */
  ghost predicate TwoWaySplit(before: SegmentLabel.Store, after: SegmentLabel.Store, tissue: string,
                              base: string, apex: string, m1: Region, containsPoint: (Region, Point) -> bool)
  {
    Inner(before, after, tissue, base, m1, containsPoint) && Outer(before, after, tissue, apex, m1, containsPoint)
  }

  /**
   * The three-layer split of `tissue`: base inside band 1; of the rest (in
   * the order the first split left it), middle inside band 2, apex outside.
   * Middle and apex are painted with positions in that rest, not with the
   * base label's indices.
   */
  ghost predicate ThreeWaySplit(before: SegmentLabel.Store, after: SegmentLabel.Store, tissue: string,
                                base: string, middle: string, apex: string,
                                m1: Region, m2: Region, containsPoint: (Region, Point) -> bool)
  {
    var rois := Objects(before, tissue);
    var rest := Reversed(SegmentLabel.Keep(rois, containsPoint, m1, false));
    && Inner(before, after, tissue, base, m1, containsPoint)
    && middle in after.zips && apex in after.zips && middle in after.labels && apex in after.labels
    && after.zips[middle] == SegmentLabel.Keep(rest, containsPoint, m2, true)
    && after.zips[apex] == Reversed(SegmentLabel.Keep(rest, containsPoint, m2, false))
    && after.labels[middle] == SegmentLabel.PaintFrom(Cleared(before, tissue), rest, containsPoint, m2, true, 0)
    && after.labels[apex] == SegmentLabel.PaintFrom(Cleared(before, tissue), rest, containsPoint, m2, false, 0)
  }

  /** The three sublayer object lists of a tissue hold exactly its objects. */
  lemma ThreeWayPartitions(before: SegmentLabel.Store, after: SegmentLabel.Store, tissue: string,
                           base: string, middle: string, apex: string,
                           m1: Region, m2: Region, containsPoint: (Region, Point) -> bool)
    requires ThreeWaySplit(before, after, tissue, base, middle, apex, m1, m2, containsPoint)
    ensures multiset(after.zips[base]) + multiset(after.zips[middle]) + multiset(after.zips[apex])
         == multiset(Objects(before, tissue))
  {
    var rois := Objects(before, tissue);
    SegmentLabel.SplitPartitions(rois, containsPoint, m1);
    SegmentLabel.SplitPartitions(Reversed(SegmentLabel.Keep(rois, containsPoint, m1, false)), containsPoint, m2);
  }

  /** The two sublayer object lists of a tissue hold exactly its objects. */
  lemma TwoWayPartitions(before: SegmentLabel.Store, after: SegmentLabel.Store, tissue: string,
                         base: string, apex: string, m1: Region, containsPoint: (Region, Point) -> bool)
    requires TwoWaySplit(before, after, tissue, base, apex, m1, containsPoint)
    ensures multiset(after.zips[base]) + multiset(after.zips[apex]) == multiset(Objects(before, tissue))
  {
    SegmentLabel.SplitPartitions(Objects(before, tissue), containsPoint, m1);
  }

  /** `after` differs from `before` at most in the labels and object lists named in `written`. */
  ghost predicate OnlyWrites(before: SegmentLabel.Store, after: SegmentLabel.Store, written: set<string>)
  {
    && after.masks == before.masks
    && (forall k :: k !in written ==> (k in after.labels <==> k in before.labels))
    && (forall k :: k !in written && k in before.labels ==> after.labels[k] == before.labels[k])
    && (forall k :: k !in written ==> (k in after.zips <==> k in before.zips))
    && (forall k :: k !in written && k in before.zips ==> after.zips[k] == before.zips[k])
  }

  /** The folder after `segmentLabel` splits `tissue` on region `m` into `inner` and `outer`. */
  function SplitWith(s: SegmentLabel.Store, tissue: string, inner: string, outer: string, m: Region,
                     containsPoint: (Region, Point) -> bool): SegmentLabel.Store
    requires tissue in s.labels
  {
    var rois := Objects(s, tissue);
    var zero := Cleared(s, tissue);
    SegmentLabel.Store(s.masks,
                       s.labels[inner := SegmentLabel.PaintFrom(zero, rois, containsPoint, m, true, 0)]
                               [outer := SegmentLabel.PaintFrom(zero, rois, containsPoint, m, false, 0)],
                       s.zips[inner := SegmentLabel.Keep(rois, containsPoint, m, true)]
                             [outer := Reversed(SegmentLabel.Keep(rois, containsPoint, m, false))])
  }

  /**
   * A split writes the inner name with the objects inside the region and
   * the outer name with the others, each painted with its index plus one.
   */
  lemma SplitWithSplits(s: SegmentLabel.Store, tissue: string, inner: string, outer: string, m: Region,
                        containsPoint: (Region, Point) -> bool)
    requires tissue in s.labels && inner != outer
    ensures var r := SplitWith(s, tissue, inner, outer, m, containsPoint);
      Inner(s, r, tissue, inner, m, containsPoint) && Outer(s, r, tissue, outer, m, containsPoint)
  {
  }

  /** A split writes only its two names. */
  lemma SplitWithWrites(s: SegmentLabel.Store, tissue: string, inner: string, outer: string, m: Region,
                        containsPoint: (Region, Point) -> bool)
    requires tissue in s.labels
    ensures OnlyWrites(s, SplitWith(s, tissue, inner, outer, m, containsPoint), {inner, outer})
  {
  }

  /** The folder's masks after bands 1..|bands| are saved into it, one after the other. */
  function Saved(masks: map<string, MaskImage>, bands: seq<MaskImage>): map<string, MaskImage>
  {
    if |bands| == 0 then masks
    else Saved(masks, bands[..|bands| - 1])[BandName(|bands|) := bands[|bands| - 1]]
  }

  /** Band k is stored under its name. */
  lemma {:induction false} SavedBands(masks: map<string, MaskImage>, bands: seq<MaskImage>)
    ensures forall k :: 1 <= k <= |bands| ==>
      BandName(k) in Saved(masks, bands) && Saved(masks, bands)[BandName(k)] == bands[k - 1]
  {
    if |bands| > 0 {
      var n := |bands|;
      var init := bands[..n - 1];
      SavedBands(masks, init);
      forall k | 1 <= k < n ensures BandName(k) != BandName(n) {
        if BandName(k) == BandName(n) {
          BandNameInjective(k, n);
        }
      }
      assert forall k :: 0 <= k < n - 1 ==> init[k] == bands[k];
    }
  }

  /** Every file not named for a band is kept. */
  lemma {:induction false} SavedKeeps(masks: map<string, MaskImage>, bands: seq<MaskImage>)
    ensures KeepsOtherFiles(masks, Saved(masks, bands), |bands|)
  {
    if |bands| > 0 {
      SavedKeeps(masks, bands[..|bands| - 1]);
    }
  }

  /** Saves the bands as "sublayer_myo_trabecular_<i>.tif", i = 1..|bands|. */
  method SaveBands(masks: map<string, MaskImage>, bands: seq<MaskImage>) returns (saved: map<string, MaskImage>)
    ensures forall k :: 1 <= k <= |bands| ==> BandName(k) in saved && saved[BandName(k)] == bands[k - 1]
    ensures KeepsOtherFiles(masks, saved, |bands|)
    ensures saved == Saved(masks, bands)
  {
    saved := masks;
    for i := 0 to |bands|
      invariant saved == Saved(masks, bands[..i])
    {
      assert bands[..i + 1][..i] == bands[..i];
      saved := saved[BandName(i + 1) := bands[i]];
    }
    assert bands[..|bands|] == bands;
    SavedBands(masks, bands);
    SavedKeeps(masks, bands);
  }

  /**
   * One `segmentLabel` call on band `i` (no hole filling): no change when the
   * band has no selection ("Mask not found"), a throw (`None`) when the band
   * has one but the label image of `tissue` is missing, and otherwise the split.
   */
  method SplitOn(s: SegmentLabel.Store, i: int, tissue: string, inner: string, outer: string,
                 fillHoles: seq<int> -> seq<int>, containsPoint: (Region, Point) -> bool)
    returns (r: Option<SegmentLabel.Store>)
    ensures r.None? <==> BandMask(s, i).Some? && tissue !in s.labels
    ensures BandMask(s, i).None? ==> r == Some(s)
    ensures BandMask(s, i).Some? && tissue in s.labels ==>
      r == Some(SplitWith(s, tissue, inner, outer, BandMask(s, i).value, containsPoint))
  {
    r := SegmentLabel.SegmentStored(s, BandName(i), tissue, inner, outer, false, fillHoles, containsPoint);
  }

  /** The folder one `segmentLabel` call on band `i` leaves, as `SplitOn` states it. */
  function SplitStep(s: SegmentLabel.Store, i: int, tissue: string, inner: string, outer: string,
                     containsPoint: (Region, Point) -> bool): Option<SegmentLabel.Store>
  {
    if BandMask(s, i).None? then Some(s)
    else if tissue !in s.labels then None
    else Some(SplitWith(s, tissue, inner, outer, BandMask(s, i).value, containsPoint))
  }

  /** The folder the two calls for one tissue leave: band 1 into base and the temporary label, band 2 on that. */
  function ThreeStep(s: SegmentLabel.Store, tissue: string, base: string, middle: string, apex: string,
                     containsPoint: (Region, Point) -> bool): Option<SegmentLabel.Store>
  {
    var s1 := SplitStep(s, 1, tissue, base, "tmp_middle_apex", containsPoint);
    if s1.None? then None else SplitStep(s1.value, 2, "tmp_middle_apex", middle, apex, containsPoint)
  }

  /**
   * The two calls for one tissue throw exactly when a band with a selection
   * meets a missing label image.
   */
  lemma ThreeStepThrows(s: SegmentLabel.Store, tissue: string, base: string, middle: string, apex: string,
                        containsPoint: (Region, Point) -> bool)
    requires "tmp_middle_apex" !in {base, middle, apex}
    ensures ThreeStep(s, tissue, base, middle, apex, containsPoint).None?
        <==> ((BandMask(s, 1).Some? && tissue !in s.labels)
              || (BandMask(s, 1).None? && BandMask(s, 2).Some? && "tmp_middle_apex" !in s.labels))
  {
    var s1 := SplitStep(s, 1, tissue, base, "tmp_middle_apex", containsPoint);
    if s1.Some? {
      assert BandMask(s1.value, 2) == BandMask(s, 2);
    }
  }

  /**
   * The two calls for one tissue write only their four names, and leave the
   * temporary label present exactly when band 1 was split or it was there
   * before.
   */
  lemma ThreeStepWrites(s: SegmentLabel.Store, tissue: string, base: string, middle: string, apex: string,
                        containsPoint: (Region, Point) -> bool)
    requires "tmp_middle_apex" !in {base, middle, apex}
    ensures var r := ThreeStep(s, tissue, base, middle, apex, containsPoint);
      && (r.Some? ==> OnlyWrites(s, r.value, {base, middle, apex, "tmp_middle_apex"}))
      && (r.Some? ==> ("tmp_middle_apex" in r.value.labels <==> BandMask(s, 1).Some? || "tmp_middle_apex" in s.labels))
      && (r.Some? ==> ("tmp_middle_apex" in r.value.zips <==> BandMask(s, 1).Some? || "tmp_middle_apex" in s.zips))
  {
    var s1 := SplitStep(s, 1, tissue, base, "tmp_middle_apex", containsPoint);
    if s1.Some? {
      assert BandMask(s1.value, 2) == BandMask(s, 2);
    }
  }

  /** With neither band selected, the two calls for one tissue change nothing. */
  lemma ThreeStepUnselected(s: SegmentLabel.Store, tissue: string, base: string, middle: string, apex: string,
                            containsPoint: (Region, Point) -> bool)
    requires BandMask(s, 1).None? && BandMask(s, 2).None?
    ensures ThreeStep(s, tissue, base, middle, apex, containsPoint) == Some(s)
  {
    assert SplitStep(s, 1, tissue, base, "tmp_middle_apex", containsPoint) == Some(s);
  }

  /**
   * With only one band selected, the two calls for one tissue leave that
   * band's two-way split: of the tissue into base and the temporary label,
   * or of the temporary label into middle and apex.
   */
  lemma ThreeStepPartial(s: SegmentLabel.Store, tissue: string, base: string, middle: string, apex: string,
                         containsPoint: (Region, Point) -> bool)
    requires base != middle && base != apex && middle != apex
    requires "tmp_middle_apex" !in {base, middle, apex}
    ensures var r := ThreeStep(s, tissue, base, middle, apex, containsPoint);
      && (r.Some? && BandMask(s, 1).Some? ==>
            TwoWaySplit(s, r.value, tissue, base, "tmp_middle_apex", BandMask(s, 1).value, containsPoint))
      && (r.Some? && BandMask(s, 1).None? && BandMask(s, 2).Some? ==>
            TwoWaySplit(s, r.value, "tmp_middle_apex", middle, apex, BandMask(s, 2).value, containsPoint))
  {
    var s1 := SplitStep(s, 1, tissue, base, "tmp_middle_apex", containsPoint);
    if s1.Some? {
      assert BandMask(s1.value, 2) == BandMask(s, 2);
    }
  }

  /**
   * With both bands selected, the two calls for one tissue leave base inside
   * band 1, and middle and apex split from the remainder on band 2.
   */
  lemma ThreeStepSplits(s: SegmentLabel.Store, tissue: string, base: string, middle: string, apex: string,
                        containsPoint: (Region, Point) -> bool)
    requires base != middle && base != apex && middle != apex
    requires "tmp_middle_apex" !in {base, middle, apex}
    requires BandMask(s, 1).Some? && BandMask(s, 2).Some?
    ensures var r := ThreeStep(s, tissue, base, middle, apex, containsPoint);
      r.Some? ==>
      ThreeWaySplit(s, r.value, tissue, base, middle, apex, BandMask(s, 1).value, BandMask(s, 2).value, containsPoint)
  {
    var s1 := SplitStep(s, 1, tissue, base, "tmp_middle_apex", containsPoint);
    if s1.Some? {
      assert BandMask(s1.value, 2) == BandMask(s, 2);
      var r := SplitStep(s1.value, 2, "tmp_middle_apex", middle, apex, containsPoint);
      if r.Some? {
        var t := s1.value;
        assert |t.labels["tmp_middle_apex"]| == |s.labels[tissue]|;
        assert Cleared(t, "tmp_middle_apex") == Cleared(s, tissue);
        assert Objects(t, "tmp_middle_apex")
            == Reversed(SegmentLabel.Keep(Objects(s, tissue), containsPoint, BandMask(s, 1).value, false));
      }
    }
  }

  /** The two splits of one tissue for three sublayers, through the temporary label. */
  method SplitThree(s: SegmentLabel.Store, tissue: string, base: string, middle: string, apex: string,
                    fillHoles: seq<int> -> seq<int>, containsPoint: (Region, Point) -> bool)
    returns (r: Option<SegmentLabel.Store>)
    requires base != middle && base != apex && middle != apex
    requires "tmp_middle_apex" !in {base, middle, apex}
    ensures r == ThreeStep(s, tissue, base, middle, apex, containsPoint)
    ensures var r := ThreeStep(s, tissue, base, middle, apex, containsPoint);
      && (r.None? <==> ((BandMask(s, 1).Some? && tissue !in s.labels)
                        || (BandMask(s, 1).None? && BandMask(s, 2).Some? && "tmp_middle_apex" !in s.labels)))
      && (r.Some? ==> OnlyWrites(s, r.value, {base, middle, apex, "tmp_middle_apex"}))
      && (BandMask(s, 1).None? && BandMask(s, 2).None? ==> r == Some(s))
      && (r.Some? ==> ("tmp_middle_apex" in r.value.labels <==> BandMask(s, 1).Some? || "tmp_middle_apex" in s.labels))
      && (r.Some? && BandMask(s, 1).Some? && BandMask(s, 2).Some? ==>
            ThreeWaySplit(s, r.value, tissue, base, middle, apex, BandMask(s, 1).value, BandMask(s, 2).value,
                          containsPoint))
      && (r.Some? && BandMask(s, 1).Some? ==>
            TwoWaySplit(s, r.value, tissue, base, "tmp_middle_apex", BandMask(s, 1).value, containsPoint))
      && (r.Some? && BandMask(s, 1).None? && BandMask(s, 2).Some? ==>
            TwoWaySplit(s, r.value, "tmp_middle_apex", middle, apex, BandMask(s, 2).value, containsPoint))
  {
    var s1 := SplitOn(s, 1, tissue, base, "tmp_middle_apex", fillHoles, containsPoint);
    if s1.None? { return None; }
    r := SplitOn(s1.value, 2, "tmp_middle_apex", middle, apex, fillHoles, containsPoint);
    ThreeStepThrows(s, tissue, base, middle, apex, containsPoint);
    ThreeStepWrites(s, tissue, base, middle, apex, containsPoint);
    ThreeStepPartial(s, tissue, base, middle, apex, containsPoint);
    if BandMask(s, 1).None? && BandMask(s, 2).None? {
      ThreeStepUnselected(s, tissue, base, middle, apex, containsPoint);
    }
    if BandMask(s, 1).Some? && BandMask(s, 2).Some? {
      ThreeStepSplits(s, tissue, base, middle, apex, containsPoint);
    }
  }

  /**
   * The folder a throw in the two-sublayer branch leaves. A call throws
   * before it writes anything, so a throw in the endo call leaves the
   * myo_trabecular split that was already saved.
   */
  ghost predicate TwoLeft(s: SegmentLabel.Store, disk: SegmentLabel.Store, containsPoint: (Region, Point) -> bool)
  {
    && (BandMask(s, 1).None? || "myo_trabecular" !in s.labels ==> disk == s)
    && (BandMask(s, 1).Some? && "myo_trabecular" in s.labels ==>
        && OnlyWrites(s, disk, {"myo_trabecular_base", "myo_trabecular_apex"})
        && TwoWaySplit(s, disk, "myo_trabecular", "myo_trabecular_base", "myo_trabecular_apex",
                       BandMask(s, 1).value, containsPoint))
  }

  /**
   * The folder a throw in the three-sublayer branch leaves: a throw in the
   * endo calls leaves the myo_trabecular outputs and the temporary label,
   * whose deletion is never reached.
   */
  ghost predicate ThreeLeft(s: SegmentLabel.Store, disk: SegmentLabel.Store, containsPoint: (Region, Point) -> bool)
  {
    && (BandMask(s, 1).None? || "myo_trabecular" !in s.labels ==> disk == s)
    && (BandMask(s, 1).Some? && "myo_trabecular" in s.labels ==>
        && OnlyWrites(s, disk, {"myo_trabecular_base", "myo_trabecular_middle", "myo_trabecular_apex",
                                "tmp_middle_apex"})
        && "tmp_middle_apex" in disk.labels && "tmp_middle_apex" in disk.zips
        && (BandMask(s, 2).Some? ==>
              ThreeWaySplit(s, disk, "myo_trabecular", "myo_trabecular_base", "myo_trabecular_middle",
                            "myo_trabecular_apex", BandMask(s, 1).value, BandMask(s, 2).value, containsPoint))
        && (BandMask(s, 2).None? ==>
              TwoWaySplit(s, disk, "myo_trabecular", "myo_trabecular_base", "tmp_middle_apex",
                          BandMask(s, 1).value, containsPoint)))
  }

  /**
   * The two-sublayer branch of `process`: myo_trabecular and then endo are
   * each split on band 1 into base and apex.
   */
  method TwoLayers(s: SegmentLabel.Store, fillHoles: seq<int> -> seq<int>, containsPoint: (Region, Point) -> bool)
    returns (r: Option<SegmentLabel.Store>, disk: SegmentLabel.Store)
    ensures r.Some? ==> disk == r.value
    ensures r.None? ==> TwoLeft(s, disk, containsPoint)
    ensures r.None? <==> (BandMask(s, 1).Some? && ("myo_trabecular" !in s.labels || "endo" !in s.labels))
    ensures BandMask(s, 1).None? ==> r == Some(s)
    ensures r.Some? ==>
      OnlyWrites(s, r.value, {"myo_trabecular_base", "myo_trabecular_apex", "endo_base", "endo_apex"})
    ensures r.Some? && BandMask(s, 1).Some? ==>
      && TwoWaySplit(s, r.value, "myo_trabecular", "myo_trabecular_base", "myo_trabecular_apex",
                     BandMask(s, 1).value, containsPoint)
      && TwoWaySplit(s, r.value, "endo", "endo_base", "endo_apex", BandMask(s, 1).value, containsPoint)
  {
    var s1 := SplitOn(s, 1, "myo_trabecular", "myo_trabecular_base", "myo_trabecular_apex", fillHoles, containsPoint);
    if s1.None? { return None, s; }
    var t := s1.value;
    r := SplitOn(t, 1, "endo", "endo_base", "endo_apex", fillHoles, containsPoint);
    disk := if r.Some? then r.value else t;
    if BandMask(s, 1).Some? {
      var m := BandMask(s, 1).value;
      SplitWithWrites(s, "myo_trabecular", "myo_trabecular_base", "myo_trabecular_apex", m, containsPoint);
      SplitWithSplits(s, "myo_trabecular", "myo_trabecular_base", "myo_trabecular_apex", m, containsPoint);
      assert BandMask(t, 1) == BandMask(s, 1);
      if r.Some? {
        SplitWithWrites(t, "endo", "endo_base", "endo_apex", m, containsPoint);
        SplitWithSplits(t, "endo", "endo_base", "endo_apex", m, containsPoint);
        OnlyWritesChain(s, t, r.value, {"myo_trabecular_base", "myo_trabecular_apex"}, {"endo_base", "endo_apex"});
        assert {"myo_trabecular_base", "myo_trabecular_apex"} + {"endo_base", "endo_apex"}
            == {"myo_trabecular_base", "myo_trabecular_apex", "endo_base", "endo_apex"};
        TwoWayFrame(s, t, r.value, "myo_trabecular", "myo_trabecular_base", "myo_trabecular_apex", m, containsPoint,
                    {"endo_base", "endo_apex"});
        TwoWayRebase(t, s, r.value, "endo", "endo_base", "endo_apex", m, containsPoint);
      }
    }
  }

  /** Writing only other names keeps a two-way split's outputs. */
  lemma TwoWayFrame(before: SegmentLabel.Store, a: SegmentLabel.Store, b: SegmentLabel.Store, tissue: string,
                    base: string, apex: string, m: Region, containsPoint: (Region, Point) -> bool,
                    written: set<string>)
    requires TwoWaySplit(before, a, tissue, base, apex, m, containsPoint)
    requires OnlyWrites(a, b, written) && base !in written && apex !in written
    ensures TwoWaySplit(before, b, tissue, base, apex, m, containsPoint)
  {
  }

  /** A two-way split depends on the folder before it only through the tissue's label image and objects. */
  lemma TwoWayRebase(b1: SegmentLabel.Store, b2: SegmentLabel.Store, after: SegmentLabel.Store, tissue: string,
                     base: string, apex: string, m: Region, containsPoint: (Region, Point) -> bool)
    requires TwoWaySplit(b1, after, tissue, base, apex, m, containsPoint)
    requires tissue in b2.labels && b1.labels[tissue] == b2.labels[tissue] && Objects(b1, tissue) == Objects(b2, tissue)
    ensures TwoWaySplit(b2, after, tissue, base, apex, m, containsPoint)
  {
    assert Cleared(b1, tissue) == Cleared(b2, tissue);
  }

  /**
   * The folder two tissues' three-way splits leave, one after the other,
   * through the shared temporary label.
   */
  function Chain(s: SegmentLabel.Store, t1: string, b1: string, m1: string, a1: string,
                 t2: string, b2: string, m2: string, a2: string,
                 containsPoint: (Region, Point) -> bool): Option<SegmentLabel.Store>
  {
    var s1 := ThreeStep(s, t1, b1, m1, a1, containsPoint);
    if s1.None? then None else ThreeStep(s1.value, t2, b2, m2, a2, containsPoint)
  }

  /**
   * The output names of two chained three-way splits: each tissue's three
   * are distinct, the two tissues' are disjoint, none is the temporary
   * label, and the second tissue is none of the first's outputs.
   */
  predicate ChainNames(t2: string, b1: string, m1: string, a1: string, b2: string, m2: string, a2: string)
  {
    && b1 != m1 && b1 != a1 && m1 != a1 && b2 != m2 && b2 != a2 && m2 != a2
    && "tmp_middle_apex" !in {b1, m1, a1, b2, m2, a2, t2}
    && b1 !in {b2, m2, a2} && m1 !in {b2, m2, a2} && a1 !in {b2, m2, a2}
    && t2 !in {b1, m1, a1}
  }

  /** Two chained splits throw exactly when a band with a selection meets a missing label image. */
  lemma ChainThrows(s: SegmentLabel.Store, t1: string, b1: string, m1: string, a1: string,
                    t2: string, b2: string, m2: string, a2: string, containsPoint: (Region, Point) -> bool)
    requires ChainNames(t2, b1, m1, a1, b2, m2, a2)
    ensures Chain(s, t1, b1, m1, a1, t2, b2, m2, a2, containsPoint).None?
        <==> ((BandMask(s, 1).Some? && (t1 !in s.labels || t2 !in s.labels))
              || (BandMask(s, 1).None? && BandMask(s, 2).Some? && "tmp_middle_apex" !in s.labels))
  {
    ThreeStepThrows(s, t1, b1, m1, a1, containsPoint);
    ThreeStepWrites(s, t1, b1, m1, a1, containsPoint);
    var s1 := ThreeStep(s, t1, b1, m1, a1, containsPoint);
    if s1.Some? {
      assert Chain(s, t1, b1, m1, a1, t2, b2, m2, a2, containsPoint) == ThreeStep(s1.value, t2, b2, m2, a2, containsPoint);
      ThreeStepThrows(s1.value, t2, b2, m2, a2, containsPoint);
      assert BandMask(s1.value, 1) == BandMask(s, 1) && BandMask(s1.value, 2) == BandMask(s, 2);
    }
  }

  /** Two chained splits write only their outputs and the temporary label, and nothing without selections. */
  lemma ChainWrites(s: SegmentLabel.Store, t1: string, b1: string, m1: string, a1: string,
                    t2: string, b2: string, m2: string, a2: string, containsPoint: (Region, Point) -> bool)
    requires ChainNames(t2, b1, m1, a1, b2, m2, a2)
    ensures BandMask(s, 1).None? && BandMask(s, 2).None? ==>
      Chain(s, t1, b1, m1, a1, t2, b2, m2, a2, containsPoint) == Some(s)
    ensures var r := Chain(s, t1, b1, m1, a1, t2, b2, m2, a2, containsPoint);
      r.Some? ==> OnlyWrites(s, r.value, {b1, m1, a1, b2, m2, a2, "tmp_middle_apex"})
  {
    ThreeStepWrites(s, t1, b1, m1, a1, containsPoint);
    var s1 := ThreeStep(s, t1, b1, m1, a1, containsPoint);
    if BandMask(s, 1).None? && BandMask(s, 2).None? {
      ThreeStepUnselected(s, t1, b1, m1, a1, containsPoint);
      ThreeStepUnselected(s, t2, b2, m2, a2, containsPoint);
    }
    if s1.Some? {
      ThreeStepWrites(s1.value, t2, b2, m2, a2, containsPoint);
      var s2 := ThreeStep(s1.value, t2, b2, m2, a2, containsPoint);
      if s2.Some? {
        OnlyWritesChain(s, s1.value, s2.value, {b1, m1, a1, "tmp_middle_apex"}, {b2, m2, a2, "tmp_middle_apex"});
        assert {b1, m1, a1, "tmp_middle_apex"} + {b2, m2, a2, "tmp_middle_apex"}
            == {b1, m1, a1, b2, m2, a2, "tmp_middle_apex"};
      }
    }
  }

  /** With both bands selected, the first tissue's three-way split survives the second tissue's calls. */
  lemma ChainFirst(s: SegmentLabel.Store, t1: string, b1: string, m1: string, a1: string,
                   t2: string, b2: string, m2: string, a2: string, containsPoint: (Region, Point) -> bool)
    requires ChainNames(t2, b1, m1, a1, b2, m2, a2)
    requires BandMask(s, 1).Some? && BandMask(s, 2).Some?
    ensures var r := Chain(s, t1, b1, m1, a1, t2, b2, m2, a2, containsPoint);
      r.Some? ==> ThreeWaySplit(s, r.value, t1, b1, m1, a1, BandMask(s, 1).value, BandMask(s, 2).value, containsPoint)
  {
    ThreeStepSplits(s, t1, b1, m1, a1, containsPoint);
    var s1 := ThreeStep(s, t1, b1, m1, a1, containsPoint);
    if s1.Some? {
      assert Chain(s, t1, b1, m1, a1, t2, b2, m2, a2, containsPoint) == ThreeStep(s1.value, t2, b2, m2, a2, containsPoint);
      SecondKeepsFirst(s, s1.value, t1, b1, m1, a1, t2, b2, m2, a2, BandMask(s, 1).value, BandMask(s, 2).value,
                       containsPoint);
    }
  }

  /** The second tissue's calls keep a three-way split of the first tissue whose outputs they do not name. */
  lemma SecondKeepsFirst(s: SegmentLabel.Store, s1: SegmentLabel.Store, t1: string, b1: string, m1: string, a1: string,
                         t2: string, b2: string, m2: string, a2: string, r1: Region, r2: Region,
                         containsPoint: (Region, Point) -> bool)
    requires ThreeWaySplit(s, s1, t1, b1, m1, a1, r1, r2, containsPoint)
    requires "tmp_middle_apex" !in {b1, m1, a1, b2, m2, a2}
    requires b1 !in {b2, m2, a2} && m1 !in {b2, m2, a2} && a1 !in {b2, m2, a2}
    ensures var r := ThreeStep(s1, t2, b2, m2, a2, containsPoint);
      r.Some? ==> ThreeWaySplit(s, r.value, t1, b1, m1, a1, r1, r2, containsPoint)
  {
    ThreeStepWrites(s1, t2, b2, m2, a2, containsPoint);
    var s2 := ThreeStep(s1, t2, b2, m2, a2, containsPoint);
    if s2.Some? {
      ThreeWayFrame(s, s1, s2.value, t1, b1, m1, a1, r1, r2, containsPoint, {b2, m2, a2, "tmp_middle_apex"});
    }
  }

  /** With both bands selected, the second tissue is split three ways as on the original folder. */
  lemma ChainSecond(s: SegmentLabel.Store, t1: string, b1: string, m1: string, a1: string,
                    t2: string, b2: string, m2: string, a2: string, containsPoint: (Region, Point) -> bool)
    requires ChainNames(t2, b1, m1, a1, b2, m2, a2)
    requires BandMask(s, 1).Some? && BandMask(s, 2).Some?
    ensures var r := Chain(s, t1, b1, m1, a1, t2, b2, m2, a2, containsPoint);
      r.Some? ==> ThreeWaySplit(s, r.value, t2, b2, m2, a2, BandMask(s, 1).value, BandMask(s, 2).value, containsPoint)
  {
    var s1 := ThreeStep(s, t1, b1, m1, a1, containsPoint);
    if s1.Some? {
      var s2 := ThreeStep(s1.value, t2, b2, m2, a2, containsPoint);
      assert Chain(s, t1, b1, m1, a1, t2, b2, m2, a2, containsPoint) == s2;
      if s2.Some? {
        ThreeStepWrites(s, t1, b1, m1, a1, containsPoint);
        assert BandMask(s1.value, 1) == BandMask(s, 1) && BandMask(s1.value, 2) == BandMask(s, 2);
        ThreeStepSplits(s1.value, t2, b2, m2, a2, containsPoint);
        ThreeWayRebase(s1.value, s, s2.value, t2, b2, m2, a2, BandMask(s, 1).value, BandMask(s, 2).value,
                       containsPoint);
      }
    }
  }

  /** The folder the four calls of the three-sublayer branch leave: myo_trabecular, then endo. */
  function BothThree(s: SegmentLabel.Store, containsPoint: (Region, Point) -> bool): Option<SegmentLabel.Store>
  {
    Chain(s, "myo_trabecular", "myo_trabecular_base", "myo_trabecular_middle", "myo_trabecular_apex",
          "endo", "endo_base", "endo_middle", "endo_apex", containsPoint)
  }

  /** The names of the three-sublayer branch keep apart. */
  lemma BranchNames()
    ensures ChainNames("endo", "myo_trabecular_base", "myo_trabecular_middle", "myo_trabecular_apex",
                       "endo_base", "endo_middle", "endo_apex")
  {
  }

  /** The four calls throw exactly when a band with a selection meets a missing label image. */
  lemma BothThreeThrows(s: SegmentLabel.Store, containsPoint: (Region, Point) -> bool)
    ensures BothThree(s, containsPoint).None?
        <==> ((BandMask(s, 1).Some? && ("myo_trabecular" !in s.labels || "endo" !in s.labels))
              || (BandMask(s, 1).None? && BandMask(s, 2).Some? && "tmp_middle_apex" !in s.labels))
  {
    BranchNames();
    ChainThrows(s, "myo_trabecular", "myo_trabecular_base", "myo_trabecular_middle", "myo_trabecular_apex",
                "endo", "endo_base", "endo_middle", "endo_apex", containsPoint);
  }

  /**
   * The four calls write only the six output names and the temporary label,
   * and nothing at all when neither band has a selection.
   */
  lemma BothThreeWrites(s: SegmentLabel.Store, containsPoint: (Region, Point) -> bool)
    ensures BandMask(s, 1).None? && BandMask(s, 2).None? ==> BothThree(s, containsPoint) == Some(s)
    ensures BothThree(s, containsPoint).Some? ==>
      OnlyWrites(s, BothThree(s, containsPoint).value,
                 {"myo_trabecular_base", "myo_trabecular_middle", "myo_trabecular_apex",
                  "endo_base", "endo_middle", "endo_apex", "tmp_middle_apex"})
  {
    BranchNames();
    ChainWrites(s, "myo_trabecular", "myo_trabecular_base", "myo_trabecular_middle", "myo_trabecular_apex",
                "endo", "endo_base", "endo_middle", "endo_apex", containsPoint);
  }

  /** With both bands selected, each tissue ends up split three ways. */
  lemma BothThreeSplits(s: SegmentLabel.Store, containsPoint: (Region, Point) -> bool)
    requires BandMask(s, 1).Some? && BandMask(s, 2).Some?
    ensures var r := BothThree(s, containsPoint);
      r.Some? ==>
      && ThreeWaySplit(s, r.value, "myo_trabecular", "myo_trabecular_base", "myo_trabecular_middle",
                       "myo_trabecular_apex", BandMask(s, 1).value, BandMask(s, 2).value, containsPoint)
      && ThreeWaySplit(s, r.value, "endo", "endo_base", "endo_middle", "endo_apex",
                       BandMask(s, 1).value, BandMask(s, 2).value, containsPoint)
  {
    BranchNames();
    ChainFirst(s, "myo_trabecular", "myo_trabecular_base", "myo_trabecular_middle", "myo_trabecular_apex",
               "endo", "endo_base", "endo_middle", "endo_apex", containsPoint);
    ChainSecond(s, "myo_trabecular", "myo_trabecular_base", "myo_trabecular_middle", "myo_trabecular_apex",
                "endo", "endo_base", "endo_middle", "endo_apex", containsPoint);
  }

  /** The four `segmentLabel` calls of the three-sublayer branch: myo_trabecular, then endo. */
  method SplitBothThree(s: SegmentLabel.Store, fillHoles: seq<int> -> seq<int>,
                        containsPoint: (Region, Point) -> bool)
    returns (r: Option<SegmentLabel.Store>, disk: SegmentLabel.Store)
    ensures r.Some? ==> disk == r.value
    ensures r.None? ==> ThreeLeft(s, disk, containsPoint)
    ensures r.None? <==> ((BandMask(s, 1).Some? && ("myo_trabecular" !in s.labels || "endo" !in s.labels))
                          || (BandMask(s, 1).None? && BandMask(s, 2).Some? && "tmp_middle_apex" !in s.labels))
    ensures r.Some? ==>
      OnlyWrites(s, r.value, {"myo_trabecular_base", "myo_trabecular_middle", "myo_trabecular_apex",
                              "endo_base", "endo_middle", "endo_apex", "tmp_middle_apex"})
    ensures BandMask(s, 1).None? && BandMask(s, 2).None? ==> r == Some(s)
    ensures r.Some? && BandMask(s, 1).Some? && BandMask(s, 2).Some? ==>
      && ThreeWaySplit(s, r.value, "myo_trabecular", "myo_trabecular_base", "myo_trabecular_middle",
                       "myo_trabecular_apex", BandMask(s, 1).value, BandMask(s, 2).value, containsPoint)
      && ThreeWaySplit(s, r.value, "endo", "endo_base", "endo_middle", "endo_apex",
                       BandMask(s, 1).value, BandMask(s, 2).value, containsPoint)
  {
    var myo := SplitThree(s, "myo_trabecular", "myo_trabecular_base", "myo_trabecular_middle",
                          "myo_trabecular_apex", fillHoles, containsPoint);
    if myo.None? {
      r, disk := None, s;
    } else {
      r := SplitThree(myo.value, "endo", "endo_base", "endo_middle", "endo_apex", fillHoles, containsPoint);
      disk := if r.Some? then r.value else myo.value;
    }
    assert r == BothThree(s, containsPoint);
    BothThreeThrows(s, containsPoint);
    BothThreeWrites(s, containsPoint);
    if BandMask(s, 1).Some? && BandMask(s, 2).Some? {
      BothThreeSplits(s, containsPoint);
    }
  }

  /**
   * The three-sublayer branch of `process`: myo_trabecular and then endo are
   * each split three ways through the temporary label, whose label image and
   * object list are deleted at the end.
   */
  method ThreeLayers(s: SegmentLabel.Store, fillHoles: seq<int> -> seq<int>, containsPoint: (Region, Point) -> bool)
    returns (r: Option<SegmentLabel.Store>, disk: SegmentLabel.Store)
    ensures r.Some? ==> disk == r.value
    ensures r.None? ==> ThreeLeft(s, disk, containsPoint)
    ensures r.None? <==> ((BandMask(s, 1).Some? && ("myo_trabecular" !in s.labels || "endo" !in s.labels))
                          || (BandMask(s, 1).None? && BandMask(s, 2).Some? && "tmp_middle_apex" !in s.labels))
    ensures r.Some? ==>
      && "tmp_middle_apex" !in r.value.labels && "tmp_middle_apex" !in r.value.zips
      && OnlyWrites(s, r.value, {"myo_trabecular_base", "myo_trabecular_middle", "myo_trabecular_apex",
                                 "endo_base", "endo_middle", "endo_apex", "tmp_middle_apex"})
    ensures BandMask(s, 1).None? && BandMask(s, 2).None? ==>
      r == Some(SegmentLabel.Store(s.masks, s.labels - {"tmp_middle_apex"}, s.zips - {"tmp_middle_apex"}))
    ensures r.Some? && BandMask(s, 1).Some? && BandMask(s, 2).Some? ==>
      && ThreeWaySplit(s, r.value, "myo_trabecular", "myo_trabecular_base", "myo_trabecular_middle",
                       "myo_trabecular_apex", BandMask(s, 1).value, BandMask(s, 2).value, containsPoint)
      && ThreeWaySplit(s, r.value, "endo", "endo_base", "endo_middle", "endo_apex",
                       BandMask(s, 1).value, BandMask(s, 2).value, containsPoint)
  {
    var split, left := SplitBothThree(s, fillHoles, containsPoint);
    if split.None? { return None, left; }
    var s2 := split.value;
    var t := SegmentLabel.Store(s2.masks, s2.labels - {"tmp_middle_apex"}, s2.zips - {"tmp_middle_apex"});
    r, disk := Some(t), t;
    var names := {"myo_trabecular_base", "myo_trabecular_middle", "myo_trabecular_apex",
                  "endo_base", "endo_middle", "endo_apex", "tmp_middle_apex"};
    OnlyWritesChain(s, s2, t, names, {"tmp_middle_apex"});
    assert names + {"tmp_middle_apex"} == names;
    if BandMask(s, 1).Some? && BandMask(s, 2).Some? {
      var m1, m2 := BandMask(s, 1).value, BandMask(s, 2).value;
      ThreeWayFrame(s, s2, t, "myo_trabecular", "myo_trabecular_base", "myo_trabecular_middle",
                    "myo_trabecular_apex", m1, m2, containsPoint, {"tmp_middle_apex"});
      ThreeWayFrame(s, s2, t, "endo", "endo_base", "endo_middle", "endo_apex", m1, m2, containsPoint,
                    {"tmp_middle_apex"});
    }
  }

  /** Writing only other names keeps a three-way split's outputs. */
  lemma ThreeWayFrame(before: SegmentLabel.Store, a: SegmentLabel.Store, b: SegmentLabel.Store, tissue: string,
                      base: string, middle: string, apex: string, m1: Region, m2: Region,
                      containsPoint: (Region, Point) -> bool, written: set<string>)
    requires ThreeWaySplit(before, a, tissue, base, middle, apex, m1, m2, containsPoint)
    requires OnlyWrites(a, b, written) && base !in written && middle !in written && apex !in written
    ensures ThreeWaySplit(before, b, tissue, base, middle, apex, m1, m2, containsPoint)
  {
  }

  /** A three-way split depends on the folder before it only through the tissue's label image and objects. */
  lemma ThreeWayRebase(b1: SegmentLabel.Store, b2: SegmentLabel.Store, after: SegmentLabel.Store, tissue: string,
                       base: string, middle: string, apex: string, m1: Region, m2: Region,
                       containsPoint: (Region, Point) -> bool)
    requires ThreeWaySplit(b1, after, tissue, base, middle, apex, m1, m2, containsPoint)
    requires tissue in b2.labels && b1.labels[tissue] == b2.labels[tissue] && Objects(b1, tissue) == Objects(b2, tissue)
    ensures ThreeWaySplit(b2, after, tissue, base, middle, apex, m1, m2, containsPoint)
  {
    assert Cleared(b1, tissue) == Cleared(b2, tissue);
  }

  /** Two runs that each write only their own names together write only the union. */
  lemma OnlyWritesChain(a: SegmentLabel.Store, b: SegmentLabel.Store, c: SegmentLabel.Store,
                        first: set<string>, second: set<string>)
    requires OnlyWrites(a, b, first) && OnlyWrites(b, c, second)
    ensures OnlyWrites(a, c, first + second)
  {
  }

  /**
   * The label splits by the number of sublayers, over a folder whose bands
   * are saved: 2 and 3 run their branches, with their throw conditions,
   * the names they write, their no-selection outcomes and their splits;
   * any other count splits nothing.
   */
  ghost predicate SplitBy(s: SegmentLabel.Store, numSublayers: int, r: Option<SegmentLabel.Store>,
                          containsPoint: (Region, Point) -> bool)
  {
    && (numSublayers != 2 && numSublayers != 3 ==> r == Some(s))
    && (numSublayers == 2 ==>
        (r.None? <==> (BandMask(s, 1).Some? && ("myo_trabecular" !in s.labels || "endo" !in s.labels))))
    && (numSublayers == 2 && BandMask(s, 1).None? ==> r == Some(s))
    && (numSublayers == 2 && r.Some? ==>
        OnlyWrites(s, r.value, {"myo_trabecular_base", "myo_trabecular_apex", "endo_base", "endo_apex"}))
    && (numSublayers == 2 && r.Some? && BandMask(s, 1).Some? ==>
        && TwoWaySplit(s, r.value, "myo_trabecular", "myo_trabecular_base", "myo_trabecular_apex",
                       BandMask(s, 1).value, containsPoint)
        && TwoWaySplit(s, r.value, "endo", "endo_base", "endo_apex", BandMask(s, 1).value, containsPoint))
    && (numSublayers == 3 ==>
        (r.None? <==> ((BandMask(s, 1).Some? && ("myo_trabecular" !in s.labels || "endo" !in s.labels))
                       || (BandMask(s, 1).None? && BandMask(s, 2).Some? && "tmp_middle_apex" !in s.labels))))
    && (numSublayers == 3 && r.Some? ==> "tmp_middle_apex" !in r.value.labels && "tmp_middle_apex" !in r.value.zips)
    && (numSublayers == 3 && r.Some? ==>
        OnlyWrites(s, r.value, {"myo_trabecular_base", "myo_trabecular_middle", "myo_trabecular_apex",
                                "endo_base", "endo_middle", "endo_apex", "tmp_middle_apex"}))
    && (numSublayers == 3 && BandMask(s, 1).None? && BandMask(s, 2).None? ==>
        r == Some(SegmentLabel.Store(s.masks, s.labels - {"tmp_middle_apex"}, s.zips - {"tmp_middle_apex"})))
    && (numSublayers == 3 && r.Some? && BandMask(s, 1).Some? && BandMask(s, 2).Some? ==>
        && ThreeWaySplit(s, r.value, "myo_trabecular", "myo_trabecular_base", "myo_trabecular_middle",
                         "myo_trabecular_apex", BandMask(s, 1).value, BandMask(s, 2).value, containsPoint)
        && ThreeWaySplit(s, r.value, "endo", "endo_base", "endo_middle", "endo_apex",
                         BandMask(s, 1).value, BandMask(s, 2).value, containsPoint))
  }

  /** The folder a throw in the label splits leaves, by the number of sublayers. */
  ghost predicate LeftOnThrow(s: SegmentLabel.Store, numSublayers: int, disk: SegmentLabel.Store,
                              containsPoint: (Region, Point) -> bool)
  {
    && (numSublayers == 2 ==> TwoLeft(s, disk, containsPoint))
    && (numSublayers == 3 ==> ThreeLeft(s, disk, containsPoint))
  }

  /**
   * The label splits of `process` over saved bands, by the number of
   * sublayers: 2 and 3 run their branches, any other count splits nothing.
   * `None` is a run in which a split throws.
   */
  method SplitOnBands(s: SegmentLabel.Store, numSublayers: int, fillHoles: seq<int> -> seq<int>,
                      containsPoint: (Region, Point) -> bool)
    returns (r: Option<SegmentLabel.Store>, disk: SegmentLabel.Store)
    ensures r.Some? ==> r.value.masks == s.masks
    ensures SplitBy(s, numSublayers, r, containsPoint)
    ensures r.Some? ==> disk == r.value
    ensures r.None? ==> LeftOnThrow(s, numSublayers, disk, containsPoint)
  {
    if numSublayers == 2 {
      r, disk := TwoLayers(s, fillHoles, containsPoint);
    } else if numSublayers == 3 {
      r, disk := ThreeLayers(s, fillHoles, containsPoint);
    } else {
      r, disk := Some(s), s;
    }
  }

  /**
   * The inputs `subSegment` opens: the compact myocardium mask, whose
   * processor it clears, and the myo_trabecular label, whose statistics it
   * reads. A missing file opens without a processor and the run throws.
   */
  predicate Opens(store: SegmentLabel.Store)
  {
    "mask_myo_compact.tif" in store.masks && "myo_trabecular" in store.labels
  }

  /** The folder once the bands are saved, before any split. */
  function SavedFolder(store: SegmentLabel.Store, bands: seq<MaskImage>): SegmentLabel.Store
  {
    SegmentLabel.Store(Saved(store.masks, bands), store.labels, store.zips)
  }

  /**
   * What saving the bands and running the splits over their selections
   * leaves: each band under its name, its selection the one the splits see,
   * and every other file kept; then the splits of the sublayer count over
   * that folder, and the folder left on disk, also when a split throws.
   */
  ghost predicate SavedAndSplit(store: SegmentLabel.Store, bands: seq<MaskImage>, numSublayers: int,
                                r: Option<SegmentLabel.Store>, disk: SegmentLabel.Store,
                                containsPoint: (Region, Point) -> bool)
  {
    var saved := SavedFolder(store, bands);
    && Opens(store)
    && |bands| == (if numSublayers > 0 then numSublayers else 0)
    && (forall i :: 1 <= i <= |bands| ==> BandName(i) in saved.masks && saved.masks[BandName(i)] == bands[i - 1])
    && (forall i :: 1 <= i <= |bands| ==> BandMask(saved, i) == bands[i - 1].roi)
    && KeepsOtherFiles(store.masks, saved.masks, |bands|)
    && (r.Some? ==> r.value.masks == saved.masks)
    && SplitBy(saved, numSublayers, r, containsPoint)
    && (r.Some? ==> disk == r.value)
    && (r.None? ==> LeftOnThrow(saved, numSublayers, disk, containsPoint))
  }

  /**
   * The second half of `process`: saves the bands into the folder and runs
   * the label splits over the saved bands' selections.
   */
  method SaveAndSplit(store: SegmentLabel.Store, bands: seq<MaskImage>, numSublayers: int,
                      fillHoles: seq<int> -> seq<int>, containsPoint: (Region, Point) -> bool)
    returns (r: Option<SegmentLabel.Store>, disk: SegmentLabel.Store)
    requires Opens(store)
    requires |bands| == if numSublayers > 0 then numSublayers else 0
    ensures SavedAndSplit(store, bands, numSublayers, r, disk, containsPoint)
  {
    var masks := SaveBands(store.masks, bands);
    var saved := SegmentLabel.Store(masks, store.labels, store.zips);
    r, disk := SplitOnBands(saved, numSublayers, fillHoles, containsPoint);
  }

  /**
   * `process`: cuts the myo_trabecular label's sublayers from the compact
   * myocardium mask, saves band i as "sublayer_myo_trabecular_<i>.tif", then
   * runs the label splits over the saved bands. `None` is a run that throws;
   * without its two inputs it throws before saving any band. `disk` is the
   * folder the run leaves, whether or not it throws. `enlarge` stands for
   * `RoiEnlarger.enlarge` of the compact mask's selection, so `enlarge(0.0)`
   * is that selection.
   */
  method Process(store: SegmentLabel.Store, numSublayers: int, enlarge: real -> Region, bounds: Region -> Region,
                 areaIn: Region -> nat, total: nat, ghost bound: int, fillHoles: seq<int> -> seq<int>,
                 containsPoint: (Region, Point) -> bool)
    returns (expansion: int, bands: seq<MaskImage>, r: Option<SegmentLabel.Store>, disk: SegmentLabel.Store)
    requires forall r :: r >= bound ==> Covered(Coverage(enlarge, areaIn, r), total)
    ensures !Opens(store) ==> r.None? && bands == [] && disk == store
    ensures Opens(store) ==>
      && Searched(enlarge, areaIn, total, expansion)
      && Banded(|store.masks["mask_myo_compact.tif"].samples|, enlarge, bounds, expansion, numSublayers, bands)
      && SavedAndSplit(store, bands, numSublayers, r, disk, containsPoint)
  {
    if !Opens(store) {
      return 0, [], None, store;
    }
    expansion, bands := SubSegment(store.masks["mask_myo_compact.tif"].samples, enlarge, bounds, areaIn, total,
                                   numSublayers, bound);
    r, disk := SaveAndSplit(store, bands, numSublayers, fillHoles, containsPoint);
  }
}
