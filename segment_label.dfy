/**
 * Label partition by centroid: splits a label image and its object list into
 * the objects whose contour centroid lies inside a mask and the others.
 */
module SegmentLabel {
  import opened Regions

  /** Whether the library's `mask.containsPoint` holds for an object's centroid. */
  predicate Inside(containsPoint: (Region, Point) -> bool, mask: Region, roi: Roi)
  {
    containsPoint(mask, roi.centroid)
  }

  /** The objects of `rois` whose centroid test equals `want`, in their original order. */
  function Keep(rois: seq<Roi>, containsPoint: (Region, Point) -> bool, mask: Region, want: bool): (r: seq<Roi>)
    ensures |r| <= |rois|
  {
    if |rois| == 0 then []
    else
      (if Inside(containsPoint, mask, rois[0]) == want then [rois[0]] else [])
      + Keep(rois[1..], containsPoint, mask, want)
  }

  /**
   * The raster `s` after painting, from the last object down to index `lo`,
   * every object whose centroid test equals `want` with its index plus one.
   */
  function PaintFrom(s: seq<int>, rois: seq<Roi>, containsPoint: (Region, Point) -> bool, mask: Region,
                     want: bool, lo: nat): (r: seq<int>)
    ensures |r| == |s|
    decreases |rois| - lo
  {
    if lo >= |rois| then s
    else
      var rest := PaintFrom(s, rois, containsPoint, mask, want, lo + 1);
      if Inside(containsPoint, mask, rois[lo]) == want then Filled(rest, rois[lo].pixels, lo + 1) else rest
  }

  /** The two label images and object lists one split produces. */
  datatype Split = Split(innerRois: seq<Roi>, innerLabel: seq<int>, outerRois: seq<Roi>, outerLabel: seq<int>)

  /**
   * The mask region a split uses: with `closeMask` the mask raster is
   * hole-filled and re-thresholded at 255, otherwise the stored selection.
   */
  function ResolveMask(maskFile: MaskImage, closeMask: bool, fillHoles: seq<int> -> seq<int>): Option<Region>
  {
    if closeMask then Selection(fillHoles(maskFile.samples)) else maskFile.roi
  }

  /**
   * `segmentLabel`: walks the objects from the last index down; an object
   * whose centroid is inside the mask is painted into the inner raster with
   * its index plus one, any other object is deleted from the inner list,
   * appended to the outer list and painted into the outer raster the same
   * way. `None` is the "Mask not found" return, before any output exists.
   */
  method Segment(maskFile: MaskImage, closeMask: bool, fillHoles: seq<int> -> seq<int>,
                 containsPoint: (Region, Point) -> bool, rois: seq<Roi>, labelSamples: seq<int>)
    returns (r: Option<Split>)
    ensures r.None? <==> ResolveMask(maskFile, closeMask, fillHoles).None?
    ensures r.Some? ==>
      var mask := ResolveMask(maskFile, closeMask, fillHoles).value;
      var zero := Constant(|labelSamples|, 0);
      && r.value.innerRois == Keep(rois, containsPoint, mask, true)
      && r.value.outerRois == Reversed(Keep(rois, containsPoint, mask, false))
      && r.value.innerLabel == PaintFrom(zero, rois, containsPoint, mask, true, 0)
      && r.value.outerLabel == PaintFrom(zero, rois, containsPoint, mask, false, 0)
  {
    var found := ResolveMask(maskFile, closeMask, fillHoles);
    if found.None? {
      return None;
    }
    var mask := found.value;

    // The base label is cleared and duplicated, so both outputs start all-zero.
    var innerIp := Duplicate(labelSamples);
    FillAll(innerIp, 0);
    var outerIp := Duplicate(innerIp[..]);
    ghost var zero := Constant(|labelSamples|, 0);

    var baseList := rois;
    var altList: seq<Roi> := [];
    var i := |rois| - 1;
    assert rois[..i + 1] == rois && rois[i + 1..] == [];
    while i >= 0
      invariant -1 <= i < |rois|
      invariant baseList == rois[..i + 1] + Keep(rois[i + 1..], containsPoint, mask, true)
      invariant altList == Reversed(Keep(rois[i + 1..], containsPoint, mask, false))
      invariant innerIp[..] == PaintFrom(zero, rois, containsPoint, mask, true, i + 1)
      invariant outerIp[..] == PaintFrom(zero, rois, containsPoint, mask, false, i + 1)
    {
      baseList, altList := Visit(innerIp, outerIp, baseList, altList, rois, containsPoint, mask, i, zero);
      i := i - 1;
    }
    assert i == -1 && rois[..0] == [] && rois[0..] == rois;
    return Some(Split(baseList, innerIp[..], altList, outerIp[..]));
  }

  /**
   * One object of the descending walk: painted into the inner raster if its
   * centroid is inside the mask, otherwise deleted from the inner list,
   * appended to the outer list and painted into the outer raster.
   */
  method Visit(innerIp: array<int>, outerIp: array<int>, baseList: seq<Roi>, altList: seq<Roi>, rois: seq<Roi>,
               containsPoint: (Region, Point) -> bool, mask: Region, i: int, ghost zero: seq<int>)
    returns (nextBase: seq<Roi>, nextAlt: seq<Roi>)
    requires innerIp != outerIp && 0 <= i < |rois|
    requires baseList == rois[..i + 1] + Keep(rois[i + 1..], containsPoint, mask, true)
    requires altList == Reversed(Keep(rois[i + 1..], containsPoint, mask, false))
    requires innerIp[..] == PaintFrom(zero, rois, containsPoint, mask, true, i + 1)
    requires outerIp[..] == PaintFrom(zero, rois, containsPoint, mask, false, i + 1)
    modifies innerIp, outerIp
    ensures nextBase == rois[..i] + Keep(rois[i..], containsPoint, mask, true)
    ensures nextAlt == Reversed(Keep(rois[i..], containsPoint, mask, false))
    ensures innerIp[..] == PaintFrom(zero, rois, containsPoint, mask, true, i)
    ensures outerIp[..] == PaintFrom(zero, rois, containsPoint, mask, false, i)
  {
    KeepStep(rois, containsPoint, mask, i);
    if containsPoint(mask, rois[i].centroid) {
      nextBase, nextAlt := baseList, altList;
      FillRegion(innerIp, rois[i].pixels, i + 1);
    } else {
      assert baseList[..i] == rois[..i] && baseList[i + 1..] == Keep(rois[i + 1..], containsPoint, mask, true);
      nextBase := baseList[..i] + baseList[i + 1..];
      nextAlt := altList + [rois[i]];
      FillRegion(outerIp, rois[i].pixels, i + 1);
    }
  }

  /** One step of the descending walk: what `Keep` gains when index `i` is taken in. */
  lemma KeepStep(rois: seq<Roi>, containsPoint: (Region, Point) -> bool, mask: Region, i: int)
    requires 0 <= i < |rois|
    ensures rois[..i + 1] == rois[..i] + [rois[i]]
    ensures forall want: bool ::
      Keep(rois[i..], containsPoint, mask, want)
      == (if Inside(containsPoint, mask, rois[i]) == want then [rois[i]] else []) + Keep(rois[i + 1..], containsPoint, mask, want)
    ensures Reversed(Keep(rois[i..], containsPoint, mask, false))
      == Reversed(Keep(rois[i + 1..], containsPoint, mask, false)) + (if Inside(containsPoint, mask, rois[i]) then [] else [rois[i]])
  {
    assert rois[i..][1..] == rois[i + 1..];
    var rest := Keep(rois[i + 1..], containsPoint, mask, false);
    if !Inside(containsPoint, mask, rois[i]) {
      assert Keep(rois[i..], containsPoint, mask, false) == [rois[i]] + rest;
      assert ([rois[i]] + rest)[1..] == rest;
    } else {
      assert Keep(rois[i..], containsPoint, mask, false) == [] + rest == rest;
      assert rest + [] == rest;
    }
  }

  /** Every object lands in exactly one of the two lists: together they hold the input's objects. */
  lemma {:induction false} KeepPartition(rois: seq<Roi>, containsPoint: (Region, Point) -> bool, mask: Region)
    ensures multiset(Keep(rois, containsPoint, mask, true)) + multiset(Keep(rois, containsPoint, mask, false))
         == multiset(rois)
  {
    if |rois| > 0 {
      var head := [rois[0]];
      KeepPartition(rois[1..], containsPoint, mask);
      assert rois == head + rois[1..];
      if Inside(containsPoint, mask, rois[0]) {
        assert Keep(rois, containsPoint, mask, true) == head + Keep(rois[1..], containsPoint, mask, true);
        assert Keep(rois, containsPoint, mask, false) == Keep(rois[1..], containsPoint, mask, false);
      } else {
        assert Keep(rois, containsPoint, mask, true) == Keep(rois[1..], containsPoint, mask, true);
        assert Keep(rois, containsPoint, mask, false) == head + Keep(rois[1..], containsPoint, mask, false);
      }
    }
  }

  /** The inner list holds exactly the input objects inside the mask, the outer one exactly the others. */
  lemma {:induction false} KeepMembers(rois: seq<Roi>, containsPoint: (Region, Point) -> bool, mask: Region,
                                       want: bool, x: Roi)
    ensures x in Keep(rois, containsPoint, mask, want) <==> x in rois && Inside(containsPoint, mask, x) == want
  {
    if |rois| > 0 {
      KeepMembers(rois[1..], containsPoint, mask, want, x);
      assert rois == [rois[0]] + rois[1..];
    }
  }

  /**
   * A split is a complete, non-overlapping partition: the inner and outer
   * object lists (the outer one in reverse order) hold every input object
   * exactly as often as the input does.
   */
  lemma SplitPartitions(rois: seq<Roi>, containsPoint: (Region, Point) -> bool, mask: Region)
    ensures multiset(Keep(rois, containsPoint, mask, true))
          + multiset(Reversed(Keep(rois, containsPoint, mask, false))) == multiset(rois)
    ensures |Keep(rois, containsPoint, mask, true)| + |Reversed(Keep(rois, containsPoint, mask, false))| == |rois|
  {
    KeepPartition(rois, containsPoint, mask);
    ReversedSameElements(Keep(rois, containsPoint, mask, false));
    assert |multiset(rois)| == |rois|;
  }

  /**
   * What a painted pixel means: 0 when no selected object from `lo` on covers
   * it; otherwise the original index plus one of the lowest-indexed selected
   * object covering it (the descending walk paints that one last). Labels are
   * never renumbered.
   */
  lemma {:induction false} PaintedPixel(s: seq<int>, rois: seq<Roi>, containsPoint: (Region, Point) -> bool,
                                        mask: Region, want: bool, lo: nat, p: int)
    requires 0 <= p < |s|
    requires forall q :: 0 <= q < |s| ==> s[q] == 0
    ensures var v := PaintFrom(s, rois, containsPoint, mask, want, lo)[p];
      && (v == 0 <==> forall j :: lo <= j < |rois| ==> !(Inside(containsPoint, mask, rois[j]) == want && p in rois[j].pixels))
      && (v != 0 ==> lo < v <= |rois| && Inside(containsPoint, mask, rois[v - 1]) == want && p in rois[v - 1].pixels
                     && forall j :: lo <= j < v - 1 ==> !(Inside(containsPoint, mask, rois[j]) == want && p in rois[j].pixels))
    decreases |rois| - lo
  {
    if lo < |rois| {
      PaintedPixel(s, rois, containsPoint, mask, want, lo + 1, p);
    }
  }

  /** The named files of one specimen folder, as far as the splits read and write them. */
  datatype Store = Store(masks: map<string, MaskImage>, labels: map<string, seq<int>>, zips: map<string, seq<Roi>>)

  /**
   * `segmentLabel` on one specimen folder: reads the mask file, the base
   * label and its object list, and writes the inner and outer labels and
   * object lists. `None` is a run that throws: the label image is missing, or
   * the mask file is missing when it has to be hole-filled. A missing object
   * list opens as an empty one.
   */
  method SegmentStored(store: Store, maskName: string, baseLabel: string, innerLabel: string, outerLabel: string,
                       closeMask: bool, fillHoles: seq<int> -> seq<int>, containsPoint: (Region, Point) -> bool)
    returns (r: Option<Store>)
    ensures r.None? <==> ((maskName !in store.masks && closeMask)
                          || (maskName in store.masks && ResolveMask(store.masks[maskName], closeMask, fillHoles).Some?
                              && baseLabel !in store.labels))
    ensures r.Some? && maskName in store.masks && ResolveMask(store.masks[maskName], closeMask, fillHoles).Some? ==>
      var mask := ResolveMask(store.masks[maskName], closeMask, fillHoles).value;
      var rois := if baseLabel in store.zips then store.zips[baseLabel] else [];
      var zero := Constant(|store.labels[baseLabel]|, 0);
      r.value == Store(store.masks,
                       store.labels[innerLabel := PaintFrom(zero, rois, containsPoint, mask, true, 0)]
                                   [outerLabel := PaintFrom(zero, rois, containsPoint, mask, false, 0)],
                       store.zips[innerLabel := Keep(rois, containsPoint, mask, true)]
                                 [outerLabel := Reversed(Keep(rois, containsPoint, mask, false))])
    ensures r.Some? && !(maskName in store.masks && ResolveMask(store.masks[maskName], closeMask, fillHoles).Some?) ==>
      r.value == store
  {
    if maskName !in store.masks {
      if closeMask {
        return None;
      }
      // An image that failed to open carries no selection: "Mask not found".
      return Some(store);
    }
    if ResolveMask(store.masks[maskName], closeMask, fillHoles).Some? && baseLabel !in store.labels {
      return None;
    }
    var rois := if baseLabel in store.zips then store.zips[baseLabel] else [];
    var labelSamples := if baseLabel in store.labels then store.labels[baseLabel] else [];
    var split := Segment(store.masks[maskName], closeMask, fillHoles, containsPoint, rois, labelSamples);
    if split.None? {
      return Some(store);
    }
    var s := split.value;
    return Some(Store(store.masks,
                      store.labels[innerLabel := s.innerLabel][outerLabel := s.outerLabel],
                      store.zips[innerLabel := s.innerRois][outerLabel := s.outerRois]));
  }

  /** The configuration one run of the command passes to `segmentLabel`. */
  datatype Request = Request(maskName: string, baseLabel: string, innerLabel: string, outerLabel: string,
                             closeMask: bool)

  /** The preset table: (base, mask, inner, outer) for each of the four named presets. */
  function Preset(name: string): Option<(string, string, string, string)>
  {
    if name == "roi -> myo/endo" then Some(("roi", "myo", "myo", "endo"))
    else if name == "myo -> compact/trabecular" then Some(("myo", "myo_compact", "myo_compact", "myo_trabecular"))
    else if name == "endo -> endo/epi" then Some(("endo", "epi", "epi", "endo"))
    else if name == "endo -> endo/coronaries" then Some(("endo", "myo_compact", "coronaries", "endo"))
    else None
  }

  /** The command's configuration fields. */
  class Command {
    var baseLabel: string
    var segmentationMask: string
    var innerLabel: string
    var outerLabel: string
    var segmentationPreset: string

    /** The fields start from the stored preferences. */
    constructor (baseLabel: string, segmentationMask: string, innerLabel: string, outerLabel: string,
                 segmentationPreset: string)
      ensures this.baseLabel == baseLabel && this.segmentationMask == segmentationMask
      ensures this.innerLabel == innerLabel && this.outerLabel == outerLabel
      ensures this.segmentationPreset == segmentationPreset
    {
      this.baseLabel := baseLabel;
      this.segmentationMask := segmentationMask;
      this.innerLabel := innerLabel;
      this.outerLabel := outerLabel;
      this.segmentationPreset := segmentationPreset;
    }

    /** `updateSegmentation`: a named preset sets all four fields; any other leaves them. */
    method UpdateSegmentation()
      modifies this
      ensures segmentationPreset == old(segmentationPreset)
      ensures Preset(segmentationPreset).Some? ==>
        (baseLabel, segmentationMask, innerLabel, outerLabel) == Preset(segmentationPreset).value
      ensures Preset(segmentationPreset).None? ==>
        baseLabel == old(baseLabel) && segmentationMask == old(segmentationMask)
        && innerLabel == old(innerLabel) && outerLabel == old(outerLabel)
    {
      if segmentationPreset == "roi -> myo/endo" {
        baseLabel, segmentationMask, innerLabel, outerLabel := "roi", "myo", "myo", "endo";
      } else if segmentationPreset == "myo -> compact/trabecular" {
        baseLabel, segmentationMask, innerLabel, outerLabel := "myo", "myo_compact", "myo_compact", "myo_trabecular";
      } else if segmentationPreset == "endo -> endo/epi" {
        baseLabel, segmentationMask, innerLabel, outerLabel := "endo", "epi", "epi", "endo";
      } else if segmentationPreset == "endo -> endo/coronaries" {
        baseLabel, segmentationMask, innerLabel, outerLabel := "endo", "myo_compact", "coronaries", "endo";
      }
    }

    /** `process`: the mask file is "mask_<mask>.tif"; holes are filled iff the inner label is "coronaries". */
    method Process() returns (req: Request)
      ensures req.closeMask <==> innerLabel == "coronaries"
      ensures req.maskName == "mask_" + segmentationMask + ".tif"
      ensures req.baseLabel == baseLabel && req.innerLabel == innerLabel && req.outerLabel == outerLabel
    {
      if innerLabel == "coronaries" {
        req := Request("mask_" + segmentationMask + ".tif", baseLabel, innerLabel, outerLabel, true);
      } else {
        req := Request("mask_" + segmentationMask + ".tif", baseLabel, innerLabel, outerLabel, false);
      }
    }
  }
}
