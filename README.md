# gdmn Fiji plugin: a Dafny model of the image-processing core

This project models the commands of the gdmn ImageJ/Fiji plugin that do
the scientific work on one specimen folder:

- **Clean Channels** takes crosstalk out of the four fluorescence channels.
  The nuclear channel gets a dilation-weighted double pass against the myo
  and endo channels. Myo and endo are cleaned against each other.
- **Create Nuclear Label** post-processes the detector's nuclei. Objects
  below the area threshold are deleted, the label image is promoted to
  16 bits when more than 255 objects remain, and the survivors are painted
  1..K. The older batch command repeats this step line for line.
- **Segment Label** splits a label image and its object list in two, by
  whether each object's contour centroid lies in a mask. It also covers the
  command's four presets.
- **Segment Sublayers** searches for the enlargement radius of the compact
  myocardium mask that covers 95% of the trabecular label's area, from a
  step of 128 down to 1. It cuts that radius into concentric band masks,
  then chains label splits over the bands into base/apex or
  base/middle/apex sub-populations.
- **Masks.and** intersects mask images.
- **Quantify** counts active nuclei per object list and paints the marker
  image. It also lists mask and sublayer areas, and updates the preview
  image.
- **Collate Data** gathers every folder's `data.txt` into one CSV.
- **Create Folders** builds a folder hierarchy from an image's file name.

A raster is a flat, row-major sequence of samples. It is an `array<int>`
wherever the source fills an image processor in place, and a `seq<int>`
for a saved file. A selection (ROI) is the set of pixel indices it covers.
A detected object is a `Roi` value: its pixels, its contour centroid and
its area. ImageJ's 8-bit arithmetic is written out: a difference saturates
at 0 and `multiply` rounds half up before clamping to 0..255.

The library routines are function parameters: dilation, `RoiEnlarger`, the
bounding rectangle of a selection, the label-area measurement, `containsPoint`, "Fill Holes", mean intensity,
area, decimal rendering of a double, and the reading of `data.txt`. A
specimen folder is a `Store`, which maps logical names to masks, label
rasters and object lists. A command that throws is an `Option` result of
`None`. Where a throw comes after earlier calls have already saved files,
the folder the run leaves is returned beside it (`disk` in Segment
Sublayers).

Where the code and the specification disagree, the model follows the code:

- The specification says a zero-area mask fails with a
  missing-reference-region error. `segmentLabel` stops only when the mask
  selection is null. `subSegment` does not check at all: with zero label
  area its expansion ends at −254.
- The specification says the last sublayer band fills everything the
  outer boundary misses, so the bands cover the whole raster outside the
  mask. The code's `fill()` paints the bounding rectangle of the outermost
  enlargement, so pixels beyond that rectangle are in no band.
- The specification says mismatched channel sizes fail. The code does not
  check, so equal sizes are a precondition here.

## Model

| member | source | states |
|---|---|---|
| SegmentSublayers.CoverageSearch | src/main/java/org/gdmn/imagej/process/SegmentSublayers.java:89-104 | Coverage at radius r is the label area inside the mask enlarged by r. Exactly the steps 128, 64, …, 1 are used. With zero total area the result is −254. Otherwise the result is ≥ 1 and reaches 95% coverage, while one less does not (or the result is 1). With monotone coverage, no smaller radius from 1 up reaches 95%. |
| SegmentSublayers.CoverageMonotone | src/main/java/org/gdmn/imagej/process/SegmentSublayers.java:96-100 | A monotone enlargement measured by a monotone area gives monotone coverage, which the minimality clause of CoverageSearch assumes. |
| SegmentSublayers.BuildBand | src/main/java/org/gdmn/imagej/process/SegmentSublayers.java:107-128 | A band pixel is 255 exactly when it lies inside the i-th enlargement and outside the (i−1)-th; otherwise it is 0. For the last band, `fill()` also paints the bounding rectangle of the outermost enlargement, the rectangle ImageJ keeps for the selection just set. The saved selection is the 255-region. |
| SegmentSublayers.SubSegment | src/main/java/org/gdmn/imagej/process/SegmentSublayers.java:74-131 | Returns the searched radius and exactly n bands (none for n < 1). Band i has the mask's size, the band membership of BuildBand, and its thresholded selection. |
| SegmentSublayers.RadiusMonotone | src/main/java/org/gdmn/imagej/process/SegmentSublayers.java:110-120 | The boundary radius `expansion * i / n` grows with i. |
| SegmentSublayers.BandsPartition | src/main/java/org/gdmn/imagej/process/SegmentSublayers.java:107-128 | With a monotone enlargement and a non-negative radius, the bands are pairwise disjoint. A pixel lies in some band exactly when it is outside the unenlarged mask and inside the outermost enlargement or its bounding rectangle. A pixel beyond that rectangle is in no band. |
| SegmentSublayers.BandNameInjective | src/main/java/org/gdmn/imagej/process/SegmentSublayers.java:128 | Different band numbers are saved under different file names. |
| SegmentSublayers.SavedBands | src/main/java/org/gdmn/imagej/process/SegmentSublayers.java:107-130 | After bands 1..n are saved in turn, band k is stored under its own name. |
| SegmentSublayers.SavedKeeps | src/main/java/org/gdmn/imagej/process/SegmentSublayers.java:107-130 | Saving bands 1..n keeps every file not named for one of them: present exactly when before, with the same content. |
| SegmentSublayers.SaveBands | src/main/java/org/gdmn/imagej/process/SegmentSublayers.java:107-130 | After saving, band i (1-based) is stored under "sublayer_myo_trabecular_i.tif". Every other file of the folder is present exactly when it was before and holds what it held. The result is the folder of SavedBands and SavedKeeps. |
| SegmentSublayers.SplitWithSplits | src/main/java/org/gdmn/imagej/process/SegmentLabel.java:141-168 | Splitting a tissue on a region writes the inner label and list (the objects whose centroid is inside, in list order, each painted with its index in the tissue's list + 1 on a cleared raster of the tissue's size) and the outer ones (the others, in walk order, painted the same way). |
| SegmentSublayers.SplitWithWrites | src/main/java/org/gdmn/imagej/process/SegmentLabel.java:141-168 | A split changes no mask and no label image or object list other than its inner and outer names. |
| SegmentSublayers.SplitOn | src/main/java/org/gdmn/imagej/process/SegmentSublayers.java:45-49 | One `segmentLabel` call on a band. Without a band selection the folder is unchanged. With one and no label image for the tissue it throws (None), and only then. Otherwise the folder is SplitWith on the band's selection. |
| SegmentSublayers.ThreeStepThrows | src/main/java/org/gdmn/imagej/process/SegmentSublayers.java:51-56 | The two calls for one tissue throw exactly when band 1 is selected and the tissue's label is missing, or band 1 is not but band 2 is and the temporary label is missing. |
| SegmentSublayers.ThreeStepWrites | src/main/java/org/gdmn/imagej/process/SegmentSublayers.java:51-56 | The two calls write only base, middle, apex and the temporary label. Afterwards the temporary label exists exactly when band 1 was selected or it existed before. |
| SegmentSublayers.ThreeStepUnselected | src/main/java/org/gdmn/imagej/process/SegmentSublayers.java:51-56 | With neither band selected, the two calls leave the folder unchanged. |
| SegmentSublayers.ThreeStepPartial | src/main/java/org/gdmn/imagej/process/SegmentSublayers.java:51-56 | With only band 1 selected, the tissue is split two ways into base and the temporary label. With only band 2 selected, the temporary label is split two ways into middle and apex. |
| SegmentSublayers.ThreeStepSplits | src/main/java/org/gdmn/imagej/process/SegmentSublayers.java:51-56 | With both bands selected, base, middle and apex hold the three-way split; the middle and apex rasters are painted with positions in the temporary list. |
| SegmentSublayers.SplitThree | src/main/java/org/gdmn/imagej/process/SegmentSublayers.java:51-56 | Runs the two calls. It throws exactly as ThreeStepThrows says, writes only the names of ThreeStepWrites, changes nothing without selections, and leaves the two-way or three-way splits of ThreeStepPartial and ThreeStepSplits. |
| SegmentSublayers.TwoWayPartitions | src/main/java/org/gdmn/imagej/process/SegmentSublayers.java:44-49 | The base and apex lists together hold exactly the tissue's objects, as a multiset. |
| SegmentSublayers.ThreeWayPartitions | src/main/java/org/gdmn/imagej/process/SegmentSublayers.java:50-60 | The base, middle and apex lists together hold exactly the tissue's objects, as a multiset. |
| SegmentSublayers.TwoLayers | src/main/java/org/gdmn/imagej/process/SegmentSublayers.java:44-49 | Throws exactly when band 1 is selected and the myo_trabecular or endo label is missing. No band-1 selection changes nothing. Only the four output names are written. With a selection, both tissues get the two-way split's labels and lists. When the endo call throws, the returned folder keeps the myo_trabecular base and apex already written (TwoLeft). |
| SegmentSublayers.TwoWayFrame | src/main/java/org/gdmn/imagej/process/SegmentSublayers.java:48-49 | A later call that writes other names keeps a tissue's two-way split. |
| SegmentSublayers.TwoWayRebase | src/main/java/org/gdmn/imagej/process/SegmentSublayers.java:48-49 | The endo split, computed on the folder after the myo_trabecular split, is the one on the original folder: it depends only on endo's label image and objects. |
| SegmentSublayers.ChainThrows | src/main/java/org/gdmn/imagej/process/SegmentSublayers.java:50-60 | Two tissues split three ways one after the other throw exactly when band 1 is selected and either tissue's label is missing, or band 1 is not but band 2 is and the temporary label is missing. |
| SegmentSublayers.ChainWrites | src/main/java/org/gdmn/imagej/process/SegmentSublayers.java:50-60 | Two chained three-way splits write only their six outputs and the temporary label, and change nothing when neither band is selected. |
| SegmentSublayers.ChainFirst | src/main/java/org/gdmn/imagej/process/SegmentSublayers.java:50-60 | With both bands selected, the first tissue's three-way split survives the second tissue's calls. |
| SegmentSublayers.SecondKeepsFirst | src/main/java/org/gdmn/imagej/process/SegmentSublayers.java:57-60 | The second tissue's calls keep a three-way split of the first tissue whose outputs they do not name. |
| SegmentSublayers.ChainSecond | src/main/java/org/gdmn/imagej/process/SegmentSublayers.java:57-60 | With both bands selected, the second tissue is split three ways exactly as it would be on the original folder. |
| SegmentSublayers.BothThreeThrows | src/main/java/org/gdmn/imagej/process/SegmentSublayers.java:50-60 | The four calls throw exactly when band 1 is selected and a tissue label is missing, or band 1 is not but band 2 is and the temporary label is missing. |
| SegmentSublayers.BothThreeWrites | src/main/java/org/gdmn/imagej/process/SegmentSublayers.java:50-60 | The four calls write only the six output names and the temporary label, and nothing when neither band is selected. |
| SegmentSublayers.BothThreeSplits | src/main/java/org/gdmn/imagej/process/SegmentSublayers.java:50-60 | With both bands selected, myo_trabecular and endo each end up with the three-way split's labels and lists. |
| SegmentSublayers.SplitBothThree | src/main/java/org/gdmn/imagej/process/SegmentSublayers.java:50-60 | The four calls: the throw condition, the written names, the no-selection no-op and the three-way splits of BothThreeThrows, BothThreeWrites and BothThreeSplits. When the endo call throws, the returned folder keeps the myo_trabecular outputs and the temporary label image and object list already written (ThreeLeft). |
| SegmentSublayers.ThreeLayers | src/main/java/org/gdmn/imagej/process/SegmentSublayers.java:50-62 | As SplitBothThree, and then the temporary label image and object list are absent. With no band selected, only the temporary files are removed. A throw leaves the folder of SplitBothThree's throw, temporary files included. |
| SegmentSublayers.ThreeWayFrame | src/main/java/org/gdmn/imagej/process/SegmentSublayers.java:57-62 | Later calls that write other names keep a tissue's three-way split. |
| SegmentSublayers.ThreeWayRebase | src/main/java/org/gdmn/imagej/process/SegmentSublayers.java:57-60 | The endo split, computed on the folder after the myo_trabecular split, is the one on the original folder: it depends only on endo's label image and objects. |
| SegmentSublayers.OnlyWritesChain | src/main/java/org/gdmn/imagej/process/SegmentSublayers.java:44-62 | Two runs that write only their own names together write only the union. |
| SegmentSublayers.SplitOnBands | src/main/java/org/gdmn/imagej/process/SegmentSublayers.java:44-63 | Masks are never changed. For 2 sublayers: the TwoLayers throw condition, no-op, written names and two-way splits. For 3: the ThreeLayers throw condition, written names, deleted temporary files, no-selection case and three-way splits. Any other count changes nothing. On a throw, the folder left holds exactly what the myo_trabecular calls wrote, for each count. |
| SegmentSublayers.SaveAndSplit | src/main/java/org/gdmn/imagej/process/SegmentSublayers.java:41-63 | Saves the bands and runs the splits over the folder that results. Each band is stored under its name and is the selection the splits see; every other file is kept and no split changes a mask. On that folder, labels and object lists change only under the written names of the sublayer count, with the throw conditions, no-selection outcomes and splits of SplitOnBands, and on a throw the folder SplitOnBands leaves. |
| SegmentSublayers.Process | src/main/java/org/gdmn/imagej/process/SegmentSublayers.java:39-87 | Without the compact myocardium mask or the myo_trabecular label it throws (None) and saves no band. Otherwise it carries the coverage results of the search, including minimality under monotone coverage. Each band has the band membership of BuildBand and its thresholded selection, and is saved under its name; every other file is kept. On the folder with the bands saved, labels and object lists change only under the written names, with the splits of SplitOnBands. A count other than 2 or 3 leaves them untouched. The folder left is returned also when a split throws, with the files the earlier calls wrote; without the two inputs it is the folder unchanged. |
| SegmentLabel.Segment | src/main/java/org/gdmn/imagej/process/SegmentLabel.java:107-154 | "Mask not found" (None) happens exactly when there is no mask selection. Otherwise the inner list holds the objects inside the mask in their original order. The outer list holds the others in descending order. Each raster is that selection painted with index + 1 on a cleared copy. |
| SegmentLabel.Visit | src/main/java/org/gdmn/imagej/process/SegmentLabel.java:142-153 | One object of the descending walk: the lists and both rasters go from their state after objects i+1.. to their state after objects i.., as Keep and PaintFrom define it. |
| SegmentLabel.KeepStep | src/main/java/org/gdmn/imagej/process/SegmentLabel.java:142-154 | One step of the descending walk adds exactly object i to the list it belongs to. |
| SegmentLabel.KeepPartition | src/main/java/org/gdmn/imagej/process/SegmentLabel.java:142-154 | The inner and outer lists together are the input, as a multiset. |
| SegmentLabel.KeepMembers | src/main/java/org/gdmn/imagej/process/SegmentLabel.java:142-154 | An object is in the inner (outer) list exactly when it is an input object inside (outside) the mask. |
| SegmentLabel.SplitPartitions | src/main/java/org/gdmn/imagej/process/SegmentLabel.java:141-168 | The saved inner list and the reversed outer list hold every input object exactly as often as the input does, and their lengths add up to the input's. |
| SegmentLabel.PaintedPixel | src/main/java/org/gdmn/imagej/process/SegmentLabel.java:135-153 | An output pixel is 0 exactly when no selected object covers it. Otherwise its value is the original index + 1 of the lowest-indexed selected object covering it. Indices are never renumbered. |
| SegmentLabel.SegmentStored | src/main/java/org/gdmn/imagej/process/SegmentLabel.java:107-170 | States when a run throws. With a mask selection, it writes the inner and outer labels and object lists computed by Segment and nothing else. Without one, the folder is unchanged. |
| SegmentLabel.Command.UpdateSegmentation | src/main/java/org/gdmn/imagej/process/SegmentLabel.java:65-87 | Each of the four named presets sets base, mask, inner and outer to its table entry. Any other preset name leaves all four unchanged. |
| SegmentLabel.Command.Process | src/main/java/org/gdmn/imagej/process/SegmentLabel.java:90-95 | The mask file is "mask_<mask>.tif", and holes are filled exactly when the inner label is "coronaries". |
| CleanChannels.Clamp | src/main/java/org/gdmn/imagej/process/CleanChannels.java:135-137 | Byte saturation: the result is in 0..255, a byte is unchanged, and a negative value becomes 0. |
| CleanChannels.HalfRoundsUp | src/main/java/org/gdmn/imagej/process/CleanChannels.java:136 | `multiply(0.5)` on a byte v gives (v + 1) / 2. |
| CleanChannels.Difference | src/main/java/org/gdmn/imagej/process/CleanChannels.java:135 | Pixelwise saturating a − b. |
| CleanChannels.Scaled | src/main/java/org/gdmn/imagej/process/CleanChannels.java:136 | Pixelwise rounded, clamped product. |
| CleanChannels.SubtractCreate | src/main/java/org/gdmn/imagej/process/CleanChannels.java:107-111 | "subtract create" gives a new raster equal to the saturating difference. |
| CleanChannels.SubtractInPlace | src/main/java/org/gdmn/imagej/process/CleanChannels.java:137 | "subtract" overwrites the first image with the saturating difference. |
| CleanChannels.Multiply | src/main/java/org/gdmn/imagej/process/CleanChannels.java:106 | `multiply(c)` overwrites the image with the rounded, clamped product. |
| CleanChannels.PassClean | src/main/java/org/gdmn/imagej/process/CleanChannels.java:132-141 | The base image becomes base − ½(pass − dilate(base)), saturated at each step. |
| CleanChannels.PassCleanedBounds | src/main/java/org/gdmn/imagej/process/CleanChannels.java:132-141 | A cleaned pixel is a byte and never exceeds the base pixel. It equals the base pixel exactly where the passer is no brighter than the dilated base, or the base is 0. |
| CleanChannels.IndexOf | src/main/java/org/gdmn/imagej/process/CleanChannels.java:78-82 | `indexOf`: None exactly when the role is absent; otherwise the first position holding it. |
| CleanChannels.CleanNuclei | src/main/java/org/gdmn/imagej/process/CleanChannels.java:91-101 | The nuclear channel is cleaned against myo, then against endo, each pass applied only when that channel exists. |
| CleanChannels.CleanPair | src/main/java/org/gdmn/imagej/process/CleanChannels.java:103-116 | With both myo and endo present: cleaned myo is myo − c·endo, and cleaned endo is endo − the original myo. |
| CleanChannels.LayoutLookups | src/main/java/org/gdmn/imagej/process/CleanChannels.java:91-122 | The save order is nuclei, myo, endo, marker, each present only when produced. Each file name reads back the raster saved for it. |
| CleanChannels.Clean | src/main/java/org/gdmn/imagej/process/CleanChannels.java:77-122 | The saved files are in that order, with exactly the contents above. The marker channel is saved unchanged. |
| CleanChannels.CleaningOnlyDarkens | src/main/java/org/gdmn/imagej/process/CleanChannels.java:91-116 | Every cleaned channel is pointwise between 0 and its original. |
| NuclearLabel.SurvivorMembers | src/main/java/org/gdmn/imagej/process/CreateNuclearLabel.java:103-111 | An object survives exactly when it was detected and its area is not below the threshold. |
| NuclearLabel.SurvivorsConcat | src/main/java/org/gdmn/imagej/process/CreateNuclearLabel.java:103-111 | Deletion keeps the survivors' relative order. |
| NuclearLabel.PaintedPixel | src/main/java/org/gdmn/imagej/process/CreateNuclearLabel.java:120-125 | A relabelled pixel is 0 when no survivor covers it, otherwise k + 1 for the last survivor k covering it. |
| NuclearLabel.LabelsFitByte | src/main/java/org/gdmn/imagej/process/CreateNuclearLabel.java:113-125 | With at most 255 survivors every label value fits in a byte. |
| NuclearLabel.DeleteSmall | src/main/java/org/gdmn/imagej/process/CreateNuclearLabel.java:103-111 | The descending deletion loop leaves exactly the objects with area not below the threshold, in their original order. |
| NuclearLabel.Relabel | src/main/java/org/gdmn/imagej/process/CreateNuclearLabel.java:97-125 | The saved list is the survivors in order. The image is promoted to 16 bits exactly when more than 255 survive. The raster is the cleared raster with survivor i painted i + 1. The batch command (process/BatchStardist.java, lines 75-103) repeats this step line for line. |
| Masks.Intersected | src/main/java/org/gdmn/imagej/utils/Masks.java:17-24 | A pixel keeps its value exactly when every later mask has no selection or contains it; otherwise it is 0. |
| Masks.And | src/main/java/org/gdmn/imagej/utils/Masks.java:16-29 | Returns a copy of the first image, 0 outside every later selection, with the selection re-extracted at 255. The inputs are not modified. |
| Masks.OrderFree | src/main/java/org/gdmn/imagej/utils/Masks.java:20-24 | The order of the later masks does not matter. |
| Masks.RepeatFree | src/main/java/org/gdmn/imagej/utils/Masks.java:20-24 | Repeating a later mask changes nothing. |
| Masks.SingleImage | src/main/java/org/gdmn/imagej/utils/Masks.java:16-28 | With one image the samples are copied unchanged. |
| Quantify.CountActive | src/main/java/org/gdmn/imagej/process/Quantify.java:165-179 | The active count is at most the object count. It equals the object count exactly when every object is active, and it is 0 exactly when none is. |
| Quantify.ActivityPixel | src/main/java/org/gdmn/imagej/process/Quantify.java:164-179 | On a cleared raster a pixel is 0 when no object covers it. Otherwise it is 106 or 46 by the activity of the last object covering it. |
| Quantify.Tally | src/main/java/org/gdmn/imagej/process/Quantify.java:164-179 | Returns the active count and leaves each object painted in its activity colour, later fills winning. |
| Quantify.UpdatePreview | src/main/java/org/gdmn/imagej/process/Quantify.java:105-127 | With both windows visible, the activity image is painted by the same rule as `process`; otherwise it is unchanged. |
| Quantify.TissueName | src/main/java/org/gdmn/imagej/process/Quantify.java:155 | The tissue name is the file name minus its first four and last four characters. |
| Quantify.ZipDataShape | src/main/java/org/gdmn/imagej/process/Quantify.java:153-185 | Each tallied object list gives two count lines and one marker image. |
| Quantify.CountLinesReadBack | src/main/java/org/gdmn/imagej/process/Quantify.java:181-182 | The count lines carry their key prefixes. Their numbers read back as the active count and the total, with active ≤ total. |
| Quantify.TallyZips | src/main/java/org/gdmn/imagej/process/Quantify.java:150-185 | Count lines and marker images for every ".zip" file, in listing order, each painted on a freshly cleared raster. |
| Quantify.MaskLines | src/main/java/org/gdmn/imagej/process/Quantify.java:191-218 | A "mask" file gives its area. A "sublayer" file gives its area within mask_myo and then within mask_endo, each by `Masks.and`; a missing tissue mask opens without a selection. Other files give nothing. |
| Quantify.AreaLinesKeyed | src/main/java/org/gdmn/imagej/process/Quantify.java:196-216 | One mask file's area lines begin with its keys and '=': one line for a mask file, two for a sublayer file, none otherwise. |
| Quantify.MaskDataKeys | src/main/java/org/gdmn/imagej/process/Quantify.java:194-217 | The area lines are, one per key and in listing order, "<file>=" for a mask file, then "<file>(myo)=" and "<file>(endo)=" for a sublayer file, each followed by its area. |
| Quantify.MissingTissueMask | src/main/java/org/gdmn/imagej/process/Quantify.java:205-213 | When mask_myo.tif or mask_endo.tif is missing, the sublayer's line for that tissue reports the sublayer's own area: `Masks.and` restricts nothing. |
| Quantify.Process | src/main/java/org/gdmn/imagej/process/Quantify.java:133-218 | `data.txt` is the count lines followed by the area lines. The marker images are those of TallyZips. |
| Collate.Slashed | src/main/java/org/gdmn/imagej/process/Collate.java:45 | Every backslash becomes a slash and every other character is kept, so a split at '/' splits at either separator. |
| Collate.Keys | src/main/java/org/gdmn/imagej/process/Collate.java:50-52 | The keys exist exactly when every line has one, and then they are the lines' keys in order. |
| Collate.Values | src/main/java/org/gdmn/imagej/process/Collate.java:53-57 | The values exist exactly when every line has a non-empty second field, and then they are those fields minus their last character. |
| Collate.Parse | src/main/java/org/gdmn/imagej/process/Collate.java:44-57 | A folder parses exactly when its file was read, its path is long enough, and every line has a key and a value. |
| Collate.StepAppends | src/main/java/org/gdmn/imagej/process/Collate.java:59-71 | A call keeps the header row and output consistent and never alters a fixed header row. The output only grows: by the data row when the headings match, by a SKIPPED line naming the folder otherwise, and by nothing when the folder throws. The first folder writes its heading row and then its data row. |
| Collate.Run | src/main/java/org/gdmn/imagej/process/Collate.java:88-93 | Running every folder keeps consistency and the fixed header row. |
| Collate.HeadingsListKeys | src/main/java/org/gdmn/imagej/process/Collate.java:46-52 | The header row splits back at commas into the six titles followed by every key. |
| Collate.CountCollates | src/main/java/org/gdmn/imagej/process/Collate.java:54-57 | A Quantify count line written with CR LF collates to its key and its exact count. Without the CR, the count loses its last digit. |
| Collate.CountCollatesTrimmed | src/main/java/org/gdmn/imagej/process/Collate.java:54-56 | With only a trailing CR trimmed, a count line collates to its exact count under both CR LF and LF line ends. |
| Collate.Collator.Process | src/main/java/org/gdmn/imagej/process/Collate.java:42-75 | One `process` call changes the collator exactly as Step says. |
| Collate.Collator.RunAll | src/main/java/org/gdmn/imagej/process/Collate.java:78-103 | The folders are processed in order, as Run says, and the final output is what is written. |
| CreateFolders.LastIndexOf | src/main/java/org/gdmn/imagej/process/CreateFolders.java:48 | `lastIndexOf`: the position holds the character and no later position does. |
| CreateFolders.Stem | src/main/java/org/gdmn/imagej/process/CreateFolders.java:48 | The stem is a proper prefix of the path that ends right before its last '.'. |
| CreateFolders.Prefixes | src/main/java/org/gdmn/imagej/process/CreateFolders.java:50-52 | The k-th visited directory is the join of the first k + 1 components. |
| CreateFolders.PrefixesNest | src/main/java/org/gdmn/imagej/process/CreateFolders.java:50-52 | Each visited directory extends the one before it. |
| CreateFolders.DirIsJoin | src/main/java/org/gdmn/imagej/process/CreateFolders.java:49-52 | With no empty component, the deepest directory is the components joined by '/'. |
| CreateFolders.MissingExact | src/main/java/org/gdmn/imagej/process/CreateFolders.java:50-56 | The walk creates exactly the visited directories that did not exist, each once. |
| CreateFolders.Walk | src/main/java/org/gdmn/imagej/process/CreateFolders.java:47-56 | Ends in the deepest directory, with every visited directory present. It creates just the missing ones, none of which existed before. |
| CreateFolders.Process | src/main/java/org/gdmn/imagej/process/CreateFolders.java:44-65 | A path without '.' throws (None). Otherwise the directories of the stem's pieces are created as Walk says and the target is "Image.tif" in the deepest one. The original is deleted exactly when the copy succeeded. |
| Text.FieldsOfJoin | src/main/java/org/gdmn/imagej/process/Collate.java:51-53 | Joining parts that contain no delimiter and splitting the result gives the parts back. |
| Text.SplitEmpty | src/main/java/org/gdmn/imagej/process/Quantify.java:196-197 | A Java split is empty, so taking its first token throws, exactly when the name is non-empty and made only of the delimiter. |
| Text.SplitHead | src/main/java/org/gdmn/imagej/process/Quantify.java:196-197 | The first token of a split is the text before the first delimiter, or the whole string when there is none. |
| Text.CountRoundTrip | src/main/java/org/gdmn/imagej/process/Quantify.java:181-182 | A rendered count is all digits and reads back as the count. |
| Regions.FillRegion | src/main/java/org/gdmn/imagej/process/SegmentLabel.java:145-146 | `fill(roi)` sets the covered pixels to the colour and leaves every other pixel unchanged. |
| Regions.FillOutside | src/main/java/org/gdmn/imagej/utils/Masks.java:23 | `fillOutside(roi)` sets the uncovered pixels to the colour and leaves the covered ones unchanged. |
| Regions.FillAll | src/main/java/org/gdmn/imagej/process/SegmentLabel.java:135-136 | `fill()` sets every pixel to the colour. |
| Regions.Selection | src/main/java/org/gdmn/imagej/process/SegmentSublayers.java:124-125 | The selection of a raster thresholded at 255 holds exactly the pixels equal to 255, and there is none when no pixel is. |
| Regions.Duplicate | src/main/java/org/gdmn/imagej/process/SegmentSublayers.java:109 | `duplicate()` gives a new raster holding the same samples. |

## Findings

| source | as written | input that shows it | evidently intended | confidence | as-written member | corrected member |
|---|---|---|---|---|---|---|
| src/main/java/org/gdmn/imagej/process/Collate.java:54-56 | every value loses its last character, meant to be the CR of a CR LF line end; `Files.write` at src/main/java/org/gdmn/imagej/process/Quantify.java:223 ends lines with the platform separator | a `data.txt` written with LF line ends holding `count_endo_active=42` collates the count as `4` | drop a trailing CR only when there is one | medium; not executed | Collate.CountCollates | Collate.CountCollatesTrimmed |

The collator (`Collate.Values`, `Collate.Parse`, `Collate.Collator`) keeps the as-written `Value`, so the model collates exactly what the source does; `Collate.TrimmedValue` is the corrected value function.

## Left out

- Image I/O, the ROI managers' files, log messages, look-up tables, status lines, stored preferences and the user interface are not modelled. A folder's files are the `Store` maps or explicit parameters.
- The library routines are parameters: the StarDist detector call, dilation by a disk, `RoiEnlarger`, `ThresholdToSelection`, "Fill Holes", `containsPoint` and the statistics measurements. `Regions.Selection` stands for thresholding at 255 followed by `ThresholdToSelection`, giving the region of pixels equal to 255, or none when there is none.
- Floating point is not modelled. The 95% coverage test compares exact integers (`20 * area >= 19 * total`), and the label area is taken to be a whole number of pixels. The step size is an integer going 128, …, 1, 0 where the source's double ends at 0.5; the loop runs the same eight rounds either way. `multiply` is exact real arithmetic followed by round half up.
- SegmentSublayers.CoverageSearch: takes as a precondition a radius from which on coverage is reached. Without one, the source's inner loop need not end.
- SegmentSublayers.Process: the label's total area (the area fraction times the image area) is a parameter, not computed from the label raster.
- SegmentSublayers.Process: `enlarge` is a parameter that stands for `RoiEnlarger.enlarge` of the selection of "mask_myo_compact.tif"; no contract ties it to the stored mask, so `enlarge(0.0)` is the unenlarged mask only by this reading.
- SegmentSublayers.SplitThree: the temporary label's raster is painted with positions in its own object list, so the middle and apex rasters carry positions in that list, not base-label indices. ThreeWaySplit states this renumbering as the source does it.
- Segment Label's mask selection is the image's stored selection, and the hole-filled selection when closing. An image that fails to open has no selection.
- CleanChannels.Clean: requires equal channel sizes and a size-preserving dilation. A role whose first position is beyond the split channels makes `imps[index]` throw before anything is saved; the model returns `None` then.
- NuclearLabel.Relabel: a 16-bit raster holds any integer. Values above 65535 would need more than 65535 survivors and are not modelled.
- Quantify.Process: requires every object-list file name to have at least eight characters and every mask file name to split on '_' to a first token. The source throws in both cases. A missing mask_myo.tif or mask_endo.tif is not an error: it opens as an image without a selection. The ".zip" test reads the extension from the name, which equals the last four characters of the path. The decimal rendering of an area is a parameter.
- The Quantify thread and the preview windows' creation and closing are not modelled. Only the painting of `updatePreview` is kept.
- Collate: `selectedDir` is fixed at construction. The split of the folder path at `[\\/]` is modelled as turning backslashes into slashes and splitting at '/'. Reading `data.txt` is a parameter whose `None` is a read that throws.
- CreateFolders.Process: `mkdir` is taken to succeed, so every visited directory exists afterwards. `File.exists` is taken to mean that a directory exists, although a plain file of that name also passes it. `Files.delete` is taken to succeed whenever the copy did; a failing delete is logged by the source and not modelled.
- CreateFolders.Process: the delimiter is a single literal character, whereas the source passes the delimiter string to the regular-expression `split`. `Paths.get` is modelled as joining with '/' and dropping an empty part; path normalisation and the platform separator are not modelled. Whether the copy succeeds is a parameter.
- The directory listings (`listFiles`, `getBasePaths`) are parameters in listing order.
