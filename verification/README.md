# coco2rcnn conversion core in Dafny

A model of the conversion logic of `coco2rcnn.py`, a script that turns a
COCO keypoint annotation file into per-image annotation files for a
Keypoint R-CNN training pipeline: one write per image, to a file named after
the text before the first dot of the image's file name. The model covers four parts:

- box conversion from `[x, y, w, h]` to corner form, with its one-sided clamp
  and one-pixel widening (`Transform`);
- keypoint clamping over the flat `[x, y, v, ...]` list (`Transform`);
- the output file name, `file_name.split('.')[0] + ".json"` (`FileNames`);
- grouping annotations by image id and the image loop that builds the
  index-aligned `bboxes` / `keypoints` document of every image (`Conversion`).

Files:

- `wrappers.dfy`: `Option` and `Result`.
- `transform.dfy`: `xywh2xyxy` and `get_keypoint`.
- `filenames.dfy`: Python's `str.split` for one separator, `join`, and the stem rule.
- `conversion.dfy`: `group_by`, the per-image assembly, the image loop as a
  function, the same loop as a method with its explicit buffer, and the
  annotations directory that results from the writes.

Coordinates are mathematical integers, as Python integers are unbounded.
The model follows the code's error behaviour: the run stops with an error on
any of these:

- an annotation `bbox` that does not have exactly four entries (the unpacking
  at line 18);
- a keypoint list whose length is not a multiple of three (line 39);
- an image id that has no annotations (the dictionary lookup at line 103).

Files written for earlier images stay written (`Run.written`, a log of the
writes in order).

Three behaviours of the code are worth stating plainly:

- Line 103 indexes the `group_by` result directly. An image without
  annotations therefore raises `KeyError`: nothing is written for it, and the
  run stops. `Conversion.MissingImageAborts` states this.
- Lines 23-28 and 40-41 clamp only from above, and nothing clamps below:
  negative coordinates pass through. The widening at lines 25 and 28 can give
  `x2 == width` or `y2 == height`. `Transform.ClampAxis` and
  `Transform.XywhToXyxy` state this.
- Line 110 opens `<stem>.json` for writing, so two images with the same stem
  (`robot.1.png` and `robot.2.png`) write the same file, and the later write
  replaces the earlier. `Conversion.Directory` models the resulting directory.
  `Conversion.SharedStemOverwrites` and `Conversion.DistinctStemKeepsFile`
  state both cases.

## Model

| member | source | states |
|---|---|---|
| Transform.ClampUpper | coco2rcnn.py:23-24 | the clamp gives the minimum of the coordinate and `bound - 1`: never above `bound - 1`, never above the input, and one of the two |
| Transform.UnpackBox | coco2rcnn.py:18 | unpacking succeeds exactly on a four-entry list, and the fields read back as that list |
| Transform.ClampAxis | coco2rcnn.py:20-25 | one axis: `lo <= bound-1`, `hi <= bound` (at most one past the clamp), `hi != lo`, `lo < hi` for a non-negative extent, `lo` unchanged below the bound (negatives pass through) and `bound-1` at or past it, the unclamped span when nothing is out of range, `hi == lo + 1` for a zero extent, and `hi` is `bound-1`, or `bound` when that would make the span empty, when the far edge overflows |
| Transform.XywhToXyxy | coco2rcnn.py:17-32 | the corner box is bounded above by `width-1`/`height-1` for the first corner and `width`/`height` for the second, is never degenerate, is ordered for non-negative extents, keeps in-range `x`/`y` (including negatives) and sets `x1 = width-1` (`y1 = height-1`) when `x >= width` (`y >= height`), keeps `x2 = x+w` when `x` and `x+w` are below `width` and `w != 0` (likewise `y2`, independently of the other axis), equals `[x, y, x+w, y+h]` when no edge is out of range and no extent is zero, has `x2 == x1 + 1` (`y2 == y1 + 1`) for a zero width (height), and has `x2 == width-1`, or `width` when that would make the box empty, when the far edge reaches the border (likewise for `y2`) |
| Transform.XywhToXyxyUnchangedIff | coco2rcnn.py:20-28 | the output is the plain `[x, y, x+w, y+h]` if and only if the box needs no repair, including the edge case `x = width-1, w = 1` where clamping and widening cancel |
| Transform.AxesIndependent | coco2rcnn.py:23-28 | the x edges depend only on `(x, w, width)`, the y edges only on `(y, h, height)` |
| Transform.CornerRoundTrip | coco2rcnn.py:20-28 | a corner box with positive extent inside the image survives the round trip through the `[x, y, w, h]` form unchanged |
| Transform.BoxExamples | coco2rcnn.py:23-28 | `(9,9,5,5)` on 10x10 gives `[9,9,10,10]`, `(5,5,0,0)` gives `[5,5,6,6]`, and a negative `x` is not clamped |
| Transform.ClampKeypoint | coco2rcnn.py:40-45 | a coordinate at or past the bound becomes `width-1`/`height-1`, one below it is unchanged (negatives included), and the visibility flag is carried over |
| Transform.GetKeypoint | coco2rcnn.py:34-46 | succeeds exactly when the length is a multiple of three; yields `len/3` triples, triple `i` from positions `3i..3i+2` with `x`/`y` clamped from above and `v` unchanged |
| Transform.GetKeypointOfFlatten | coco2rcnn.py:38-45 | keypoints already inside the upper bounds come back unchanged from flattening and converting |
| Transform.GetKeypointIdempotent | coco2rcnn.py:34-46 | converting the flattened output again changes nothing |
| Transform.KeypointExample | coco2rcnn.py:40-41 | `(15,3,2)` on 10x10 gives `[9,3,2]` |
| FileNames.Split | coco2rcnn.py:95 | `split('.')` yields at least one piece, no piece contains the separator, and the first piece is a prefix of the name followed by a separator or the end |
| FileNames.JoinSplit | coco2rcnn.py:95 | joining the pieces of a split gives back the name |
| FileNames.SplitJoin | coco2rcnn.py:95 | splitting the join of separator-free pieces gives back the pieces |
| FileNames.Stem | coco2rcnn.py:95 | the stem is a prefix of the name, contains no dot, and is followed by a dot unless it is the whole name |
| FileNames.StemUnique | coco2rcnn.py:95 | those three properties determine the stem: it is the text before the first dot |
| FileNames.StemExample | coco2rcnn.py:95 | `robot.annotated.png` has stem `robot` |
| FileNames.OutputFileName | coco2rcnn.py:110 | the annotation file name is the stem followed by `.json` and has no dot before the extension |
| Conversion.Filter | coco2rcnn.py:86 | the group of an id holds only annotations with that id, every record with that id as many times as it occurs in the list, and is empty exactly when no record has that id |
| Conversion.FilterAppend | coco2rcnn.py:86 | the group of a concatenation is the concatenation of the groups, so records keep their source order |
| Conversion.FilterSingle | coco2rcnn.py:86 | a single record forms the group of its own id and no other |
| Conversion.GroupBy | coco2rcnn.py:86 | every group is non-empty and every id an annotation carries has a group; `Conversion.GroupByIsFilter` gives the full contract, key set and group contents |
| Conversion.GroupByIsFilter | coco2rcnn.py:86 | the grouping has a key exactly for the ids some annotation carries, and each group is the source-ordered filter by that id |
| Conversion.AnnotationFailure | coco2rcnn.py:106-108 | a malformed annotation reports a bad box when its box is malformed, and bad keypoints otherwise, because the box is unpacked first |
| Conversion.Assemble | coco2rcnn.py:106-108 | succeeds exactly when every annotation is well formed; the two arrays then have one entry per annotation, entry `k` converted from annotation `k`; otherwise the error is that of the first malformed annotation |
| Conversion.AssembleExtend | coco2rcnn.py:106-108 | one inner-loop step on a well-formed annotation appends exactly its box and its keypoint list to the buffer |
| Conversion.AssembleFail | coco2rcnn.py:106-108 | a malformed annotation that follows well-formed ones is the error of the whole group, with its index |
| Conversion.FillBuffer | coco2rcnn.py:106-108 | the append loop over one image's annotations, box appended before the keypoints are unpacked, grows the buffer it is given by exactly the assembled document, or yields the first malformed annotation's error |
| Conversion.ProcessImage | coco2rcnn.py:94-111 | a missing id is an error; otherwise the image succeeds exactly when its annotations are well formed, is written under its stem with `.json`, and has parallel arrays as long as its group |
| Conversion.Process | coco2rcnn.py:93-114 | never more writes than images, and one write per image when no failure occurs |
| Conversion.ProcessSpec | coco2rcnn.py:93-114 | images are written in array order, file `i` is image `i`'s own result, and a failure is the error of the first failing image, with all earlier files written |
| Conversion.ProcessStep | coco2rcnn.py:93-114 | an image that succeeds is written before the rest of the run |
| Conversion.ProcessStop | coco2rcnn.py:103-108 | an image that fails ends the run with its error |
| Conversion.ConvertAll | coco2rcnn.py:86-114 | the whole run: at most one write per image, one per image when nothing fails, and never a missing-key failure for an id some annotation carries; `Conversion.ConvertAllPerImage` and `Conversion.RunConversion` characterise it fully |
| Conversion.ConvertAllPerImage | coco2rcnn.py:93-114 | the file written for image `i` carries its stem name and exactly one box and one keypoint list per annotation of that image, entry `k` from its `k`-th annotation, and nothing from other images |
| Conversion.Directory | coco2rcnn.py:110-111 | every written name is a file of the directory, and every file of the directory was written |
| Conversion.DirectoryLastWriteWins | coco2rcnn.py:110-111 | a file holds the document of the last write to its name |
| Conversion.SharedStemOverwrites | coco2rcnn.py:95-110 | two images with the same stem write to the same annotation file |
| Conversion.DistinctStemKeepsFile | coco2rcnn.py:95-111 | when no later image shares its stem, an image's annotation file ends up holding that image's own document |
| Conversion.StemCollisionExample | coco2rcnn.py:95 | `robot.1.png` and `robot.2.png` both have stem `robot` |
| Conversion.MissingImageAborts | coco2rcnn.py:103 | an image with no annotations stops the run with a missing-key error after the files of the images before it |
| Conversion.RunConversion | coco2rcnn.py:88-114 | the imperative image loop, with one buffer created before the loop and reset after each write (an invariant keeps it empty between images), computes exactly `ConvertAll` |

## Left out

- Argument parsing (lines 9-15, 60-64): argparse plumbing with no logic.
- Directory creation and deletion, image copying, JSON loading, and the JSON
  serialisation at line 111 (lines 66-83, 98-101, 111): file-system and
  serialisation I/O. The open at line 110 is modelled: `Conversion.Directory`
  is a map keyed by the exact output name, and each write replaces the
  document stored under that name.
- Case-insensitive file systems: two names that differ only in case
  (`Robot.json`, `robot.json`) are distinct files in `Conversion.Directory`,
  so `Conversion.DistinctStemKeepsFile` holds only where file names are
  case-sensitive.
- The image copy at line 101 happens before the lookup at line 103, even when
  that lookup then fails. The model records only annotation files.
- The `tqdm` progress bar and the unused `numpy` import (lines 5, 7): no behaviour.
- The internals of `pydash.group_by` (line 86): a foreign library. The model
  builds the grouping in one pass, appending in source order.
- The `img_id` argument of `xywh2xyxy`: it only feeds commented-out diagnostics.
- Float coordinates: COCO boxes are often floats, and for reals `x < width`
  does not imply `x <= width - 1`. Every coordinate here is an integer.
- Image and annotation records with missing keys (`width`, `height`, `bbox`,
  `keypoints`): records are typed, so a missing key cannot be expressed.
