# KataCR detection core in Dafny

This project models two pieces of KataCR, a Clash Royale unit detector.

**The ensemble step of `ComboDetector.infer`.** Several YOLOv8 detectors each
return rows of seven numbers:

- four corner coordinates;
- a score;
- a class index local to that detector;
- one more column, carried through unchanged.

`infer` clones each detector's rows. It rewrites the class column through two
lookups: the detector's `names` map (local index to unit name), then the shared
`unit2idx` map (unit name to global id). It concatenates all rows in detector
order and runs class-agnostic greedy non-maximum suppression
(`torchvision.ops.nms`). It returns the rows that survive, best first.

**The box plumbing of `YOLODataset`.** This covers:

- the table of (image, box file) pairs, repeated per entry for training, and
  its length;
- the placeholder row for an empty box list;
- the reshape of a box file into 12-field rows, each rotated left by one so
  the class field comes last;
- the conversion of normalised coordinates to pixels;
- the padding shift and the horizontal flip, both done in place;
- the fixed-capacity output buffer, filled by slice assignment, and the count
  returned with it.

Files:

- `results.dfy`: `Result<T, E>`.
- `detections.dfy`: the 7-column row and the intersection-over-union that
  torchvision computes, over reals.
- `nms.dfy`: greedy suppression.
  - `GreedyKeep` is the specification: take the next index in score order,
    drop every later index whose IoU with it exceeds the threshold, and
    repeat.
  - `NonMaxSuppression` is the loop, proved against `GreedyKeep`.
  - The lemmas state what torchvision documents about the result.
- `combo_detect.dfy`: the class remap and merge, both as functions and as the
  loops `infer` runs, plus `ComboDetector.Infer`.
- `dataset_builder.dfy`: the table repeat, the reshape and rotation, the
  in-place column updates on `array2<real>`, and the class `YOLODataset`.

### How the models are set up

**Inputs instead of computation.** The detectors' forward passes, image
decoding and `transform_pad` are not modelled. Their results are inputs:

- `Infer` receives each detector's `names` map and its `orig_boxes` array;
- `GetItem` receives the padding `(dh, dw)`, the padded image width and the
  outcome of the coin `random.random() < 0.5`.

**Tie order in suppression.** torchvision does not promise an order among
rows with equal scores. `Infer` therefore takes the visiting order `order` as
a parameter. Its precondition is `Nms.IsScoreOrder`: `order` is a permutation
of the row indices with non-increasing scores.

**Errors are results, not preconditions:**

- **Lookup failures at line 39.** `names[int(cls)]` and `unit2idx[...]` can
  each raise KeyError. They become `UnknownIndex` and `UnknownName`, naming the
  first failing detector and row.
- **Box counts** (`BadShape`, `TooManyBoxes`). A box file whose length is not
  a multiple of 12 fails `reshape(-1, 12)`. A row count above the buffer's
  capacity fails the slice assignment at line 76. The capacity is positive:
  only a zero capacity would let numpy broadcast a single row into the
  empty slice.
- **Annotation file of fewer than two lines** (`FlatAnnotation`).
  `np.genfromtxt` squeezes such a file to a 1-D array, so `paths[:, 0]` at
  line 25 raises IndexError. `YOLODataset.Open` returns this error; the
  constructor is only reached with two or more lines.
- **Empty box file** (`EmptyMax`). The file gives a 0×12 table at line 48.
  Line 51 then takes `.max()` over it, which numpy rejects for an empty array.
  This is modelled as written. The placeholder helper at lines 34-37 is not
  called on this path.

**Numbers.**

- `int(boxes[i, 5])` truncates toward zero (`Trunc`).
- Coordinates are reals.
- `MAX_NUM_BBOXES` is a constructor parameter, because
  katacr/build_dataset/constant.py is not part of this model.

## Model

| member | source | states |
|---|---|---|
| ComboDetect.ComboDetector.Infer | katacr/yolov8/combo_detect.py:32-47 | the rows infer returns are `InferSpec` of the detectors' results: the merge's KeyError, or the rows greedy suppression keeps, best first |
| ComboDetect.ComboDetector.constructor | katacr/yolov8/combo_detect.py:25-28 | the detector keeps the IoU threshold it is given, which is non-negative |
| ComboDetect.MergeResults | katacr/yolov8/combo_detect.py:34-44 | the nested loop builds exactly `Merge` of the detectors' current results, failing with that same error if any lookup fails |
| ComboDetect.RelabelClone | katacr/yolov8/combo_detect.py:36-40 | relabelling a clone row by row gives `RelabelAll` of the detector's rows; the detector's own array is left untouched (the method modifies nothing) |
| ComboDetect.Suppress | katacr/yolov8/combo_detect.py:45-46 | `preds[i]`: the rows at the indices greedy suppression keeps, in that order |
| ComboDetect.Relabel | katacr/yolov8/combo_detect.py:39 | a row relabels exactly when both lookups succeed; then only its class column changes, to `unit2idx[names[int(cls)]]`; otherwise the error names this detector and row, is `UnknownIndex` with the truncated class exactly when that index is missing from `names`, and `UnknownName` with the name otherwise |
| ComboDetect.RelabelAll | katacr/yolov8/combo_detect.py:38-40 | one result row per input row on success; `RelabelAllSpec` states the rows and the first failing row |
| ComboDetect.Merge | katacr/yolov8/combo_detect.py:34-44 | on success as many rows as the concatenation; `MergeSpec` states the iff, the rows and the first KeyError |
| ComboDetect.Flatten | katacr/yolov8/combo_detect.py:35-44 | `torch.cat` of all detectors' rows: its length is the sum of the detectors' row counts; `FlattenPrefix` places each row |
| ComboDetect.RowCountLast | katacr/yolov8/combo_detect.py:35-40 | the total row count, summed from the last detector back, equals the sum from the first |
| ComboDetect.Select | katacr/yolov8/combo_detect.py:46 | `preds[i]`: entry t is the candidate at index `i[t]` |
| ComboDetect.InferSpec | katacr/yolov8/combo_detect.py:32-46 | infer succeeds iff the merge does, and fails with the merge's KeyError; on success it returns at most as many rows as the candidates, and at least one when there is any candidate |
| ComboDetect.Trunc | katacr/yolov8/combo_detect.py:39 | `int()` of a float: the integer nearest the value on the side of zero |
| ComboDetect.GlobalId | katacr/yolov8/combo_detect.py:39 | the id a resolvable row gets is a value of `unit2idx` |
| ComboDetect.RelabelAllSpec | katacr/yolov8/combo_detect.py:38-40 | one detector's relabel succeeds iff every row resolves, keeping row order and changing only column 5; otherwise it fails at the first unresolvable row |
| ComboDetect.MergeSpec | katacr/yolov8/combo_detect.py:34-44 | the merge succeeds iff every row of every detector resolves; it then has one row per candidate, equal to it but for the class column; otherwise the error is the first unresolvable row in detector, then row, order |
| ComboDetect.MergeResolves | katacr/yolov8/combo_detect.py:34-40 | a successful merge resolved every row of every detector |
| ComboDetect.MergeFailure | katacr/yolov8/combo_detect.py:34-40 | a failed merge names a real row whose lookups fail, with every earlier row resolvable |
| ComboDetect.MergeRows | katacr/yolov8/combo_detect.py:33-40 | a successful merge has as many rows as all detectors together, each the corresponding original row with only column 5 changed |
| ComboDetect.FlattenPrefix | katacr/yolov8/combo_detect.py:35-40 | row i of detector d sits at Offset(d) + i in the concatenation |
| ComboDetect.MergeAt | katacr/yolov8/combo_detect.py:39-40 | row i of detector d sits at Offset(d) + i in the merge, with class column `unit2idx[names_d[int(cls)]]` |
| ComboDetect.MergeNothing | katacr/yolov8/combo_detect.py:41-46 | when no detector returns a row the candidates are the empty table and infer returns no rows |
| ComboDetect.NothingToMerge | katacr/yolov8/combo_detect.py:35-42 | with no rows from any detector, both the concatenation and the merge are empty |
| ComboDetect.MergeStep | katacr/yolov8/combo_detect.py:35-40 | one more detector appends its relabelled rows, or its KeyError ends the merge |
| ComboDetect.MergeStopsAt | katacr/yolov8/combo_detect.py:39 | a KeyError in the first j detectors is the KeyError of the whole merge |
| ComboDetect.RelabelAllStopsAt | katacr/yolov8/combo_detect.py:38-39 | a KeyError in the first j rows is the KeyError of the whole detector |
| ComboDetect.MergeKeepsScoreOrder | katacr/yolov8/combo_detect.py:39-45 | the remap leaves scores alone, so a score order of the original rows is one of the merged rows |
| ComboDetect.MergeKeepsOverlaps | katacr/yolov8/combo_detect.py:39-45 | the remap leaves boxes alone, so every pairwise IoU is that of the original rows |
| ComboDetect.InferClassAgnostic | katacr/yolov8/combo_detect.py:45 | suppression ignores classes: it keeps the same indices as suppression over the original, un-remapped rows |
| ComboDetect.InferVocabulary | katacr/yolov8/combo_detect.py:39-47 | every class column infer returns holds an integer id of the shared vocabulary, so `idx2unit` can label it |
| ComboDetect.MergeInVocabulary | katacr/yolov8/combo_detect.py:39-40 | every merged row's class column is an id of `unit2idx` |
| ComboDetect.InferSuppression | katacr/yolov8/combo_detect.py:45-46 | the output is candidate rows, each index at most once, by non-increasing score; no two overlap above `iou_thre`; every dropped candidate overlaps above `iou_thre` an output row scoring at least as much; the best candidate comes first |
| ComboDetect.SelectKept | katacr/yolov8/combo_detect.py:46 | `preds[i]` carries the properties of the kept indices over to the returned rows |
| ComboDetect.OverlappingReportsMerge | katacr/yolov8/combo_detect.py:32-47 | two detectors reporting one knight, as [0,0,10,10] at 0.9 and [1,1,11,11] at 0.8 (IoU 81/119 > 0.5): only the first row survives, with the shared id 7 |
| ComboDetect.TwoReportsRelabel | katacr/yolov8/combo_detect.py:39 | the two knight rows both get id 7, although their local indices are 0 and 3 |
| ComboDetect.TwoReportsOverlap | katacr/yolov8/combo_detect.py:45 | of the two overlapping knights, suppression keeps only the better one |
| ComboDetect.DisjointReportsKept | katacr/yolov8/combo_detect.py:32-47 | two boxes that do not meet are both returned, best first |
| ComboDetect.OneReportRelabel | katacr/yolov8/combo_detect.py:39 | every row of one detector gets the id of its class name |
| ComboDetect.OneReportApart | katacr/yolov8/combo_detect.py:45 | two disjoint boxes are both kept |
| ComboDetect.UnknownNameFails | katacr/yolov8/combo_detect.py:39 | a class name missing from `unit2idx` is a KeyError naming detector 0, row 1, "goblin"; no result is produced |
| ComboDetect.UnknownNameMerge | katacr/yolov8/combo_detect.py:39 | the merge stops at the unknown name, after the first row resolved |
| ComboDetect.FlattenPair | katacr/yolov8/combo_detect.py:44 | one or two detectors' rows concatenate in detector order |
| ComboDetect.RelabelPair | katacr/yolov8/combo_detect.py:38-40 | one or two resolvable rows are relabelled in order |
| ComboDetect.MergePair | katacr/yolov8/combo_detect.py:34-44 | the merge of one or two detectors is their relabelled rows in detector order |
| ComboDetect.InferFrom | katacr/yolov8/combo_detect.py:44-46 | once the merged rows and the kept indices are known, infer returns those rows |
| Nms.NonMaxSuppression | katacr/yolov8/combo_detect.py:45 | the loop returns `GreedyKeep`: distinct in-range indices, by non-increasing score, pairwise IoU at most the threshold, every dropped index covered by a kept one scoring at least as much, and the best candidate first |
| Nms.DropOverlapping | katacr/yolov8/combo_detect.py:45 | one round drops exactly the remaining indices whose IoU with the round's top exceeds the threshold |
| Nms.GreedyKeep | katacr/yolov8/combo_detect.py:45 | what suppression keeps: no more than it is given, only indices it is given, and the first of them first |
| Nms.Survivors | katacr/yolov8/combo_detect.py:45 | one round of suppression keeps at most the indices it is given, all in range; `SurvivorsMembers` states which |
| Nms.SurvivorsMembers | katacr/yolov8/combo_detect.py:45 | after one round, an index remains iff it was there and its IoU with the top is at most the threshold |
| Nms.SurvivorsSnoc | katacr/yolov8/combo_detect.py:45 | the round's filter works index by index, in order |
| Nms.GreedyFromScoreOrder | katacr/yolov8/combo_detect.py:45 | from a score order, the kept indices are distinct, score-sorted, pairwise apart, cover every dropped index, and start with a best candidate |
| Nms.GreedyDistinct | katacr/yolov8/combo_detect.py:45-46 | no candidate is kept twice |
| Nms.GreedySorted | katacr/yolov8/combo_detect.py:45-46 | kept indices come by non-increasing score |
| Nms.GreedyApart | katacr/yolov8/combo_detect.py:45 | no two kept rows overlap by more than the threshold |
| Nms.GreedyCovers | katacr/yolov8/combo_detect.py:45 | every dropped row overlaps by more than the threshold a kept row that scores at least as much |
| Nms.SurvivorsDistinct | katacr/yolov8/combo_detect.py:45 | a round keeps distinctness |
| Nms.SurvivorsSorted | katacr/yolov8/combo_detect.py:45 | a round keeps score order |
| Nms.GreedySameOverlaps | katacr/yolov8/combo_detect.py:45 | suppression depends on the rows only through their pairwise IoU |
| Nms.SurvivorsSameOverlaps | katacr/yolov8/combo_detect.py:45 | one round depends on the rows only through their pairwise IoU |
| Nms.TwoCandidates | katacr/yolov8/combo_detect.py:45 | of two candidates the second survives iff its IoU with the first is at most the threshold |
| Nms.FewCandidates | katacr/yolov8/combo_detect.py:41-45 | nothing in, nothing kept; a single candidate is kept |
| Nms.TwoInOrder | katacr/yolov8/combo_detect.py:45 | two rows with the first scoring at least as high are visited in index order |
| Detections.IoU | katacr/yolov8/combo_detect.py:45 | intersection over union of two boxes is never negative |
| Detections.Intersection | katacr/yolov8/combo_detect.py:45 | the overlap area is never negative |
| Detections.IoUAtMostOne | katacr/yolov8/combo_detect.py:45 | the IoU of two well-formed boxes lies in [0, 1] |
| Detections.IntersectionWithin | katacr/yolov8/combo_detect.py:45 | the overlap of two well-formed boxes is no larger than either box |
| Detections.IoUSymmetric | katacr/yolov8/combo_detect.py:45 | IoU does not depend on the order of its arguments |
| Detections.IoUReadsBoxOnly | katacr/yolov8/combo_detect.py:45 | IoU reads the four coordinates only, not score, class or the last column |
| Detections.IoUApart | katacr/yolov8/combo_detect.py:45 | boxes separated along one axis have IoU 0 |
| Dataset.YOLODataset.constructor | katacr/detection/dataset_builder.py:17-28 | for an annotation of two or more lines: the path columns are the annotation's image and box columns, each entry repeated `repeat` times for 'train'; augmentation is on iff subset is not 'val' |
| Dataset.YOLODataset.Open | katacr/detection/dataset_builder.py:17-28 | fails with `FlatAnnotation` iff the annotation has fewer than two lines (line 25's IndexError); otherwise a new dataset as the constructor states |
| Dataset.YOLODataset.Len | katacr/detection/dataset_builder.py:30-31 | the length is annotation rows times `repeat` for 'train', the annotation rows otherwise |
| Dataset.YOLODataset.Paths | katacr/detection/dataset_builder.py:40 | entry idx of the training table is annotation line idx div `repeat`; otherwise line idx |
| Dataset.RepeatIndex | katacr/detection/dataset_builder.py:27-28 | entry k of `np.repeat(s, r)` is `s[k div r]` |
| Dataset.RepeatAt | katacr/detection/dataset_builder.py:27-28 | entry i·r + t of the repeat, for t < r, is `s[i]` |
| Dataset.RepeatedEntry | katacr/detection/dataset_builder.py:25-28 | the repeated image and box columns at entry k are those of annotation line k div r |
| Dataset.Repeat | katacr/detection/dataset_builder.py:27-28 | repeating every entry r times multiplies the length by r |
| Dataset.YOLODataset.NeedPlaceholder | katacr/detection/dataset_builder.py:34-37 | an empty box list becomes exactly the row [0, 0, 1, 1, -1]; a non-empty one is returned unchanged |
| Dataset.Reshape | katacr/detection/dataset_builder.py:44-48 | fails iff the count is not a multiple of 12; otherwise count/12 rows of 12, field j of row i being value 12·i + (j+1) mod 12 of the file (the class field last); no numbers give no rows |
| Dataset.RotateLeft | katacr/detection/dataset_builder.py:46 | `np.roll(-1)`: field 0 moves to the end, fields 1..11 move down one |
| Dataset.EmptyFileFails | katacr/detection/dataset_builder.py:45-51 | an empty file reshapes to no rows, and load_file then fails at `.max()` |
| Dataset.LoadKeepsFields | katacr/detection/dataset_builder.py:44-53 | a loaded table has one row per 12 numbers of the file and at least one row; fields 4-11 are the file's rotated fields, untouched by scaling |
| Dataset.YOLODataset.LoadBoxes | katacr/detection/dataset_builder.py:44-53 | the loaded array is `LoadBoxesSpec`: reshaped and rotated, scaled to pixels when columns 0-3 are all at most 1, or the same error |
| Dataset.ScaleInPlace | katacr/detection/dataset_builder.py:52-53 | the in-place update is `ToPixels`: columns 0 and 2 times w0, 1 and 3 times h0, the rest untouched |
| Dataset.ScaleRow | katacr/detection/dataset_builder.py:52-53 | one row scaled, every other cell unchanged |
| Dataset.ToPixels | katacr/detection/dataset_builder.py:52-53 | every cell is its column's scaling of the input cell; the row count is kept |
| Dataset.ToPixelsBack | katacr/detection/dataset_builder.py:51-53 | scaling again by the inverse sizes gives back the normalised rows |
| Dataset.UndoScale | katacr/detection/dataset_builder.py:52-53 | per cell, scaling by the inverse sizes undoes scaling |
| Dataset.ToPixelsBounded | katacr/detection/dataset_builder.py:51-53 | normalised boxes of a w0 × h0 image lie within w0 in x and w, and within h0 in y and h |
| Dataset.ShiftInPlace | katacr/detection/dataset_builder.py:66-67 | the in-place update is `Shift`: dw added to column 0, dh to column 1, nothing else changed |
| Dataset.Shift | katacr/detection/dataset_builder.py:66-67 | dw added to column 0, dh to column 1, other columns and row count kept |
| Dataset.ShiftBack | katacr/detection/dataset_builder.py:66-67 | shifting by (-dw, -dh) undoes the padding shift |
| Dataset.FlipInPlace | katacr/detection/dataset_builder.py:72-73 | the in-place update is `Flip`: column 0 becomes W - x, nothing else changed |
| Dataset.Flip | katacr/detection/dataset_builder.py:73 | column 0 becomes W - x, other columns and row count kept |
| Dataset.FlipTwice | katacr/detection/dataset_builder.py:73 | flipping twice restores the rows |
| Dataset.CopyRows | katacr/detection/dataset_builder.py:75-76 | `pbox[:n] = box`: the first n rows become the box rows, the rest of the buffer is unchanged |
| Dataset.Zeros | katacr/detection/dataset_builder.py:74 | `np.zeros((MAX, 12))`: MAX rows of 12 zeros |
| Dataset.PaddedLayout | katacr/detection/dataset_builder.py:74-77 | the padded buffer has capacity rows of 12; its first n rows are the boxes and the rest are zero |
| Dataset.Augmented | katacr/detection/dataset_builder.py:66-73 | cell by cell: column 0 is x + dw, or W - (x + dw) when flipped; column 1 is y + dh; the other columns are unchanged |
| Dataset.Padded | katacr/detection/dataset_builder.py:74-76 | the buffer has `capacity` rows and starts with the box rows; `PaddedLayout` adds the zero tail |
| Dataset.LoadBoxesSpec | katacr/detection/dataset_builder.py:44-53 | fails iff the count is not a multiple of 12 (`BadShape`) or the file is empty (`EmptyMax`); otherwise one 12-field row per 12 numbers |
| Dataset.Scale | katacr/detection/dataset_builder.py:52-53 | columns from 4 on are never scaled; `UndoScale` is its inverse |
| Dataset.YOLODataset.GetItem | katacr/detection/dataset_builder.py:63-77 | box is shifted, then flipped when augmenting and the coin says so; fails iff n > MAX_NUM_BBOXES; otherwise a fresh MAX × 12 buffer holds the n rows then zeros, and the count is n |

## Left out

- The detectors' forward passes (`m.predict`, combo_detect.py:33) and their confidence filter. They are a neural network outside the repository; their filtered rows are inputs.
- `ComboDetector.__init__`'s model loading and log directory, and `ComboDetector.predict`. They are file, video and window I/O.
- `CRResults` at combo_detect.py:47. It is an external class, and the model returns the kept rows themselves. `InferVocabulary` states that their class column holds ids that `idx2unit` can name.
- `torchvision.ops.nms` is modelled from its documented contract, not from its code. Its order among equal scores is the parameter `order`.
- Detections.IoU: a union of zero or less counts as IoU 0. torchvision would divide by it and get NaN or a non-positive number. Neither exceeds a non-negative threshold, so the suppression decision is the same; the `ComboDetector` constructor requires the threshold to be non-negative.
- Floating point: coordinates, scores and IoU are reals. Rounding in IEEE floats and in wider torch dtypes is not modelled.
- `torch.zeros(0, 7)` at combo_detect.py:41-42 is the empty sequence. The 0×7 shape itself is not modelled.
- The 7-column layout after `torch.cat(...).reshape(-1, 7)` is taken as given. A detector handing over rows of another width is not modelled.
- Image loading (`Image.open`), `np.loadtxt` and `np.genfromtxt`. These are file I/O and text parsing. Their outputs are inputs: the box file's numbers in order, and the annotation's (image, box) pairs, with the number of lines deciding the IndexError at line 25. The 1-D shape `np.loadtxt` gives for a one-line file is covered by the flat reshape.
- The rescaling after `cv2.resize` at dataset_builder.py:54-60, and `self.img_shape`. They depend on OpenCV's resized image size; `GetItem` takes the rows load_file returns.
- `transform_pad`, `transform_hsv` and `np.fliplr` on pixels. The padding `(dh, dw)` and the padded width are inputs.
- `random.random() < 0.5` at dataset_builder.py:70 is the parameter `coin`.
- `DatasetBuilder`, `DataLoader`, batching, shuffling and workers. These are library wiring and concurrency.
- MAX_NUM_BBOXES: katacr/build_dataset/constant.py is not part of this model, so the capacity is a constructor parameter, required positive. At capacity 0 numpy would broadcast a single box row into the empty slice and return count 1; the model does not cover that case.
- Dataset.YOLODataset.constructor: requires two or more annotation lines and a positive capacity. A shorter annotation is the `FlatAnnotation` outcome of `YOLODataset.Open`.
- Dataset.YOLODataset.GetItem: "fails iff n > capacity" holds because the capacity is positive; numpy's broadcast of one row into a zero-row buffer is not modelled.
- The copies `img.copy()` and `pbox.copy()` at line 77. `GetItem` already returns a freshly allocated buffer.
