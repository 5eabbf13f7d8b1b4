# A verified model of the FMoW dataset loaders

`cs231n/dataset.py` defines two PyTorch datasets over the Functional Map of
World (FMoW) satellite-image corpus:

- `FMOWDataset`, the training set. It walks `train/<category>` for every
  configured category, keeps the regular files named `…_rgb.jpg` under dense
  integer keys, and then replaces that map by a renumbered random subsample
  of 50000 entries.
- `FMOWDataset_test`, the test set. It walks `test/` and adds one entry
  `path:i` for each bounding box listed in each image's metadata sidecar.

Each `__getitem__` resolves a key to an image and one bounding box. It cuts
the box out of the image with a 16-pixel margin, with the margin clamped to
the image. It labels the crop with the position of the box's category in the
configured category list. `ToTensor` then moves the channel axis to the front.

The model is written in Dafny, in eight modules:

- `PyBuiltins`: the Python behaviour the code relies on, stated exactly.
  This covers `str.endswith`, `str.split`, `str(n)`, `int(s)`, `list.index`,
  negative list positions, slice bounds and `os.path.join`.
- `Arrays`: height × width images and three-axis tensors, and the two axis
  permutations.
- `Records`: the parsed metadata, the sample, the errors, the sidecar path,
  box-list normalisation and the label lookup.
- `Crop`: the buffered crop rectangle and the crop itself.
- `Transforms`: `ToTensor`.
- `SampleIndex`: what the index builders compute, stated as values. This
  covers the images a walk discovers, the dense key map, the subsample, and
  encoding and decoding the test keys.
- `Extraction`: what each `__getitem__` returns, as a function of the index
  and the filesystem.
- `Datasets`: the two dataset objects as classes.
  - Their `map` and `curr_index` fields are updated in the same nested loops
    as in the source.
  - Each loop is proved against the `SampleIndex` functions.
  - Each `GetItem` method is proved equal to the matching `Extraction`
    function.

The filesystem is a value, `Disk`. It holds four things:

- what `os.walk` yields under each directory;
- the set of paths `os.path.isfile` accepts;
- the decoded images;
- the parsed metadata sidecars.

The random draw of `np.random.choice` is an input sequence of positions.
Every exception the source can raise at a modelled point, on a sidecar of
the shape `Metadata` describes, is an explicit `Err` value.

## Model

| member | source | states |
|---|---|---|
| Crop.CropRect | cs231n/dataset.py:72-80 | The clamped bounds satisfy `r1 >= 0`, `c1 >= 0`, `r2 <= height` and `c2 <= width`. A row or column is in the rectangle exactly when it is in the image and in the box grown by 16. When the grown box fits, the rectangle is that box, `h + 32` rows by `w + 32` columns. When the box itself fits, the rectangle contains it. |
| Crop.CropImage | cs231n/dataset.py:81 | The crop has shape `(rows, columns, 1)`, and its pixel `(i, j, 0)` is image pixel `(r1 + i, c1 + j)`. An empty range gives an empty crop. |
| Crop.CropIsIntersection | cs231n/dataset.py:202-211 | An image pixel lies under the grown box exactly when the crop holds it at the offset of the crop origin, and the crop holds that pixel's value. |
| Crop.CropImageAsWritten | cs231n/dataset.py:81 | The slice with numpy's semantics for bounds: a negative end counts from the far edge. The shape follows those normalised bounds, and pixel `(i, j, 0)` is image pixel `(lo_r + i, lo_c + j)` for the normalised starts `lo_r`, `lo_c`. |
| Crop.SliceRect | cs231n/dataset.py:81 | The bounds numpy uses: each clamped bound normalised with Python's slice rules, landing inside the image. A bound inside the image is kept, and a negative end `e` with `-len <= e` becomes `len + e`. |
| Crop.AsWrittenIsSlice | cs231n/dataset.py:81 | Row `i` of the as-written crop is row `i` of Python's `image[r1:r2]`, and its pixels are that row's `[c1:c2]` slice. |
| Crop.AsWrittenAgrees | cs231n/dataset.py:77-81 | With non-negative ends, the slice as written equals the in-bounds crop. |
| Crop.NegativeEndWraps | cs231n/dataset.py:73-81 | Box `[10, -60, 10, 10]` in a 100 × 100 image misses every row, yet the clamped end is -34. The slice as written then takes 66 rows, where the corrected crop takes none. |
| Records.Sidecar | cs231n/dataset.py:58 | The sidecar path is the image path without its last three characters, followed by `json`. A path shorter than three characters gives `json`. |
| Records.SidecarOfRgb | cs231n/dataset.py:169 | `…_rgb.jpg` maps to `…_rgb.json`, with the same base and one character longer. |
| Records.FirstBox | cs231n/dataset.py:66-69 | The training box is the first box of a list, or a bare record as it stands. It succeeds exactly when there is a box, and fails with `NoBoxes` on an empty list. |
| Records.BoxCount | cs231n/dataset.py:176-178 | A bare record counts as one box, and a list as its length. |
| Records.SelectBox | cs231n/dataset.py:196-199 | After a bare record is wrapped in a list, position `p` selects `boxes[p]`, or `boxes[len + p]` when `p` is negative. It succeeds exactly when `-len <= p < len`. |
| Records.Label | cs231n/dataset.py:90 | The label is position `k` of the category in `fmow_class_names_mini`: `names[k]` is the category and no earlier name is. It fails exactly when the category is absent. |
| PyBuiltins.IndexOf | cs231n/dataset.py:220 | `list.index`: `None` exactly when the value is absent, otherwise the first position holding it. |
| PyBuiltins.Split | cs231n/dataset.py:186 | `str.split(sep)` gives one more piece than there are separators, and no piece contains the separator. |
| PyBuiltins.JoinSplit | cs231n/dataset.py:186 | Joining the pieces with the separator gives back the string. |
| PyBuiltins.NatToString | cs231n/dataset.py:179 | `str(n)` is a non-empty string of digits without a leading zero. |
| PyBuiltins.ParseNatToString | cs231n/dataset.py:187 | `int(str(n)) == n`. |
| PyBuiltins.SliceBound | cs231n/dataset.py:81 | A slice bound is normalised into `0..len`, and a negative bound counts from the end. |
| PyBuiltins.Slice | cs231n/dataset.py:58 | `s[lo:hi]`: its length and its elements under the normalised bounds. |
| PyBuiltins.PathJoin | cs231n/dataset.py:35 | `os.path.join(a, b)` ends in `b`, and is `b` when `b` is absolute. |
| SampleIndex.KeyRoundTrip | cs231n/dataset.py:179-187 | Decoding `p + ":" + str(i)` gives back `(p, i)` exactly when `p` holds no `:`. When `p` holds a `:`, the decode fails with `MalformedKey`. |
| SampleIndex.DecodeKey | cs231n/dataset.py:186-187 | It succeeds exactly when the split gives two pieces and the second parses as an integer. It then gives the first piece as the path and that integer as the position. Anything else is `MalformedKey`. |
| SampleIndex.Indexed | cs231n/dataset.py:38-39 | The map a `curr_index` counter builds has exactly the keys `0..n-1`, and key `k` holds the `k`-th entry inserted. |
| SampleIndex.IndexedAppend | cs231n/dataset.py:179-180 | Inserting at the counter value and incrementing it extends the dense map by one entry. |
| SampleIndex.IndexedSize | cs231n/dataset.py:54 | The dense map has one key per entry. |
| SampleIndex.StepImagesSelected | cs231n/dataset.py:33-37 | Every image one walk step contributes is a regular file whose name ends in `_rgb.jpg`. |
| SampleIndex.WalkImagesSelected | cs231n/dataset.py:163-168 | Every image a whole walk discovers is a regular `…_rgb.jpg` file. |
| SampleIndex.WalkImagesComplete | cs231n/dataset.py:32-37 | Every regular `…_rgb.jpg` file the walk lists is discovered. |
| SampleIndex.TrainImagesSelected | cs231n/dataset.py:42-43 | Every training image, over all categories, is a regular `…_rgb.jpg` file. |
| SampleIndex.WalkImagesPrefix | cs231n/dataset.py:163 | The images of the first `i` walk steps are a prefix of those of the whole walk, so discovery order is kept. |
| SampleIndex.SubsampleMap | cs231n/dataset.py:46-51 | The renumbered map has exactly `size` keys, `0..size-1`. Key `i` holds what the old map held at `indices[i]`, and that key exists. |
| SampleIndex.DrawWithoutReplacement | cs231n/dataset.py:47-50 | A draw of distinct positions never picks an entry more often than it was discovered: the picked entries are a sub-multiset of the discovered ones. |
| SampleIndex.ReadableAt | cs231n/dataset.py:169-173 | The image list is readable exactly when each image on it has a readable sidecar. |
| SampleIndex.TestKeysAppend | cs231n/dataset.py:178-180 | A readable image appends one key `path:i` for each of its box positions. |
| SampleIndex.TestKeysSize | cs231n/dataset.py:176-180 | The test index has one key per bounding box, summed over the discovered images, with a bare record counting as one. |
| SampleIndex.TestKeyAt | cs231n/dataset.py:178-179 | Test entry `k` is `path:i` for discovered image `j` and a box position `i` below that image's box count. |
| Extraction.CutSample | cs231n/dataset.py:71-90 | The sample is the corrected crop of the clamped rectangle, with a one-element label holding the category's first position. It fails exactly when the category is absent. The crop equals the slice as written whenever both clamped ends are not negative. It is no larger than the image. When `h` and `w` are not negative and the grown box fits, it is `h + 32` by `w + 32`. |
| Extraction.TrainSample | cs231n/dataset.py:56-90 | The training sample: `MissingKey` for an absent key, an error for an unreadable image or sidecar, `NoBoxes` for an empty list, and otherwise the cut of the first box. |
| Extraction.TestSample | cs231n/dataset.py:185-220 | The test sample. It yields `MissingKey` for an absent key and `MalformedKey` when decoding fails, and an error when the image or sidecar cannot be read. The decoded position, counted from the end when negative, selects the box, and a position out of range is `BoxIndexOutOfRange`. |
| Extraction.TrainEntryIsRgb | cs231n/dataset.py:34-58 | Every entry of the subsample is a regular `…_rgb.jpg` file whose sidecar is the `…_rgb.json` file. |
| Extraction.TestEntryIsRgb | cs231n/dataset.py:163-179 | Every test entry is `path:i`, where `path` is a discovered regular `…_rgb.jpg` file with a readable sidecar and `i` is below its box count. |
| Extraction.TestEntryResolves | cs231n/dataset.py:179-199 | It holds for discovered images whose paths contain no `:` and that can all be read, i.e. are in `disk.images`. Test entry `k` then decodes back to its image `j` and box `i`, and `i` is below that image's box count. Entry `k` is the cut of that box. |
| Transforms.ToTensor | cs231n/dataset.py:100-104 | `out[c][h][w] == img[h][w][c]`, the shape `(H, W, C)` becomes `(C, H, W)`, and the label is unchanged. |
| Transforms.ToTensorInvertible | cs231n/dataset.py:103 | Moving the channel axis back to the end gives the sample that went in. |
| Arrays.ChannelFirst | cs231n/dataset.py:103 | `transpose((2, 0, 1))`: the permuted shape, and each element moved to its permuted position. |
| Arrays.ChannelRoundTrip | cs231n/dataset.py:103 | `transpose((2, 0, 1))` and `transpose((1, 2, 0))` undo each other, in both orders. |
| Datasets.FmowTrain.constructor | cs231n/dataset.py:28-29 | The map starts empty and the counter at 0. |
| Datasets.FmowTrain.PopulateMap | cs231n/dataset.py:30-39 | The nested loop appends the category's walk images in discovery order, each under the next counter value. The map stays the dense map of everything inserted so far. |
| Datasets.FmowTrain.AddStep | cs231n/dataset.py:33-39 | The inner loop over one step's files appends that step's images. |
| Datasets.FmowTrain.Insert | cs231n/dataset.py:38-39 | `map[curr_index] = image; curr_index += 1` keeps the map dense and appends the image. |
| Datasets.FmowTrain.Subsample | cs231n/dataset.py:46-51 | With at least 50000 entries, the map becomes the renumbered draw. With fewer, the draw fails and nothing changes. The counter is untouched. |
| Datasets.FmowTrain.GetItem | cs231n/dataset.py:56-90 | It returns exactly `TrainSample` for the object's current map. |
| Datasets.NewFmowTrain | cs231n/dataset.py:19-51 | It succeeds exactly when at least 50000 images are discovered, and otherwise fails with the population size. On success the map is the dense map of the drawn images, with exactly 50000 keys, and the counter is the population size. |
| Datasets.FmowTest.constructor | cs231n/dataset.py:160-161 | The map starts empty and the counter at 0. |
| Datasets.FmowTest.IndexTestDir | cs231n/dataset.py:163-180 | The walk stops with an unreadable sidecar exactly when some discovered image has one. Otherwise the map is the dense map of `TestKeys` over the discovered images. |
| Datasets.FmowTest.IndexFiles | cs231n/dataset.py:164-180 | One step's files extend the entries by that step's images' keys. The method stops with the missing sidecar when one is unreadable. |
| Datasets.FmowTest.IndexFile | cs231n/dataset.py:165-180 | A regular `…_rgb.jpg` file adds its keys. Any other file adds nothing. An unreadable sidecar is reported. |
| Datasets.FmowTest.AddKeys | cs231n/dataset.py:178-180 | One key `path:i` for each box position, each under the next counter value. |
| Datasets.FmowTest.GetItem | cs231n/dataset.py:185-220 | It returns exactly `TestSample` for the object's current map. |
| Datasets.NewFmowTest | cs231n/dataset.py:151-180 | It succeeds exactly when every discovered image has a readable sidecar. The map then holds `TestKeys` under keys `0..n-1`, with `n` the total box count. |
| Datasets.UnreadablePrefix | cs231n/dataset.py:170-175 | An unreadable sidecar among the images found so far stays unreadable for the whole walk. |
| SampleIndex.EncodeKey | cs231n/dataset.py:179 | The test entry starts with the path, then one `:`, then the decimal digits of `i`. `KeyRoundTrip` states that `DecodeKey` inverts it. |
| PyBuiltins.ParseInt | cs231n/dataset.py:187 | `int(s)` succeeds exactly on decimal digits with an optional sign. It gives the digits' value for plain digits and after `+`, and the negated value after `-`. `ParseNatToString` states that it inverts `str(n)`. |
| PyBuiltins.At | cs231n/dataset.py:199 | List indexing: it succeeds exactly when `-len <= i < len`, giving `xs[i]` or `xs[len + i]` for a negative `i`. |
| SampleIndex.StepImages | cs231n/dataset.py:33-39 | The images one walk step contributes in listing order; `StepImagesListed` and `StepImagesComplete` state that they are exactly the joined paths of the selected listed files, and `StepImagesSelected` that each is a regular `…_rgb.jpg` file. |
| SampleIndex.WalkImages | cs231n/dataset.py:32-39 | The images a whole walk discovers in walk order; `WalkImagesListed` and `WalkImagesComplete` state that they are exactly the selected files some step lists, `WalkImagesSelected` that each is a regular `…_rgb.jpg` file, and `WalkImagesPrefix` that walk order is kept. |
| SampleIndex.TrainImages | cs231n/dataset.py:30-43 | The training images, category by category in configured order; `TrainImagesSelected` states that each is a regular `…_rgb.jpg` file. |
| SampleIndex.TestImages | cs231n/dataset.py:162-168 | The images the walk of `test/` discovers. |
| SampleIndex.TestKeys | cs231n/dataset.py:163-180 | The test entries, image by image, in discovery order; `TestKeysSize`, `TestKeyAt` and `TestKeysAppend` state their number and form. |
| SampleIndex.Drawn | cs231n/dataset.py:49-50 | The drawn entries: one per drawn position, entry `i` being the discovered entry at `indices[i]`. |
| Records.Boxes | cs231n/dataset.py:176-177 | A bare record becomes a list of one, and a list is kept as it stands. |
| SampleIndex.Selected | cs231n/dataset.py:34-37 | A file enters an index exactly when its name ends in `_rgb.jpg` and its joined path is a regular file; `StepImagesListed` and `StepImagesComplete` state that a step discovers exactly these files. |
| PyBuiltins.EndsWith | cs231n/dataset.py:34 | `str.endswith`: the suffix is no longer than the string and equals its last characters; `EndsWithTransitive` states that a suffix of a suffix is a suffix. |
| Crop.Buffered | cs231n/dataset.py:73-76 | The box grown by 16 on every side, before clamping; `CropRect` states that the clamped rectangle is its intersection with the image. |
| SampleIndex.IsDraw | cs231n/dataset.py:47 | What `np.random.choice(n, size, replace=False)` returns: `size` distinct positions below `n`; `DrawWithoutReplacement` and `SubsampleMap` state what a draw picks. |
| SampleIndex.TrainDir | cs231n/dataset.py:31 | `os.path.join(dataset, 'train', category)` ends in the category, and is the category when that is absolute. |
| SampleIndex.TestDir | cs231n/dataset.py:162 | `os.path.join(dataset, 'test')` ends in `test`. |
| SampleIndex.Disk.Walk | cs231n/dataset.py:32 | `os.walk(top)`: the listed steps of the directory, and nothing for a directory the disk does not have. |
| SampleIndex.ImageKeys | cs231n/dataset.py:178-179 | The keys of one image: `n` entries, entry `i` being `path:i`. |
| SampleIndex.SidecarsReadable | cs231n/dataset.py:169-175 | Every image on the list has a readable sidecar; `ReadableAt` states it pointwise. |
| SampleIndex.StepImagesComplete | cs231n/dataset.py:33-39 | Every regular `…_rgb.jpg` file one step lists is among that step's discovered images. |
| SampleIndex.ListedIn | cs231n/dataset.py:33-37 | A path is the `os.path.join(root, file)` of some file the step lists that passes the filter. |
| SampleIndex.ListedInWalk | cs231n/dataset.py:32-37 | A path is listed and selected in some step of the walk. |
| SampleIndex.StepImagesListed | cs231n/dataset.py:33-39 | Every image one step contributes is the joined path of a selected file that the step lists, so nothing else enters. |
| SampleIndex.WalkImagesListed | cs231n/dataset.py:32-39 | Every image a whole walk discovers is the joined path of a selected file that some step lists. |

## Left out

- Extraction.CutSample: the samples of both `__getitem__` methods, and so `TrainSample`, `TestSample`, both `GetItem` methods and `TestEntryResolves`, use the corrected crop `Crop.CropImage`. Where a clamped end is negative, the source's slice wraps around from the far edge (see Findings) and the model does not follow it. `CutSample` states that its crop equals the slice as written whenever both clamped ends are not negative.
- `os.walk` and `os.path.isfile` are filesystem I/O. The walk result and the set of regular files are fields of the `Disk` value. The `dirs` list and the walk's own ordering are taken as given.
- `cv2.imread` and `json.load` are foreign decoders. Images are given as decoded `height × width` grids of an arbitrary pixel type, and sidecars as parsed `Metadata`. The float conversion `astype(np.float32)` is not modelled.
- In the source, a failed load prints the exception and carries on with a stale or unbound `image` or `metadata`. That print-and-continue behaviour is not modelled. The model instead returns an explicit `ImageUnreadable` or `MetadataUnreadable` error. In the test `__init__` it stops the walk and returns `MetadataUnreadable`.
- `np.random.choice` is random. The drawn positions are an input, distinct and below the population size. The code always draws 50000. With fewer entries the draw fails: `Datasets.NewFmowTrain` returns that as an error, where the source raises `ValueError`.
- `self.mini_map` is not kept as a separate field. The model assigns it straight to the map, as line 51 does.
- `Rescale` is not modelled: it wraps `cv2.resize`, whose interpolation is not visible here. `Normalize` is not modelled either: it is floating-point arithmetic.
- The torch tensor conversions are not modelled, and neither are the `Dataset`/`DataLoader` base classes or the commented-out binary label.
- The transform call at lines 92-95 and 222-225 is not modelled. `GetItem` returns the sample before any transform, and `ToTensor` is modelled separately. With no transform, the source fails with `UnboundLocalError` on `sample`; that failure is not modelled.
- `__len__` is not modelled as a member. `SampleIndex.IndexedSize` states the map's size.
- `params` and `transform` are not stored on the objects.
- Records.Box: the `box` field is four Python integers. JSON floats and lists of another length are not modelled.
- Records.Metadata: every sidecar is taken to have `bounding_boxes`, and every record a `box` and a `category`. The `KeyError` the source raises otherwise (lines 66, 71, 90, 176, 196, 201 and 220) is not modelled.
- PyBuiltins.ParseInt: `int()` accepts an optional sign and decimal digits. The whitespace, underscore and non-ASCII digit forms it also accepts are not modelled.
- Records.Label: the label array is a `seq<int>` of one element, not a float `np.ndarray`.

## Findings

| source | as written | input that shows it | evidently intended | confidence | as-written member | corrected member |
|---|---|---|---|---|---|---|
| cs231n/dataset.py:78,80,81 (also 208,210,211) | `r2 = min(r2, image.shape[0])` can be negative when the buffered box lies wholly above or left of the image, and `image[r1:r2]` then counts the negative end from the far edge | box `[10, -60, 10, 10]` in a 100 × 100 image: the clamped rows are `0..-34`, and the slice takes 66 rows although no row of the image is under the box | an empty crop when the buffered box misses the image | low (not executed) | Crop.CropImageAsWritten, Crop.NegativeEndWraps | Crop.CropImage, Crop.CropIsIntersection |
