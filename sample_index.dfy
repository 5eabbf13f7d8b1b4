/** What the two index builders compute, stated as values: the RGB images a
    directory walk discovers, the dense `key -> entry` map over them, the
    training subsample and the test keys `path:position`. */
module SampleIndex {
  import opened PyBuiltins
  import opened Arrays
  import opened Records

  /** One step of `os.walk`: a directory and the names of the files
      directly in it, in listing order. */
  datatype WalkStep = WalkStep(root: Path, files: seq<string>)

  /** The filesystem as the dataset code sees it: what `os.walk` yields
      under each top directory, which paths `os.path.isfile` accepts, and
      the decoded images and parsed metadata that can be read. */
  datatype Disk<T> = Disk(
    walks: map<Path, seq<WalkStep>>,
    isFile: set<Path>,
    images: map<Path, Image<T>>,
    metadata: map<Path, Metadata>)
  {
    /** `os.walk(top)`; a missing directory yields nothing. */
    function Walk(top: Path): seq<WalkStep> {
      if top in walks then walks[top] else []
    }

    predicate Shaped() {
      forall p :: p in images ==> images[p].Shaped()
    }
  }

  /** The file-name suffix of an RGB image. */
  const RgbSuffix: string := "_rgb.jpg"

  /** The number of entries the training set keeps. */
  const SampleSize: nat := 50000

  /** A file that enters an index: an RGB image name whose joined path is a
      regular file. */
  predicate Selected(root: Path, name: string, isFile: set<Path>) {
    EndsWith(name, RgbSuffix) && PathJoin(root, name) in isFile
  }

  /** The images one walk step contributes, in listing order. */
  function StepImages(root: Path, names: seq<string>, isFile: set<Path>): seq<Path> {
    if names == [] then []
    else
      var last := names[|names| - 1];
      StepImages(root, names[..|names| - 1], isFile)
        + (if Selected(root, last, isFile) then [PathJoin(root, last)] else [])
  }

  /** The images a whole walk discovers, in discovery order. */
  function WalkImages(steps: seq<WalkStep>, isFile: set<Path>): seq<Path> {
    if steps == [] then []
    else
      var last := steps[|steps| - 1];
      WalkImages(steps[..|steps| - 1], isFile) + StepImages(last.root, last.files, isFile)
  }

  /** `os.path.join(dataset, 'train', category)` */
  function TrainDir(dataset: Path, category: string): (r: Path)
    ensures EndsWith(r, category)
    ensures |category| > 0 && category[0] == '/' ==> r == category
  {
    PathJoin(PathJoin(dataset, "train"), category)
  }

  /** `os.path.join(dataset, 'test')` */
  function TestDir(dataset: Path): (r: Path)
    ensures EndsWith(r, "test")
  {
    PathJoin(dataset, "test")
  }

  /** The training images, category by category in configured order. */
  function TrainImages<T>(disk: Disk<T>, dataset: Path, names: seq<string>): seq<Path> {
    if names == [] then []
    else
      TrainImages(disk, dataset, names[..|names| - 1])
        + WalkImages(disk.Walk(TrainDir(dataset, names[|names| - 1])), disk.isFile)
  }

  /** The images the test walk discovers. */
  function TestImages<T>(disk: Disk<T>, dataset: Path): seq<Path> {
    WalkImages(disk.Walk(TestDir(dataset)), disk.isFile)
  }

  /** The dense map `0 -> s[0], 1 -> s[1], …` that a `curr_index` counter
      builds by inserting the entries of `s` in order. */
  function Indexed<V>(s: seq<V>): (m: map<int, V>)
    ensures forall k :: k in m <==> 0 <= k < |s|
    ensures forall k :: 0 <= k < |s| ==> m[k] == s[k]
  {
    map k | 0 <= k < |s| :: s[k]
  }

  /** Inserting the next entry at the counter extends the dense map. */
  lemma IndexedAppend<V>(s: seq<V>, x: V)
    ensures Indexed(s + [x]) == Indexed(s)[|s| := x]
  {
  }

  /** The dense map has one key per entry. */
  lemma {:induction false} IndexedSize<V>(s: seq<V>)
    ensures |Indexed(s)| == |s|
  {
    if s != [] {
      var n := |s| - 1;
      IndexedSize(s[..n]);
      assert s == s[..n] + [s[n]];
      IndexedAppend(s[..n], s[n]);
      assert n !in Indexed(s[..n]);
    }
  }

  predicate IsPrefix(a: seq<Path>, b: seq<Path>) {
    |a| <= |b| && b[..|a|] == a
  }

  lemma {:induction false} StepImagesPrefix(root: Path, names: seq<string>, isFile: set<Path>, j: nat)
    requires j <= |names|
    ensures IsPrefix(StepImages(root, names[..j], isFile), StepImages(root, names, isFile))
    decreases |names|
  {
    if j < |names| {
      var n := |names| - 1;
      assert names[..n][..j] == names[..j];
      StepImagesPrefix(root, names[..n], isFile, j);
    } else {
      assert names[..j] == names;
    }
  }

  lemma {:induction false} WalkImagesPrefix(steps: seq<WalkStep>, isFile: set<Path>, i: nat)
    requires i <= |steps|
    ensures IsPrefix(WalkImages(steps[..i], isFile), WalkImages(steps, isFile))
    decreases |steps|
  {
    if i < |steps| {
      var n := |steps| - 1;
      assert steps[..n][..i] == steps[..i];
      WalkImagesPrefix(steps[..n], isFile, i);
    } else {
      assert steps[..i] == steps;
    }
  }

  /** Only selected files enter: every discovered image is a regular file
      whose name ends in `_rgb.jpg`. */
  lemma {:induction false} StepImagesSelected(root: Path, names: seq<string>, isFile: set<Path>)
    ensures forall k :: 0 <= k < |StepImages(root, names, isFile)| ==>
      EndsWith(StepImages(root, names, isFile)[k], RgbSuffix) && StepImages(root, names, isFile)[k] in isFile
  {
    if names != [] {
      var last := names[|names| - 1];
      StepImagesSelected(root, names[..|names| - 1], isFile);
      if Selected(root, last, isFile) {
        EndsWithTransitive(PathJoin(root, last), last, RgbSuffix);
      }
    }
  }

  /** `p` is the joined path of a selected file that the step lists. */
  predicate ListedIn(p: Path, root: Path, names: seq<string>, isFile: set<Path>) {
    exists n :: 0 <= n < |names| && Selected(root, names[n], isFile) && p == PathJoin(root, names[n])
  }

  /** `p` is the joined path of a selected file that some step of the walk
      lists. */
  predicate ListedInWalk(p: Path, steps: seq<WalkStep>, isFile: set<Path>) {
    exists s :: 0 <= s < |steps| && ListedIn(p, steps[s].root, steps[s].files, isFile)
  }

  /** Nothing else enters: every image a step contributes is the joined
      path of a selected file that the step lists. */
  lemma {:induction false} StepImagesListed(root: Path, names: seq<string>, isFile: set<Path>)
    ensures forall k :: 0 <= k < |StepImages(root, names, isFile)| ==>
      ListedIn(StepImages(root, names, isFile)[k], root, names, isFile)
  {
    if names != [] {
      var m := |names| - 1;
      var pre := StepImages(root, names[..m], isFile);
      StepImagesListed(root, names[..m], isFile);
      forall k | 0 <= k < |StepImages(root, names, isFile)|
        ensures ListedIn(StepImages(root, names, isFile)[k], root, names, isFile)
      {
        if k < |pre| {
          assert StepImages(root, names, isFile)[k] == pre[k];
          var n :| 0 <= n < m && Selected(root, names[..m][n], isFile) && pre[k] == PathJoin(root, names[..m][n]);
          assert names[..m][n] == names[n];
        } else {
          assert StepImages(root, names, isFile)[k] == PathJoin(root, names[m]);
        }
      }
    }
  }

  /** The same over a whole walk: every discovered image comes from a
      selected file that some step lists. */
  lemma {:induction false} WalkImagesListed(steps: seq<WalkStep>, isFile: set<Path>)
    ensures forall k :: 0 <= k < |WalkImages(steps, isFile)| ==>
      ListedInWalk(WalkImages(steps, isFile)[k], steps, isFile)
  {
    if steps != [] {
      var m := |steps| - 1;
      var pre := WalkImages(steps[..m], isFile);
      var last := steps[m];
      WalkImagesListed(steps[..m], isFile);
      StepImagesListed(last.root, last.files, isFile);
      forall k | 0 <= k < |WalkImages(steps, isFile)|
        ensures ListedInWalk(WalkImages(steps, isFile)[k], steps, isFile)
      {
        if k < |pre| {
          assert WalkImages(steps, isFile)[k] == pre[k];
          var t :| 0 <= t < m && ListedIn(pre[k], steps[..m][t].root, steps[..m][t].files, isFile);
          assert steps[..m][t] == steps[t];
        } else {
          assert WalkImages(steps, isFile)[k] == StepImages(last.root, last.files, isFile)[k - |pre|];
        }
      }
    }
  }

  lemma {:induction false} WalkImagesSelected(steps: seq<WalkStep>, isFile: set<Path>)
    ensures forall k :: 0 <= k < |WalkImages(steps, isFile)| ==>
      EndsWith(WalkImages(steps, isFile)[k], RgbSuffix) && WalkImages(steps, isFile)[k] in isFile
  {
    if steps != [] {
      var last := steps[|steps| - 1];
      WalkImagesSelected(steps[..|steps| - 1], isFile);
      StepImagesSelected(last.root, last.files, isFile);
    }
  }

  /** Every selected file is discovered. */
  lemma {:induction false} StepImagesComplete(root: Path, names: seq<string>, isFile: set<Path>, j: nat)
    requires j < |names| && Selected(root, names[j], isFile)
    ensures PathJoin(root, names[j]) in StepImages(root, names, isFile)
  {
    var n := |names| - 1;
    if j < n {
      assert names[..n][j] == names[j];
      StepImagesComplete(root, names[..n], isFile, j);
    }
  }

  lemma {:induction false} WalkImagesComplete(steps: seq<WalkStep>, isFile: set<Path>, i: nat, j: nat)
    requires i < |steps| && j < |steps[i].files| && Selected(steps[i].root, steps[i].files[j], isFile)
    ensures PathJoin(steps[i].root, steps[i].files[j]) in WalkImages(steps, isFile)
  {
    var n := |steps| - 1;
    if i < n {
      assert steps[..n][i] == steps[i];
      WalkImagesComplete(steps[..n], isFile, i, j);
    } else {
      StepImagesComplete(steps[i].root, steps[i].files, isFile, j);
    }
  }

  /** Every training image is a regular file named `…_rgb.jpg`. */
  lemma {:induction false} TrainImagesSelected<T>(disk: Disk<T>, dataset: Path, names: seq<string>)
    ensures forall k :: 0 <= k < |TrainImages(disk, dataset, names)| ==>
      EndsWith(TrainImages(disk, dataset, names)[k], RgbSuffix) &&
      TrainImages(disk, dataset, names)[k] in disk.isFile
  {
    if names != [] {
      TrainImagesSelected(disk, dataset, names[..|names| - 1]);
      WalkImagesSelected(disk.Walk(TrainDir(dataset, names[|names| - 1])), disk.isFile);
    }
  }

  // ---------------------------------------------------------------------
  // Training subsample

  /** What `np.random.choice(population, size, replace=False)` returns:
      `size` distinct positions below `population`. */
  predicate IsDraw(draw: seq<int>, population: nat, size: nat) {
    && |draw| == size
    && (forall i :: 0 <= i < |draw| ==> 0 <= draw[i] < population)
    && (forall i, j :: 0 <= i < j < |draw| ==> draw[i] != draw[j])
  }

  /** The entries picked by a draw, in the order drawn. */
  function Drawn<V>(found: seq<V>, draw: seq<int>): (r: seq<V>)
    requires forall i :: 0 <= i < |draw| ==> 0 <= draw[i] < |found|
    ensures |r| == |draw|
    ensures forall i :: 0 <= i < |draw| ==> r[i] == found[draw[i]]
  {
    seq(|draw|, i requires 0 <= i < |draw| => found[draw[i]])
  }

  /** The renumbered map: exactly the keys `0..size-1`, key `i` holding
      the entry the old map held at `draw[i]`. */
  lemma SubsampleMap<V>(found: seq<V>, draw: seq<int>, size: nat)
    requires IsDraw(draw, |found|, size)
    ensures var mini := Indexed(Drawn(found, draw));
      && |mini| == size
      && (forall k :: k in mini <==> 0 <= k < size)
      && (forall i :: 0 <= i < size ==> draw[i] in Indexed(found) && mini[i] == Indexed(found)[draw[i]])
  {
    IndexedSize(Drawn(found, draw));
  }

  /** The list with position `k` removed. */
  function Without<V>(s: seq<V>, k: nat): (r: seq<V>)
    requires k < |s|
    ensures |r| == |s| - 1
    ensures forall i :: 0 <= i < |r| ==> r[i] == s[if i < k then i else i + 1]
    ensures multiset(s) == multiset(r) + multiset{s[k]}
  {
    assert s == s[..k] + [s[k]] + s[k + 1..];
    s[..k] + s[k + 1..]
  }

  /** The positions of a draw renumbered for the list without position `k`. */
  function Shift(draw: seq<int>, k: int): (r: seq<int>)
    ensures |r| == |draw|
    ensures forall i :: 0 <= i < |r| ==> r[i] == if draw[i] < k then draw[i] else draw[i] - 1
  {
    seq(|draw|, i requires 0 <= i < |draw| => if draw[i] < k then draw[i] else draw[i] - 1)
  }

  /** Removing the entry the last draw picked leaves the earlier draws,
      renumbered, a draw from what remains that picks the same entries. */
  lemma ShiftedDraw<V>(found: seq<V>, draw: seq<int>)
    requires IsDraw(draw, |found|, |draw|) && draw != []
    ensures var n := |draw| - 1;
      && IsDraw(Shift(draw[..n], draw[n]), |found| - 1, n)
      && Drawn(Without(found, draw[n]), Shift(draw[..n], draw[n])) == Drawn(found, draw[..n])
  {
    var n := |draw| - 1;
    var k := draw[n];
    var shifted := Shift(draw[..n], k);
    var rest := Without(found, k);
    assert forall i :: 0 <= i < n ==> draw[i] != k;
    forall i, j | 0 <= i < j < n ensures shifted[i] != shifted[j] {
      assert draw[i] != draw[j];
    }
    assert IsDraw(shifted, |rest|, n);
    forall i | 0 <= i < n ensures Drawn(rest, shifted)[i] == Drawn(found, draw[..n])[i] {
      assert draw[i] != k;
    }
  }

  /** Drawing without replacement: no discovered entry is picked more
      often than it occurs, so the picked entries form a sub-multiset of
      the discovered ones. */
  lemma {:induction false} DrawWithoutReplacement<V>(found: seq<V>, draw: seq<int>)
    requires IsDraw(draw, |found|, |draw|)
    ensures multiset(Drawn(found, draw)) <= multiset(found)
    decreases |draw|
  {
    if draw != [] {
      var n := |draw| - 1;
      var k := draw[n];
      ShiftedDraw(found, draw);
      DrawWithoutReplacement(Without(found, k), Shift(draw[..n], k));
      DrawnLast(found, draw);
      SubMultisetAppend(Drawn(found, draw[..n]), Without(found, k), found[k]);
    }
  }

  /** The entries of a draw are those of its earlier positions, then the entry of its last. */
  lemma DrawnLast<V>(found: seq<V>, draw: seq<int>)
    requires forall i :: 0 <= i < |draw| ==> 0 <= draw[i] < |found|
    requires draw != []
    ensures Drawn(found, draw) == Drawn(found, draw[..|draw| - 1]) + [found[draw[|draw| - 1]]]
  {
  }

  lemma SubMultisetAppend<V>(front: seq<V>, rest: seq<V>, x: V)
    requires multiset(front) <= multiset(rest)
    ensures multiset(front + [x]) <= multiset(rest) + multiset{x}
  {
    assert multiset(front + [x]) == multiset(front) + multiset{x};
  }

  // ---------------------------------------------------------------------
  // Test keys

  /** The test index entry `image_p + ":" + str(i)`. */
  function EncodeKey(p: Path, i: nat): (r: string)
    ensures |r| > |p| + 1 && r[..|p|] == p && r[|p|] == ':' && r[|p| + 1..] == NatToString(i)
  {
    p + ":" + NatToString(i)
  }

  /** `image_p, box_index = entry.split(":")` then `int(box_index)`; the
      unpacking fails unless there are exactly two pieces. */
  function DecodeKey(entry: string): (r: Result<(Path, int)>)
    ensures r.Ok? <==> |Split(entry, ':')| == 2 && ParseInt(Split(entry, ':')[1]).Some?
    ensures r.Ok? ==> r.value.0 == Split(entry, ':')[0]
    ensures r.Ok? ==> ParseInt(Split(entry, ':')[1]) == Some(r.value.1)
    ensures r.Err? ==> r.error == MalformedKey(entry)
  {
    var parts := Split(entry, ':');
    if |parts| != 2 then Err(MalformedKey(entry))
    else match ParseInt(parts[1])
      case None => Err(MalformedKey(entry))
      case Some(n) => Ok((parts[0], n))
  }

  /** The key decodes to the path and position it was made from exactly
      when the path holds no `:`; a path holding one makes the split give
      more than two pieces, and the decode fails. */
  lemma KeyRoundTrip(p: Path, i: nat)
    ensures DecodeKey(EncodeKey(p, i)) == Ok((p, i)) <==> ':' !in p
    ensures ':' in p ==> DecodeKey(EncodeKey(p, i)) == Err(MalformedKey(EncodeKey(p, i)))
  {
    var digits := NatToString(i);
    assert ':' !in digits by {
      forall k | 0 <= k < |digits| ensures digits[k] != ':' {
        assert IsDigit(digits[k]);
      }
    }
    assert EncodeKey(p, i) == p + [':'] + digits;
    if ':' !in p {
      SplitAfter(p, ':', digits);
      SplitWithout(digits, ':');
      ParseNatToString(i);
    } else {
      CountAppend(p + [':'], digits, ':');
      CountAppend(p, [':'], ':');
      CountPositive(p, ':');
    }
  }

  /** Every image on the list has a readable metadata sidecar. */
  predicate SidecarsReadable<T>(paths: seq<Path>, disk: Disk<T>) {
    paths == [] ||
      (SidecarsReadable(paths[..|paths| - 1], disk) && Sidecar(paths[|paths| - 1]) in disk.metadata)
  }

  /** The list is readable exactly when each of its images has a sidecar. */
  lemma {:induction false} ReadableAt<T>(paths: seq<Path>, disk: Disk<T>)
    ensures SidecarsReadable(paths, disk) <==>
      forall k :: 0 <= k < |paths| ==> Sidecar(paths[k]) in disk.metadata
  {
    if paths != [] {
      var n := |paths| - 1;
      ReadableAt(paths[..n], disk);
      assert forall k :: 0 <= k < n ==> paths[..n][k] == paths[k];
    }
  }

  /** The number of boxes the sidecar of an image lists. */
  function BoxesOf<T>(disk: Disk<T>, p: Path): nat
    requires Sidecar(p) in disk.metadata
  {
    BoxCount(disk.metadata[Sidecar(p)])
  }

  /** The keys of one image: one per box position. */
  function ImageKeys(p: Path, n: nat): (r: seq<string>)
    ensures |r| == n && forall i :: 0 <= i < n ==> r[i] == EncodeKey(p, i)
  {
    seq(n, i requires 0 <= i < n => EncodeKey(p, i))
  }

  /** The test index entries, image by image in discovery order. */
  function TestKeys<T>(paths: seq<Path>, disk: Disk<T>): (r: seq<string>)
    requires SidecarsReadable(paths, disk)
  {
    if paths == [] then []
    else
      var n := |paths| - 1;
      TestKeys(paths[..n], disk) + ImageKeys(paths[n], BoxesOf(disk, paths[n]))
  }

  /** Appending a readable image appends its keys. */
  lemma TestKeysAppend<T>(done: seq<Path>, p: Path, disk: Disk<T>)
    requires SidecarsReadable(done, disk) && Sidecar(p) in disk.metadata
    ensures SidecarsReadable(done + [p], disk)
    ensures TestKeys(done + [p], disk) == TestKeys(done, disk) + ImageKeys(p, BoxesOf(disk, p))
  {
    assert (done + [p])[..|done|] == done;
  }

  /** The images of no names and of all the names. */
  lemma StepImagesEnds(root: Path, names: seq<string>, isFile: set<Path>)
    ensures StepImages(root, names[..0], isFile) == []
    ensures StepImages(root, names[..|names|], isFile) == StepImages(root, names, isFile)
  {
    assert names[..0] == [];
    assert names[..|names|] == names;
  }

  /** One more step extends a walk's images by that step's images. */
  lemma WalkImagesNext(steps: seq<WalkStep>, isFile: set<Path>, i: nat)
    requires i < |steps|
    ensures WalkImages(steps[..i + 1], isFile)
      == WalkImages(steps[..i], isFile) + StepImages(steps[i].root, steps[i].files, isFile)
  {
    assert steps[..i + 1][..i] == steps[..i];
  }

  /** The images of no steps and of all the steps. */
  lemma WalkImagesEnds(steps: seq<WalkStep>, isFile: set<Path>)
    ensures WalkImages(steps[..0], isFile) == []
    ensures WalkImages(steps[..|steps|], isFile) == WalkImages(steps, isFile)
  {
    assert steps[..0] == [];
    assert steps[..|steps|] == steps;
  }

  /** One more category extends the training images by that category's walk. */
  lemma TrainImagesNext<T>(disk: Disk<T>, dataset: Path, names: seq<string>, k: nat)
    requires k < |names|
    ensures TrainImages(disk, dataset, names[..k + 1])
      == TrainImages(disk, dataset, names[..k]) + WalkImages(disk.Walk(TrainDir(dataset, names[k])), disk.isFile)
  {
    assert names[..k + 1][..k] == names[..k];
  }

  /** The training images of no categories and of all of them. */
  lemma TrainImagesEnds<T>(disk: Disk<T>, dataset: Path, names: seq<string>)
    ensures TrainImages(disk, dataset, names[..0]) == []
    ensures TrainImages(disk, dataset, names[..|names|]) == TrainImages(disk, dataset, names)
  {
    assert names[..0] == [];
    assert names[..|names|] == names;
  }

  /** One more file name extends a step's images by at most that file. */
  lemma StepImagesNext(root: Path, names: seq<string>, isFile: set<Path>, j: nat)
    requires j < |names|
    ensures StepImages(root, names[..j + 1], isFile) == StepImages(root, names[..j], isFile)
      + (if Selected(root, names[j], isFile) then [PathJoin(root, names[j])] else [])
  {
    assert names[..j + 1][..j] == names[..j];
  }

  /** The total number of boxes over the images. */
  function TotalBoxes<T>(paths: seq<Path>, disk: Disk<T>): nat
    requires SidecarsReadable(paths, disk)
  {
    if paths == [] then 0
    else TotalBoxes(paths[..|paths| - 1], disk) + BoxesOf(disk, paths[|paths| - 1])
  }

  /** One test entry per bounding box, a bare record counting as one. */
  lemma {:induction false} TestKeysSize<T>(paths: seq<Path>, disk: Disk<T>)
    requires SidecarsReadable(paths, disk)
    ensures |TestKeys(paths, disk)| == TotalBoxes(paths, disk)
    ensures |Indexed(TestKeys(paths, disk))| == TotalBoxes(paths, disk)
  {
    if paths != [] {
      TestKeysSize(paths[..|paths| - 1], disk);
    }
    IndexedSize(TestKeys(paths, disk));
  }

  /** Each test entry names one discovered image and one of its box
      positions. */
  lemma {:induction false} TestKeyAt<T>(paths: seq<Path>, disk: Disk<T>, k: nat)
    returns (j: nat, i: nat)
    requires SidecarsReadable(paths, disk) && k < |TestKeys(paths, disk)|
    ensures j < |paths| && Sidecar(paths[j]) in disk.metadata && i < BoxesOf(disk, paths[j])
    ensures TestKeys(paths, disk)[k] == EncodeKey(paths[j], i)
  {
    var n := |paths| - 1;
    var front := TestKeys(paths[..n], disk);
    if k < |front| {
      j, i := TestKeyAt(paths[..n], disk, k);
      assert paths[..n][j] == paths[j];
    } else {
      j, i := n, k - |front|;
    }
  }
}
