/**
 * The motion-capture partition slicer (scripts/mocap.py): take the trailing
 * window of the source matrix, check that the requested train/val/test sizes
 * fit in it, cut three consecutive row ranges and write each as the single
 * dataset `"0"` of the groups `train`, `val` and `test`.
 *
 * Rows are opaque values of type `T`; the counts are Python integers and may be
 * negative, in which case the slices follow Python's clamping rules.
 */
module Mocap {
  import opened Wrappers
  import opened PySlice
  import opened Container

  /**
   * What the script reads from `MOCAP.mat`: the `batchdata` matrix as a
   * sequence of rows, and the first row of the `seqlengths` matrix.
   */
  datatype MatFile<T> = MatFile(batchdata: seq<T>, seqlengths: seq<int>)

  datatype SlicerError =
    | SourceMissing                       // `MOCAP.mat` could not be opened
    | NoSequenceLength                    // `seqlengths[0, -1]` does not exist
    | NotEnoughTimeSteps(maximum: nat)    // the requested sizes do not fit; `maximum` is the window's row count

  /** The three partitions, in the order they are cut. */
  datatype Split<T> = Split(train: seq<T>, val: seq<T>, test: seq<T>)

  /** The three cut points `split_train_val`, `split_val_test` and `stop`. */
  datatype Bounds = Bounds(trainVal: int, valTest: int, stop: int)

  /** `batchdata[-k:]`, the usable window. */
  function Window<T>(batch: seq<T>, k: int): (w: seq<T>)
    ensures |w| <= |batch| && w == batch[|batch| - |w|..]
  {
    SliceFromIsSuffix(batch, -k);
    Slice(batch, Some(-k), None)
  }

  /**
   * The window is the last `k` rows only when `0 < k <= len`; `k == 0` and
   * `k > len` both give every row, and a negative `k` drops the first `-k` rows.
   */
  lemma WindowRows<T>(batch: seq<T>, k: int)
    ensures 0 < k <= |batch| ==> Window(batch, k) == batch[|batch| - k..]
    ensures k == 0 || k > |batch| ==> Window(batch, k) == batch
    ensures k < 0 ==> Window(batch, k) == batch[if -k < |batch| then -k else |batch|..]
  {
    if 0 < k <= |batch| {
      SliceLast(batch, k);
    }
  }

  /** `seqlengths[0, -1]`, the last entry of the first row. */
  function LastLength<T>(f: MatFile<T>): int
    requires f.seqlengths != []
  {
    f.seqlengths[|f.seqlengths| - 1]
  }

  /** `load_data`: open the matrix file and take the window named by the last sequence length. */
  function LoadData<T>(source: Option<MatFile<T>>): (r: Result<seq<T>, SlicerError>)
    ensures r.Success? <==> source.Some? && |source.value.seqlengths| > 0
    ensures source.None? ==> r == Failure(SourceMissing)
    ensures source.Some? && source.value.seqlengths == [] ==> r == Failure(NoSequenceLength)
    ensures r.Success? ==> r.value == Window(source.value.batchdata, LastLength(source.value))
    ensures r.Success? ==> |r.value| <= |source.value.batchdata|
    ensures r.Success? ==> r.value == source.value.batchdata[|source.value.batchdata| - |r.value|..]
  {
    match source
    case None => Failure(SourceMissing)
    case Some(f) =>
      if f.seqlengths == [] then Failure(NoSequenceLength)
      else Success(Window(f.batchdata, LastLength(f)))
  }

  /** The cut points are cumulative: each range is as long as its requested count. */
  function SplitPoints(nTrain: int, nVal: int, nTest: int): (b: Bounds)
    ensures b.trainVal == nTrain
    ensures b.valTest - b.trainVal == nVal
    ensures b.stop - b.valTest == nTest
  {
    var trainVal := nTrain;
    var valTest := trainVal + nVal;
    Bounds(trainVal, valTest, valTest + nTest)
  }

  /**
   * The check and the three slices of `main`. The request is refused exactly
   * when the total exceeds the window, and the error reports the window's size.
   */
  function Partition<T>(window: seq<T>, nTrain: int, nVal: int, nTest: int): (r: Result<Split<T>, SlicerError>)
    ensures r.Failure? <==> nTrain + nVal + nTest > |window|
    ensures r.Failure? ==> r.error == NotEnoughTimeSteps(|window|)
  {
    var b := SplitPoints(nTrain, nVal, nTest);
    if b.stop > |window| then
      Failure(NotEnoughTimeSteps(|window|))
    else
      Success(Split(Slice(window, None, Some(b.trainVal)),
                    Slice(window, Some(b.trainVal), Some(b.valTest)),
                    Slice(window, Some(b.valTest), Some(b.stop))))
  }

  /**
   * For non-negative counts that fit, the partitions are the consecutive row
   * ranges `[0, nTrain)`, `[nTrain, nTrain + nVal)` and
   * `[nTrain + nVal, nTrain + nVal + nTest)` of the window.
   */
  lemma PartitionRanges<T>(window: seq<T>, nTrain: nat, nVal: nat, nTest: nat)
    requires nTrain + nVal + nTest <= |window|
    ensures Partition(window, nTrain, nVal, nTest).Success?
    ensures var s := Partition(window, nTrain, nVal, nTest).value;
      s.train == window[..nTrain] &&
      s.val == window[nTrain..nTrain + nVal] &&
      s.test == window[nTrain + nVal..nTrain + nVal + nTest]
  {
    SliceWithin(window, nTrain, nTrain + nVal);
    SliceWithin(window, nTrain + nVal, nTrain + nVal + nTest);
  }

  /** Each partition holds exactly the requested number of rows. */
  lemma PartitionSizes<T>(window: seq<T>, nTrain: nat, nVal: nat, nTest: nat)
    requires nTrain + nVal + nTest <= |window|
    ensures Partition(window, nTrain, nVal, nTest).Success?
    ensures var s := Partition(window, nTrain, nVal, nTest).value;
      |s.train| == nTrain && |s.val| == nVal && |s.test| == nTest
  {
    PartitionRanges(window, nTrain, nVal, nTest);
  }

  /** Train, then val, then test, put back together, are the first `stop` rows of the window. */
  lemma PartitionConcat<T>(window: seq<T>, nTrain: nat, nVal: nat, nTest: nat)
    requires nTrain + nVal + nTest <= |window|
    ensures Partition(window, nTrain, nVal, nTest).Success?
    ensures var s := Partition(window, nTrain, nVal, nTest).value;
      s.train + s.val + s.test == window[..nTrain + nVal + nTest]
  {
    PartitionRanges(window, nTrain, nVal, nTest);
    var s := Partition(window, nTrain, nVal, nTest).value;
    var stop := nTrain + nVal + nTest;
    assert window[..stop] == window[..nTrain] + window[nTrain..nTrain + nVal] + window[nTrain + nVal..stop];
  }

  /**
   * For any integer counts that pass the check, the three slices join into the
   * slice `[:stop]` whenever the positions the cut points denote are in order;
   * with negative counts that order can fail, and the partitions then overlap.
   */
  lemma PartitionConcatClamped<T>(window: seq<T>, nTrain: int, nVal: int, nTest: int)
    requires nTrain + nVal + nTest <= |window|
    requires Clamp(nTrain, |window|) <= Clamp(nTrain + nVal, |window|) <= Clamp(nTrain + nVal + nTest, |window|)
    ensures Partition(window, nTrain, nVal, nTest).Success?
    ensures var s := Partition(window, nTrain, nVal, nTest).value;
      s.train + s.val + s.test == Slice(window, None, Some(nTrain + nVal + nTest))
  {
    var stop := nTrain + nVal + nTest;
    SliceFromStart(window, Some(nTrain));
    SliceFromStart(window, Some(stop));
    SliceConcat(window, 0, nTrain, nTrain + nVal);
    SliceConcat(window, 0, nTrain + nVal, stop);
  }

  /**
   * The check does not reject negative counts. With three rows and counts
   * `-1, 1, 1` the total passes the check, the train slice `[:-1]` takes two
   * rows, the val slice `[-1:0]` is empty, and the test slice `[0:1]` repeats
   * the first row, which train already holds.
   */
  lemma PartitionNegativeCount<T>(window: seq<T>)
    requires |window| == 3
    ensures Partition(window, -1, 1, 1) == Success(Split(window[..2], [], window[..1]))
  {
    assert SplitPoints(-1, 1, 1) == Bounds(-1, 0, 1);
    assert Slice(window, None, Some(-1)) == window[..2];
    assert Slice(window, Some(-1), Some(0)) == [];
    assert Slice(window, Some(0), Some(1)) == window[..1];
  }

  /** `load_data` followed by the check and slices of `main`, before anything is written. */
  function Slicer<T>(source: Option<MatFile<T>>, nTrain: int, nVal: int, nTest: int): (r: Result<Split<T>, SlicerError>)
    ensures r.Failure? <==> LoadData(source).Failure? || nTrain + nVal + nTest > |LoadData(source).value|
    ensures r.Failure? && LoadData(source).Success? ==> r.error == NotEnoughTimeSteps(|LoadData(source).value|)
  {
    match LoadData(source)
    case Failure(e) => Failure(e)
    case Success(window) => Partition(window, nTrain, nVal, nTest)
  }

  /**
   * The run with a trailing window of `k` rows, `0 < k <= len(batchdata)`, and
   * non-negative counts that fit: the partitions are consecutive ranges of the
   * last `k` rows, starting at the window's first row.
   */
  lemma SlicerTrailingWindow<T>(f: MatFile<T>, nTrain: nat, nVal: nat, nTest: nat)
    requires f.seqlengths != [] && 0 < LastLength(f) <= |f.batchdata|
    requires nTrain + nVal + nTest <= LastLength(f)
    ensures Slicer(Some(f), nTrain, nVal, nTest).Success?
    ensures var w := f.batchdata[|f.batchdata| - LastLength(f)..];
      var s := Slicer(Some(f), nTrain, nVal, nTest).value;
      s.train == w[..nTrain] &&
      s.val == w[nTrain..nTrain + nVal] &&
      s.test == w[nTrain + nVal..nTrain + nVal + nTest]
  {
    WindowRows(f.batchdata, LastLength(f));
    PartitionRanges(f.batchdata[|f.batchdata| - LastLength(f)..], nTrain, nVal, nTest);
  }

  /** The container `main` writes: `add_group` for `train`, `val` and `test`, each with a one-element list. */
  function FileLayout<T>(s: Split<T>): Layout<seq<T>>
  {
    WithGroup(WithGroup(WithGroup(EmptyLayout(), "train", [s.train]), "val", [s.val]), "test", [s.test])
  }

  /**
   * The written container holds exactly the groups `train`, `val` and `test`,
   * created in that order, each with one dataset named `"0"` holding its partition.
   */
  lemma FileLayoutShape<T>(s: Split<T>)
    ensures FileLayout(s).WellFormed()
    ensures FileLayout(s).order == ["train", "val", "test"]
    ensures FileLayout(s).groups.Keys == {"train", "val", "test"}
    ensures FileLayout(s).groups["train"] == [Dataset("0", s.train)]
    ensures FileLayout(s).groups["val"] == [Dataset("0", s.val)]
    ensures FileLayout(s).groups["test"] == [Dataset("0", s.test)]
  {
    var l0 := EmptyLayout<seq<T>>();
    WithGroupWellFormed(l0, "train", [s.train]);
    var l1 := WithGroup(l0, "train", [s.train]);
    WithGroupWellFormed(l1, "val", [s.val]);
    var l2 := WithGroup(l1, "val", [s.val]);
    WithGroupWellFormed(l2, "test", [s.test]);
    assert Decimal.NatToString(0) == "0";
  }

  /**
   * `main`: load, check, slice, and only then create the target file and add
   * the three groups. A refused request returns before the file exists
   * (`fp == null`).
   */
  method Run<T>(source: Option<MatFile<T>>, nTrain: int, nVal: int, nTest: int)
      returns (outcome: Outcome<SlicerError>, fp: File?<seq<T>>)
    ensures outcome.Fail? <==> Slicer(source, nTrain, nVal, nTest).Failure?
    ensures outcome.Fail? ==> fp == null && outcome.error == Slicer(source, nTrain, nVal, nTest).error
    ensures outcome.Pass? ==> fp != null && fresh(fp) && fp.Valid()
    ensures outcome.Pass? ==> fp.Snapshot() == FileLayout(Slicer(source, nTrain, nVal, nTest).value)
  {
    var loaded := LoadData(source);
    if loaded.Failure? {
      return Fail(loaded.error), null;
    }
    var split := Partition(loaded.value, nTrain, nVal, nTest);
    if split.Failure? {
      return Fail(split.error), null;
    }
    var s := split.value;
    fp := new File<seq<T>>();
    var ok := fp.AddGroup("train", [s.train]);
    assert ok;
    ok := fp.AddGroup("val", [s.val]);
    assert ok;
    ok := fp.AddGroup("test", [s.test]);
    assert ok;
    outcome := Pass;
  }
}
