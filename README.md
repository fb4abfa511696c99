# Motion-capture partition slicer, modelled in Dafny

This project models the partition slicer of `scripts/mocap.py`, the script that turns a
motion-capture matrix into a train/validation/test data set.
The script does four things:

- It loads the `batchdata` matrix and the `seqlengths` matrix from `MOCAP.mat`.
- It keeps the trailing window `batchdata[-k:]`, where `k` is the last entry of the first row of `seqlengths`.
- It computes the cumulative cut points `split_train_val`, `split_val_test` and `stop` from the three requested counts.
- It refuses a request whose `stop` exceeds the window's row count, before the target file is opened. Otherwise it cuts three consecutive row ranges and writes each, through `add_group`, as the dataset `"0"` of the groups `train`, `val` and `test`.

Modules:

- `Wrappers` (`wrappers.dfy`): `Option`, `Result` and `Outcome`. Raised exceptions become `Failure`/`Fail` values.
- `PySlice` (`pyslice.dfy`): Python's step-1 slice `s[start:stop]`. Negative bounds count from the end, every bound is clamped to the sequence, and an empty range gives `[]`. Both the window and the three partitions go through it, so `k == 0`, `k > len`, a negative `k` and negative counts all behave as in Python.
- `Decimal` (`decimal.dfy`): `str(i)` for dataset names, with its inverse. The inverse proves that distinct indices give distinct names.
- `Container` (`container.dfy`): the HDF5 file opened for writing. It is a class whose fields are a map from group name to its list of (name, dataset) pairs, plus the order in which the groups were created. `AddGroup` is the imperative `add_group`. It is proved against the value-level `WithGroup`.
- `Mocap` (`mocap.dfy`): `load_data`, the check and the slices of `main`, the three-group layout, and `Run`, the whole of `main`.

The count arguments are Python integers and may be negative: the check `stop > AX.shape[0]` does not reject them.
The model keeps that behaviour. The size, concatenation and contiguity properties are proved for non-negative counts.
`PartitionNegativeCount` shows what a negative count produces: overlapping partitions.
The code never checks the sign of the counts, and neither does the model.

## Model

| member | source | states |
|---|---|---|
| `PySlice.Slice` | scripts/mocap.py:48-50 | A slice is never longer than the sliced sequence |
| `PySlice.SliceWithin` | scripts/mocap.py:48-50 | For `0 <= lo <= hi <= len`, `s[lo:hi]` and `s[:hi]` are the plain subsequences |
| `PySlice.SliceFromStart` | scripts/mocap.py:48 | An omitted start bound, as in `AX[:split_train_val]`, is the bound 0 |
| `PySlice.SliceConcat` | scripts/mocap.py:48-50 | Slices `[a:b]` and `[b:c]` join into `[a:c]` for any integer bounds whose clamped positions are in order |
| `PySlice.SliceLast` | scripts/mocap.py:35 | `s[-k:]` for `0 < k <= len` is the last `k` elements |
| `PySlice.SliceFromIsSuffix` | scripts/mocap.py:35 | A slice with only a start bound is always a suffix of the sequence |
| `Decimal.NatToString` | scripts/mocap.py:24 | `str(i)` is a non-empty digit string, one digit exactly when `i < 10`, with no leading zero unless `i == 0` |
| `Decimal.ParseNatToString` | scripts/mocap.py:24 | Reading the digits of `str(i)` back gives `i` |
| `Decimal.NatToStringInjective` | scripts/mocap.py:24 | `str(m) == str(n)` exactly when `m == n` |
| `Container.Enumerate` | scripts/mocap.py:23-24 | `enumerate` then `create_dataset`: one dataset per list element, element `i` named `str(i)`, in list order |
| `Container.EnumerateValues` | scripts/mocap.py:23-24 | The datasets' data, in order, are the list passed to `add_group` |
| `Container.EnumerateNamesDistinct` | scripts/mocap.py:23-24 | The dataset names within a group are pairwise distinct |
| `Container.WithGroup` | scripts/mocap.py:21-24 | After `add_group` the new group holds the enumerated datasets, the other groups are unchanged, and the group is last in creation order |
| `Container.WithGroupWellFormed` | scripts/mocap.py:22 | Creating a group under a fresh name keeps every group present exactly once in creation order |
| `Container.File.constructor` | scripts/mocap.py:52 | A file opened with mode `'w'` starts with no groups |
| `Container.File.AddGroup` | scripts/mocap.py:21-24 | Fails without change when the group name exists; otherwise the file's new value is `WithGroup` of its old value |
| `Mocap.Window` | scripts/mocap.py:35 | The window is a suffix of `batchdata` and no longer than it |
| `Mocap.WindowRows` | scripts/mocap.py:35 | The window is the last `k` rows for `0 < k <= len`; all rows for `k == 0` or `k > len`; all but the first `-k` rows for negative `k` |
| `Mocap.LoadData` | scripts/mocap.py:27-35 | Succeeds exactly when the file exists and `seqlengths` has an entry; a missing file fails with `SourceMissing` and an empty `seqlengths` with `NoSequenceLength`; the result is `batchdata[-k:]` for `k` the last entry of `seqlengths` |
| `Mocap.SplitPoints` | scripts/mocap.py:40-42 | `split_train_val` is the train count; each later cut point exceeds the previous one by the val and the test count |
| `Mocap.Partition` | scripts/mocap.py:44-50 | Fails exactly when the total count exceeds the window's row count, and the error's maximum is that row count |
| `Mocap.PartitionRanges` | scripts/mocap.py:48-50 | For non-negative counts that fit, train, val and test are the window ranges `[0, nt)`, `[nt, nt+nv)` and `[nt+nv, nt+nv+ne)`: adjacent, disjoint, in that order |
| `Mocap.PartitionSizes` | scripts/mocap.py:48-50 | For non-negative counts that fit, the partitions have exactly `nt`, `nv` and `ne` rows |
| `Mocap.PartitionConcat` | scripts/mocap.py:48-50 | For non-negative counts that fit, train ++ val ++ test is the first `stop` rows of the window |
| `Mocap.PartitionConcatClamped` | scripts/mocap.py:40-50 | For any integer counts that pass the check and whose clamped cut points are in order, train ++ val ++ test is `window[:stop]` |
| `Mocap.PartitionNegativeCount` | scripts/mocap.py:40-50 | Counts `-1, 1, 1` on three rows pass the check and give overlapping train and test partitions |
| `Mocap.Slicer` | scripts/mocap.py:39-50 | The run is refused exactly when loading fails or the total exceeds the loaded window, and an oversize request reports the window's row count |
| `Mocap.SlicerTrailingWindow` | scripts/mocap.py:35-50 | With `0 < k <= len(batchdata)` and non-negative counts summing to at most `k`, the run succeeds and train, val and test are the consecutive ranges `[0, nt)`, `[nt, nt+nv)`, `[nt+nv, stop)` of the last `k` rows |
| `Mocap.FileLayoutShape` | scripts/mocap.py:52-55 | `FileLayout`, the value of the three `add_group` calls: the written file holds exactly `train`, `val` and `test`, created in that order, each with one dataset `"0"` equal to its partition |
| `Mocap.Run` | scripts/mocap.py:38-55 | A refused run returns its error and creates no file (`fp == null`); a successful run returns a fresh, well-formed file whose contents are the three-group layout of the slices |

## Left out

- `scripts/bouncingballs.py`: its sequences come from an external, stochastic simulator module that does floating-point physics and rasterisation, and that module is not part of this model. Its `add_group` is the same as the one modelled here.
- File and library I/O: reading `MOCAP.mat` with `loadmat`, truncating or overwriting the target file, and closing and flushing it are not modelled. The matrix is an input value, and the open file is the `Container.File` object.
- Argument parsing: `docopt` and the `int()` conversion of the count strings are left out, and the counts arrive as integers. The `int()` truncation of the stored sequence length is left out too, and the length arrives as an integer.
- The missing-file branch of `load_data`: the source prints a message and then fails on the unbound `f`. The model reduces this to the failure `SourceMissing`.
- An empty `seqlengths` matrix makes `[0, -1]` raise an index error. The model reduces this to the failure `NoSequenceLength`. The `.flatten()[0]` step on the stored entry is not modelled.
- Message texts: the text of printed and raised messages is left out, and only the reported maximum is kept.
- Row contents and dataset shapes: rows are opaque values, and the feature dimension is not modelled.
- h5py's refusal of a duplicate dataset name inside a group is not modelled. `Container.EnumerateNamesDistinct` proves that `add_group` never produces one.
- `PySlice.Slice`: its own contract states only the length bound. Its exact result is stated by `SliceWithin`, `SliceLast` and `SliceFromIsSuffix` for the cases the script uses. `SliceConcat` states how slices join for any bounds, and `PartitionNegativeCount` works one negative case through the definition.
