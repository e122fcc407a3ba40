# pymmcore-MDA-writers: writer core in Dafny

This project models the writers of `pymmcore_mda_writers/_writers.py`. A writer
listens to a microscope's multi-dimensional acquisition (MDA). When a run starts,
it picks a fresh, numbered storage target. When a frame arrives, it writes the
frame to the place its event's index selects. The model covers:

- `BaseWriter.get_unique_folder`, the unique-path allocator. The filesystem is a
  finite set of existing paths. The probe is a `while` loop over `i = 1, 2, ...`
  that stops at the least index whose candidate `<stem>_<i>[<suffix>]` is free
  (module `Allocator`; path rules in `Paths`; decimal text in `Decimal`).
- `BaseWriter.sequence_axis_order` and `BaseWriter.event_to_index`, the axis order
  of a run and an event's storage coordinate (module `Axes`).
- `SimpleMultiFileTiffWriter`, a directory of per-frame TIFF files. The file-name
  encoding is in `TiffNames`; the writer class is `Writers.TiffWriter`.
- `ZarrWriter`, one chunked array store per run. The store is an abstract value in
  `ZarrStore`; the writer class is `Writers.ZarrWriter`.

`Disk.FileSystem` is the file system: the set of paths that exist, the regular
files the writers create, and the array stores. Each writer is a class whose
fields are the Python instance attributes (`_path`, `_axis_order`, `_z`). In the
model these fields are `None` until the first run start sets them; in Python the
attributes do not exist yet. A frame delivered before
that fails with `NotStarted`, which stands for Python's `AttributeError`. The
exceptions the code raises are modelled as `Outcome`/`Result` values.

The model follows the code. In particular:

- The array store's shape is the sequence's own `shape` followed by the frame
  shape, and its `axis_order` attribute is the untrimmed declared order plus `"yx"`.
  The resolved axis order is not used for either.
- Frame numbers are padded with `zfill(3)`, so they have at least three digits.
  Index 1000 gives four digits.
- With no events, the resolver fails with `StopIteration` (`NoEvents` here). The
  tiff writer has already created and recorded the new run directory by then.
- The code re-attaches nothing when the acquisition engine is replaced:
  `_disconnect` is never called. `disconnect` adds no guard of its own, so whether
  a repeated disconnect raises is up to the event library (see "Left out").

## Model

| member | source | states |
|---|---|---|
| `Decimal.Dec` | pymmcore_mda_writers/_writers.py:69 | `f"{i}"` for a non-negative int is a non-empty digit string: one digit below 10, and a leading `0` only in the text `"0"` itself |
| `Decimal.ValueOfDec` | pymmcore_mda_writers/_writers.py:69 | the decimal text of `n` reads back as `n` |
| `Decimal.ZFillDec` | pymmcore_mda_writers/_writers.py:121 | `f"{n}".zfill(3)` is a digit string of at least 3 characters that still denotes `n` |
| `Decimal.ZFillDecInjective` | pymmcore_mda_writers/_writers.py:121 | distinct indices give distinct zero-padded texts |
| `Decimal.ZFill` | pymmcore_mda_writers/_writers.py:121 | `str.zfill` on a string without a sign: left-pad with `0` up to the width. The definition; its shape is stated by `Decimal.ZFillShape` |
| `Decimal.ZFillShape` | pymmcore_mda_writers/_writers.py:121 | `zfill(width)` is as long as the text or the width, whichever is larger. It ends with the text and is `0` before it |
| `Paths.CandidateInjective` | pymmcore_mda_writers/_writers.py:68-72 | distinct indices give distinct candidates `<stem>_<i><suffix>`, which is what makes the probe terminate |
| `Paths.Child` | pymmcore_mda_writers/_writers.py:113-127 | `self._path / "useq-sequence.json"` and `self._path / name`: the entry `name` whose parent is the directory string of the run directory. The definition; `Paths.RunDirChildrenDistinct` states when two entries differ |
| `Paths.HasSuffix` | pymmcore_mda_writers/_writers.py:66 | pathlib's rule for a non-empty suffix: the last dot of the name is neither its first nor its last character. The definition, on which `StemOf`, `WithSuffix` and the Findings row rest |
| `Paths.ValidSuffix` | pymmcore_mda_writers/_writers.py:71 | the suffixes `with_suffix` accepts without ValueError: none given, or one starting with a dot, not a lone dot and without a separator. The definition; `Allocator.GetUniqueFolder`, `Paths.WithSuffix` and `Paths.AsWrittenCandidate` require it |
| `Paths.StemOf` | pymmcore_mda_writers/_writers.py:66 | `PurePath.stem` is a prefix of the name. It is the whole name exactly when the name has no suffix; otherwise the name continues with the last dot, and no dot follows |
| `Paths.WithSuffix` | pymmcore_mda_writers/_writers.py:71 | for a suffix `with_suffix` accepts, `with_suffix` appends the suffix to a name without one, and otherwise replaces everything from the last dot |
| `Paths.Candidate` | pymmcore_mda_writers/_writers.py:68-72 | the corrected `new_path(i)`: `<stem>_<i><suffix>` in the parent of the base, with the parent kept |
| `Paths.CandidateShape` | pymmcore_mda_writers/_writers.py:69 | a candidate name is `<stem>_`, then digits that read back as i, then the suffix |
| `Paths.AsWrittenCandidate` | pymmcore_mda_writers/_writers.py:68-72 | `new_path(i)` as written, for a suffix `with_suffix` accepts. It keeps the parent, is the corrected candidate when no suffix is given, and otherwise ends in the suffix |
| `Paths.IndexNameKeepsStem` | pymmcore_mda_writers/_writers.py:69-71 | when the stem has no dot after its first character, `<stem>_<i>` has no suffix, so its stem is the whole name |
| `Paths.AsWrittenMatchesCandidate` | pymmcore_mda_writers/_writers.py:68-72 | for an accepted suffix, when the stem has no dot after its first character, `(stem + "_" + i).with_suffix(suffix)` is exactly `<stem>_<i><suffix>` |
| `Paths.AsWrittenCollapses` | pymmcore_mda_writers/_writers.py:69-71 | when the stem keeps such a dot and an accepted non-empty suffix is given, every index yields the same path, cut at that dot |
| `Paths.AsWrittenNoFreeIndex` | pymmcore_mda_writers/_writers.py:74-78 | in that case, once the collapsed path exists, no index is free: the probe loop as written never ends |
| `Paths.DatedStoreNameCollapses` | pymmcore_mda_writers/_writers.py:65-71 | the store name `2024.01.05` has stem `2024.01`, and every `.zarr` candidate is `2024.zarr` |
| `Paths.RunDirsDistinct` | pymmcore_mda_writers/_writers.py:68-78 | run directories `<stem>_<i>` and `<stem>_<j>` of one parent have different directory strings when i != j |
| `Paths.RunDirChildrenDistinct` | pymmcore_mda_writers/_writers.py:113-127 | an entry of run directory i is never an entry of run directory j when i != j, though entries of unrelated directories can coincide |
| `Allocator.Probe` | pymmcore_mda_writers/_writers.py:74-78 | the loop returns the least `i >= 1` whose candidate does not exist, and that candidate's path |
| `Allocator.GetUniqueFolder` | pymmcore_mda_writers/_writers.py:47-81 | returns the least free candidate for the base's parent and stem. The path did not exist before the call. With `create` the existing set grows by exactly that path; without it nothing changes |
| `Allocator.AllocateSuccessive` | tests/test_utils.py:6-22 | `n` calls with `create` on a base with no existing candidates return `run_1 ... run_n` and create exactly those. A further call without `create` returns `run_{n+1}` |
| `Axes.KeepPresent` | pymmcore_mda_writers/_writers.py:91 | an axis letter is in the result exactly when it is declared and is a key of the index |
| `Axes.SequenceAxisOrder` | pymmcore_mda_writers/_writers.py:83-91 | requires at least one event. An axis is kept exactly when it is declared and is a key of the first event's index, so the first event has every kept axis |
| `Axes.AxisOrderIsSelection` | pymmcore_mda_writers/_writers.py:91 | the kept axes are the declared ones at strictly increasing positions, and every declared position whose axis is a key is kept, so declared order is preserved |
| `Axes.EventToIndex` | pymmcore_mda_writers/_writers.py:93-95 | the coordinate has one value per axis of the order: the event's index value for that axis |
| `Axes.SameCoordinateIff` | pymmcore_mda_writers/_writers.py:93-95 | two events have the same coordinate tuple exactly when their indices agree on every axis of the order |
| `TiffNames.Join` | pymmcore_mda_writers/_writers.py:119-124 | `"_".join(parts)`: empty for no parts, the part itself for one, and otherwise starting with the first part and the separator |
| `TiffNames.Segment` | pymmcore_mda_writers/_writers.py:121 | one part of a frame name: the axis letter and then at least three characters of padded index |
| `TiffNames.FrameName` | pymmcore_mda_writers/_writers.py:118-126 | the frame file name starts with the first axis letter and ends in `.tiff` |
| `TiffNames.FrameNameInjective` | pymmcore_mda_writers/_writers.py:117-126 | for one axis order, distinct coordinates give distinct file names |
| `TiffNames.SameFileIff` | pymmcore_mda_writers/_writers.py:117-127 | two events of a run write the same file exactly when they agree on every axis of the run's order |
| `TiffNames.ExampleName` | examples/tiff_writer.py:4-5 | names have the documented form: the coordinate `(0,0,0,2)` on axes `tpcz` is named `t000_p000_c000_z002.tiff` |
| `ZarrStore.Open` | pymmcore_mda_writers/_writers.py:163-169 | a new store has the given leading shape followed by the frame shape, every cell at the fill value, the given dtype and no attributes |
| `ZarrStore.SetAttr` | pymmcore_mda_writers/_writers.py:170-171 | setting an attribute changes that key only and no cell |
| `ZarrStore.SetSlice` | pymmcore_mda_writers/_writers.py:174 | IndexError exactly when the coordinate is too long or out of range. Success exactly when it addresses one leading cell in range and the frame has the frame shape. The cell then holds the frame and every other cell, the shape and the attributes are unchanged |
| `Disk.FileSystem.MakeDir` | pymmcore_mda_writers/_writers.py:79-80 | the directory is added to the existing paths, and files and stores are unchanged. Missing parents are not added (see "Left out") |
| `Disk.FileSystem.PutStore` | pymmcore_mda_writers/_writers.py:163-169 | `zarr.open(mode="w")` creates the store at one path or replaces it, and the write-back at `_writers.py:174` replaces it. No file and no other store changes |
| `Disk.FileSystem.WriteFile` | pymmcore_mda_writers/_writers.py:113-114 | the file at one path is created or overwritten; no other file or store changes |
| `Writers.TiffWriter.constructor` | pymmcore_mda_writers/_writers.py:107-108 | a new writer records its data folder and is Idle |
| `Writers.TiffWriter.Create` | pymmcore_mda_writers/_writers.py:99-108 | fails with MissingDependency exactly when tifffile is not installed; otherwise a fresh Idle writer |
| `Writers.TiffWriter.OnSequenceStarted` | pymmcore_mda_writers/_writers.py:110-114 | `_path` becomes a fresh directory: the least free `<stem>_<i>`, created. With events, the writer is Running, `_axis_order` is the sequence's axis order and the sidecar holds the JSON text. Without events it fails after the directory is made, leaving the axis order as it was |
| `Writers.TiffWriter.OnFrameReady` | pymmcore_mda_writers/_writers.py:116-127 | fails with NotStarted before a run and with MissingAxis when the event lacks an axis, changing nothing. Otherwise it adds or overwrites exactly the file named after the event's coordinate |
| `Writers.FramePath` | pymmcore_mda_writers/_writers.py:117-127 | `self._path / name`: where the tiff writer puts the frame of an event, the frame name of its coordinate inside the run directory. The definition; `TiffNames.SameFileIff` states when two events share it |
| `Writers.FrameNameIsNotSidecar` | pymmcore_mda_writers/_writers.py:113-127 | a frame file never replaces the JSON sidecar, because frame names end in `.tiff` |
| `Writers.WriteKeepsOtherRun` | pymmcore_mda_writers/_writers.py:113-127 | writing a file in one run directory leaves every file of another run directory of the same data folder as it was |
| `Writers.TiffRun` | examples/tiff_writer.py:26-32 | one run with one frame: the run directory is the least free `<stem>_<i>` and holds the sequence's JSON. The writer is running with the sequence's axis order. When the event has every axis of the run, the run directory also holds the frame under its frame name |
| `Writers.LaterTiffRun` | pymmcore_mda_writers/_writers.py:110-127 | a run of the tiff writer after an earlier run that created `<stem>_<j>`: the new run directory is `<stem>_<i>` with `i != j` and holds the sequence's JSON. Its sidecar and frame writes leave every file directly under the earlier directory as it was |
| `Writers.TwoTiffRuns` | pymmcore_mda_writers/_writers.py:110-127 | two runs of one tiff writer get two different directories. Every file in the first directory is, after the second run, what the first run left; the second directory holds the second sequence's JSON |
| `Writers.ZarrWriter.constructor` | pymmcore_mda_writers/_writers.py:152-156 | a new writer records store name, frame shape and dtype and is Idle |
| `Writers.ZarrWriter.Create` | pymmcore_mda_writers/_writers.py:131-156 | fails with MissingDependency exactly when zarr is not installed; otherwise a fresh Idle writer |
| `Writers.ZarrWriter.OnSequenceStarted` | pymmcore_mda_writers/_writers.py:158-171 | with events, a store is created at the least free `<stem>_<i>.zarr`. It is shaped `sequence.shape + img_shape`, all at the fill value, with attributes `axis_order = sequence.axis_order + "yx"` and `useq-sequence = JSON`. No other store or file changes. Without events nothing changes |
| `Writers.ZarrWriter.OnFrameReady` | pymmcore_mda_writers/_writers.py:173-174 | fails with NotStarted before a run and with MissingAxis when the event lacks an axis. Otherwise it assigns the frame at the event's coordinate as `SetSlice` does, changing only the current run's store, and a failed assignment changes nothing |
| `Writers.TwoZarrRuns` | examples/zarr_writer.py:33-48 | two runs of one writer get two different stores, so the second run does not overwrite the first. The first store ends as the first run left it, holding the first sequence's JSON; the second holds the second's |

## Left out

- Signal subscription (`_writers.py:28-29`, `_disconnect` and `disconnect` at `_writers.py:38-45`): these are thin calls into the event library, which is not part of this model.
- `CMMCorePlus.instance()` (`_writers.py:27`): the acquisition core is a foreign singleton. The writers take the file system and the sequence and events as parameters instead.
- `Path.resolve()` (`_writers.py:65`): a base path is taken as an already resolved (parent, name) pair. Symbolic links and relative paths are not modelled.
- Disk.FileSystem.MakeDir: adds only the directory itself. The missing parent directories that `mkdir(parents=True)` also creates are not added.
- Allocator.GetUniqueFolder: uses the corrected candidate `<stem>_<i><suffix>` (see Findings). It requires a well-formed suffix instead of modelling the ValueError that `with_suffix` raises for a malformed one; the two callers pass no suffix or `.zarr`. It does not model filesystem errors such as permission denied.
- Paths.WithSuffix: requires a well-formed suffix. The ValueError that `with_suffix` raises for a malformed one is not modelled.
- Paths.AsWrittenCandidate: requires a well-formed suffix, as `Paths.WithSuffix` does. The same holds for the lemmas about it (`AsWrittenMatchesCandidate`, `AsWrittenCollapses`, `AsWrittenNoFreeIndex`).
- Codec and store encoding: the bytes `tifffile.imwrite`, `zarr.open` and `open(...).write` put on disk are not modelled. Files and stores are values in maps.
- ZarrStore.SetSlice: does not model the conversion of pixel values to the store's dtype; the cell holds the frame as given.
- ZarrStore.SetSlice: assumes the store requires the assigned value's shape to equal the selected block's shape exactly. A value that numpy broadcasting would stretch is reported as ShapeMismatch.
- useq internals: `MDASequence.json()`, `iter_events()`, `shape` and `axis_order` are inputs. The JSON text is opaque and its round trip is not modelled.
- Event indices are non-negative (`nat`), as useq produces them. The sign handling of `zfill` for negative numbers is therefore not modelled.
- The stale `zarr_MDA_writer` / `ZarrMDAWriter` API that `pymmcore_mda_writers/__init__.py:8` and `tests/test_pymmcore_mda_writers.py` import is not defined in `_writers.py`, and is not modelled.
- Concurrency: the source delivers callbacks on one thread and has no locking to verify.

## Findings

| source | as written | input that shows it | evidently intended | confidence | as-written member | corrected member |
|---|---|---|---|---|---|---|
| pymmcore_mda_writers/_writers.py:68-78 | each candidate is `(stem + "_" + i).with_suffix(suffix)`, which cuts the name at a dot the stem still holds | `ZarrWriter("data/2024.01.05", ...)`: the stem is `2024.01` and every candidate is `data/2024.zarr`. The first run creates it; the second run's probe loop never ends | candidates `<stem>_<i><suffix>` as the docstring's `{folder_base_name}_{i}` says: `data/2024.01_1.zarr`, `data/2024.01_2.zarr`, ... | not executed; high | `Paths.AsWrittenNoFreeIndex` | `Allocator.Probe` |
