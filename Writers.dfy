/** SimpleMultiFileTiffWriter and ZarrWriter: what each does when a run starts and
    when a frame arrives. Each writer is Idle until its first successful run start,
    and Running afterwards; a frame before that fails, because the fields the run
    start sets do not exist yet. */
module Writers {
  import opened Wrappers
  import opened Acquisition
  import opened Paths
  import opened Axes
  import opened TiffNames
  import opened ZarrStore
  import opened Disk
  import opened Allocator

  /** The exceptions the writers' code raises: ValueError when the codec library
      is missing, StopIteration for a sequence without events, AttributeError for
      a frame before any run start, KeyError for an event without one of the run's
      axes, and the store's own errors. */
  datatype WriterError =
    | MissingDependency(library: string)
    | NoEvents
    | NotStarted
    | MissingAxis
    | StoreFailure(cause: StoreError)

  /** The name of the sidecar file holding the sequence's JSON text. */
  const SidecarName := "useq-sequence.json"

  /** Where the tiff writer puts the frame of an event: inside the run directory,
      under the frame name of its coordinate. */
  function FramePath(dir: Path, order: string, index: map<char, nat>): Path
    requires HasAxes(order, index)
  {
    Child(dir, FrameName(order, EventToIndex(order, index)))
  }

  class TiffWriter {
    const fs: FileSystem
    const dataFolder: Path
    /** `_path`: the directory of the current run. */
    var path: Option<Path>
    /** `_axis_order`: the axis order of the current run. */
    var axisOrder: Option<string>

    ghost predicate Valid()
      reads this, fs
    {
      fs.Valid() && (axisOrder.Some? ==> path.Some?)
    }

    ghost predicate Running()
      reads this
    {
      axisOrder.Some? && path.Some?
    }

    constructor (fs: FileSystem, dataFolder: Path)
      ensures this.fs == fs && this.dataFolder == dataFolder
      ensures path == None && axisOrder == None
    {
      this.fs := fs;
      this.dataFolder := dataFolder;
      path, axisOrder := None, None;
    }

    /** `SimpleMultiFileTiffWriter(data_folder_name)`: refused with ValueError when
        tifffile is not installed. */
    static method Create(fs: FileSystem, dataFolder: Path, tifffileInstalled: bool)
      returns (r: Result<TiffWriter, WriterError>)
      ensures r.Failure? <==> !tifffileInstalled
      ensures r.Failure? ==> r.error == MissingDependency("tifffile")
      ensures r.Success? ==>
                && fresh(r.value) && r.value.fs == fs && r.value.dataFolder == dataFolder
                && !r.value.Running() && (fs.Valid() ==> r.value.Valid())
    {
      if !tifffileInstalled {
        return Failure(MissingDependency("tifffile"));
      }
      var w := new TiffWriter(fs, dataFolder);
      r := Success(w);
    }

    /** `_onMDAStarted`: create a fresh numbered directory, then resolve the axis
        order and write the JSON sidecar. The directory is created and recorded
        before the axis order is resolved, so a sequence without events leaves the
        new directory in place and the previous axis order unchanged. */
    method OnSequenceStarted(s: Sequence) returns (r: Outcome<WriterError>)
      requires Valid()
      modifies this, fs
      ensures Valid()
      ensures path.Some? && Allocated(old(fs.entries), dataFolder, "", path.value)
      ensures path.value !in old(fs.entries)
      ensures r.Pass? <==> |s.events| > 0
      ensures r.Fail? ==>
                && r.error == NoEvents && axisOrder == old(axisOrder)
                && fs.entries == old(fs.entries) + {path.value} && fs.files == old(fs.files)
      ensures r.Pass? ==>
                && Running() && axisOrder == Some(SequenceAxisOrder(s))
                && fs.entries == old(fs.entries) + {path.value, Child(path.value, SidecarName)}
                && fs.files == old(fs.files)[Child(path.value, SidecarName) := Text(s.json)]
      ensures fs.stores == old(fs.stores)
    {
      var p := GetUniqueFolder(fs, dataFolder, "", true);
      path := Some(p);
      if |s.events| == 0 {
        return Fail(NoEvents);
      }
      axisOrder := Some(SequenceAxisOrder(s));
      fs.WriteFile(Child(p, SidecarName), Text(s.json));
      r := Pass;
    }

    /** `_onMDAFrame`: write the frame as one file of the run directory, named
        after its coordinate; only that file is added or overwritten. */
    method OnFrameReady(img: Frame, event: Event) returns (r: Outcome<WriterError>)
      requires Valid()
      modifies fs
      ensures Valid()
      ensures !Running() ==> r == Fail(NotStarted) && unchanged(fs)
      ensures Running() && !HasAxes(axisOrder.value, event.index) ==>
                r == Fail(MissingAxis) && unchanged(fs)
      ensures Running() && HasAxes(axisOrder.value, event.index) ==>
                var file := FramePath(path.value, axisOrder.value, event.index);
                && r == Pass
                && fs.files == old(fs.files)[file := TiffImage(img)]
                && fs.entries == old(fs.entries) + {file}
                && fs.stores == old(fs.stores)
    {
      if axisOrder.None? {
        return Fail(NotStarted);
      }
      var order := axisOrder.value;
      if !HasAxes(order, event.index) {
        return Fail(MissingAxis);
      }
      var index := EventToIndex(order, event.index);
      var name := FrameName(order, index);
      fs.WriteFile(Child(path.value, name), TiffImage(img));
      r := Pass;
    }
  }

  class ZarrWriter {
    const fs: FileSystem
    const storeName: Path
    const frameHeight: nat
    const frameWidth: nat
    const dtype: string
    /** `_axis_order`: the axis order of the current run. */
    var axisOrder: Option<string>
    /** `_z`: the store of the current run, by its path. */
    var z: Option<Path>

    ghost predicate Valid()
      reads this, fs
    {
      && fs.Valid()
      && (z.Some? <==> axisOrder.Some?)
      && (z.Some? ==> z.value in fs.stores)
    }

    ghost predicate Running()
      reads this
    {
      z.Some? && axisOrder.Some?
    }

    constructor (fs: FileSystem, storeName: Path, frameHeight: nat, frameWidth: nat, dtype: string)
      ensures this.fs == fs && this.storeName == storeName && this.dtype == dtype
      ensures this.frameHeight == frameHeight && this.frameWidth == frameWidth
      ensures axisOrder == None && z == None
    {
      this.fs := fs;
      this.storeName := storeName;
      this.frameHeight, this.frameWidth := frameHeight, frameWidth;
      this.dtype := dtype;
      axisOrder, z := None, None;
    }

    /** `ZarrWriter(store_name, img_shape, dtype)`: refused with ValueError when
        zarr is not installed. */
    static method Create(fs: FileSystem, storeName: Path, frameHeight: nat, frameWidth: nat,
                         dtype: string, zarrInstalled: bool)
      returns (r: Result<ZarrWriter, WriterError>)
      ensures r.Failure? <==> !zarrInstalled
      ensures r.Failure? ==> r.error == MissingDependency("zarr")
      ensures r.Success? ==>
                && fresh(r.value) && r.value.fs == fs && r.value.storeName == storeName
                && r.value.frameHeight == frameHeight && r.value.frameWidth == frameWidth
                && r.value.dtype == dtype
                && !r.value.Running() && (fs.Valid() ==> r.value.Valid())
    {
      if !zarrInstalled {
        return Failure(MissingDependency("zarr"));
      }
      var w := new ZarrWriter(fs, storeName, frameHeight, frameWidth, dtype);
      r := Success(w);
    }

    /** `_onMDAStarted`: resolve the axis order, then create a store at a fresh
        numbered `.zarr` path, shaped as the sequence's shape followed by the frame
        shape, all at the fill value, with the untrimmed axis order plus "yx" and
        the sequence's JSON text as attributes. A sequence without events fails
        before anything changes. */
    method OnSequenceStarted(s: Sequence) returns (r: Outcome<WriterError>)
      requires Valid()
      modifies this, fs
      ensures Valid()
      ensures r.Pass? <==> |s.events| > 0
      ensures r.Fail? ==> r.error == NoEvents && unchanged(this) && unchanged(fs)
      ensures r.Pass? ==>
                && Running() && axisOrder == Some(SequenceAxisOrder(s))
                && Allocated(old(fs.entries), storeName, ".zarr", z.value)
                && z.value !in old(fs.entries)
                && fs.entries == old(fs.entries) + {z.value}
                && fs.files == old(fs.files)
                && fs.stores == old(fs.stores)[z.value := fs.stores[z.value]]
      ensures r.Pass? ==>
                var st := fs.stores[z.value];
                && Shape(st) == s.shape + [frameHeight, frameWidth]
                && |st.leading| == |s.shape|
                && st.dtype == dtype
                && (forall c :: Cell(st, c) == FillFrame(frameHeight, frameWidth))
                && st.attrs == map["axis_order" := s.axisOrder + "yx", "useq-sequence" := s.json]
    {
      if |s.events| == 0 {
        return Fail(NoEvents);
      }
      axisOrder := Some(SequenceAxisOrder(s));
      var p := GetUniqueFolder(fs, storeName, ".zarr", false);
      var st := Open(s.shape, frameHeight, frameWidth, dtype);
      st := SetAttr(st, "axis_order", s.axisOrder + "yx");
      st := SetAttr(st, "useq-sequence", s.json);
      assert st.attrs == map["axis_order" := s.axisOrder + "yx", "useq-sequence" := s.json];
      fs.PutStore(p, st);
      z := Some(p);
      r := Pass;
    }

    /** `_onMDAFrame`: assign the frame to the store slice at the event's
        coordinate; only that slice changes, and a failed assignment changes
        nothing. */
    method OnFrameReady(img: Frame, event: Event) returns (r: Outcome<WriterError>)
      requires Valid()
      modifies fs
      ensures Valid()
      ensures !Running() ==> r == Fail(NotStarted) && unchanged(fs)
      ensures Running() && !HasAxes(axisOrder.value, event.index) ==>
                r == Fail(MissingAxis) && unchanged(fs)
      ensures Running() && HasAxes(axisOrder.value, event.index) ==>
                var res := SetSlice(old(fs.stores[z.value]), EventToIndex(axisOrder.value, event.index), img);
                && (res.Failure? ==> r == Fail(StoreFailure(res.error)) && unchanged(fs))
                && (res.Success? ==>
                      && r == Pass
                      && fs.stores == old(fs.stores)[z.value := res.value]
                      && fs.files == old(fs.files) && fs.entries == old(fs.entries))
    {
      if z.None? {
        return Fail(NotStarted);
      }
      var p := z.value;
      var order := axisOrder.value;
      if !HasAxes(order, event.index) {
        return Fail(MissingAxis);
      }
      var coord := EventToIndex(order, event.index);
      var res := SetSlice(fs.stores[p], coord, img);
      if res.Failure? {
        return Fail(StoreFailure(res.error));
      }
      fs.PutStore(p, res.value);
      r := Pass;
    }
  }

  /** A frame file never replaces the sidecar: frame names end in ".tiff". */
  lemma FrameNameIsNotSidecar(order: string, coord: seq<nat>)
    requires |order| == |coord|
    ensures FrameName(order, coord) != SidecarName
  {
    var name := FrameName(order, coord);
    assert SidecarName[|SidecarName| - 5..] == ".json";
    assert name[|name| - 5..] == ".tiff";
  }

  /** The files directly inside dir are the same in a and in b. */
  ghost predicate SameFilesIn(dir: Path, a: map<Path, FileData>, b: map<Path, FileData>) {
    forall n :: (Child(dir, n) in a <==> Child(dir, n) in b)
                && (Child(dir, n) in a ==> a[Child(dir, n)] == b[Child(dir, n)])
  }

  /** Writing a file inside one run directory leaves the files of another run
      directory of the same data folder as they were. */
  lemma WriteKeepsOtherRun(parent: string, stem: string, i: nat, j: nat,
                           m: map<Path, FileData>, name: string, data: FileData)
    requires i != j
    ensures SameFilesIn(Candidate(parent, stem, "", i), m, m[Child(Candidate(parent, stem, "", j), name) := data])
  {
    RunDirsDistinct(parent, stem, i, j);
  }

  lemma SameFilesInTransitive(dir: Path, a: map<Path, FileData>, b: map<Path, FileData>, c: map<Path, FileData>)
    requires SameFilesIn(dir, a, b) && SameFilesIn(dir, b, c)
    ensures SameFilesIn(dir, a, c)
  {
  }

  /** One run of a tiff writer with one frame: the run directory is the least
      free `<stem>_<i>`, and it holds the sequence's JSON sidecar, which the
      frame file (a `.tiff` name) does not replace. */
  method TiffRun(w: TiffWriter, s: Sequence, img: Frame, e: Event) returns (dir: Path, ghost i: nat)
    requires w.Valid() && |s.events| > 0
    modifies w, w.fs
    ensures w.Valid() && w.path == Some(dir)
    ensures FirstFree(old(w.fs.entries), w.dataFolder.parent, StemOf(w.dataFolder.name), "", i)
    ensures dir == Candidate(w.dataFolder.parent, StemOf(w.dataFolder.name), "", i)
    ensures dir in w.fs.entries
    ensures Child(dir, SidecarName) in w.fs.files && w.fs.files[Child(dir, SidecarName)] == Text(s.json)
    ensures w.Running() && w.axisOrder == Some(SequenceAxisOrder(s))
    ensures HasAxes(w.axisOrder.value, e.index) ==>
              && FramePath(dir, w.axisOrder.value, e.index) in w.fs.files
              && w.fs.files[FramePath(dir, w.axisOrder.value, e.index)] == TiffImage(img)
  {
    ghost var before := w.fs.entries;
    var r := w.OnSequenceStarted(s);
    dir := w.path.value;
    i :| FirstFree(before, w.dataFolder.parent, StemOf(w.dataFolder.name), "", i)
         && dir == Candidate(w.dataFolder.parent, StemOf(w.dataFolder.name), "", i);
    r := w.OnFrameReady(img, e);
    if HasAxes(w.axisOrder.value, e.index) {
      FrameNameIsNotSidecar(w.axisOrder.value, EventToIndex(w.axisOrder.value, e.index));
    }
  }

  /** A later run of a tiff writer with one frame, after the earlier run that
      created `<stem>_<earlier>`: the new run gets another index, and every
      file directly under the earlier run's directory is left as it was. */
  method LaterTiffRun(w: TiffWriter, s: Sequence, img: Frame, e: Event, ghost earlier: nat)
    returns (dir: Path, ghost i: nat)
    requires w.Valid() && |s.events| > 0
    requires Candidate(w.dataFolder.parent, StemOf(w.dataFolder.name), "", earlier) in w.fs.entries
    modifies w, w.fs
    ensures i != earlier && dir == Candidate(w.dataFolder.parent, StemOf(w.dataFolder.name), "", i)
    ensures SameFilesIn(Candidate(w.dataFolder.parent, StemOf(w.dataFolder.name), "", earlier),
                        old(w.fs.files), w.fs.files)
    ensures Child(dir, SidecarName) in w.fs.files && w.fs.files[Child(dir, SidecarName)] == Text(s.json)
  {
    ghost var parent, stem := w.dataFolder.parent, StemOf(w.dataFolder.name);
    ghost var before, atStart := w.fs.entries, w.fs.files;
    var r := w.OnSequenceStarted(s);
    dir := w.path.value;
    i :| FirstFree(before, parent, stem, "", i) && dir == Candidate(parent, stem, "", i);
    WriteKeepsOtherRun(parent, stem, earlier, i, atStart, SidecarName, Text(s.json));
    ghost var started := w.fs.files;
    r := w.OnFrameReady(img, e);
    if HasAxes(w.axisOrder.value, e.index) {
      var name := FrameName(w.axisOrder.value, EventToIndex(w.axisOrder.value, e.index));
      FrameNameIsNotSidecar(w.axisOrder.value, EventToIndex(w.axisOrder.value, e.index));
      WriteKeepsOtherRun(parent, stem, earlier, i, started, name, TiffImage(img));
      SameFilesInTransitive(Candidate(parent, stem, "", earlier), atStart, started, w.fs.files);
    }
  }

  /** Two runs of one tiff writer, one frame each: the second run gets a
      different directory, and every file under the first run's directory is
      after the second run what it was at the end of the first. */
  method TwoTiffRuns(w: TiffWriter, s1: Sequence, img1: Frame, e1: Event,
                     s2: Sequence, img2: Frame, e2: Event)
    returns (first: Path, second: Path, ghost endOfFirst: map<Path, FileData>)
    requires w.Valid() && |s1.events| > 0 && |s2.events| > 0
    modifies w, w.fs
    ensures first != second
    ensures Child(first, SidecarName) in endOfFirst && endOfFirst[Child(first, SidecarName)] == Text(s1.json)
    ensures SameFilesIn(first, endOfFirst, w.fs.files)
    ensures Child(second, SidecarName) in w.fs.files && w.fs.files[Child(second, SidecarName)] == Text(s2.json)
  {
    ghost var i1, i2;
    first, i1 := TiffRun(w, s1, img1, e1);
    endOfFirst := w.fs.files;
    second, i2 := LaterTiffRun(w, s2, img2, e2, i1);
    RunDirsDistinct(w.dataFolder.parent, StemOf(w.dataFolder.name), i1, i2);
  }

  /** Two runs of one zarr writer, one frame each: the second run gets a different
      store, and nothing of the second run reaches the first run's store. */
  method TwoZarrRuns(w: ZarrWriter, s1: Sequence, img1: Frame, e1: Event,
                     s2: Sequence, img2: Frame, e2: Event)
    returns (first: Path, second: Path, ghost endOfFirst: ZarrArray)
    requires w.Valid() && |s1.events| > 0 && |s2.events| > 0
    modifies w, w.fs
    ensures first != second
    ensures first in w.fs.stores && second in w.fs.stores
    ensures "useq-sequence" in endOfFirst.attrs && endOfFirst.attrs["useq-sequence"] == s1.json
    ensures w.fs.stores[first] == endOfFirst
    ensures "useq-sequence" in w.fs.stores[second].attrs
    ensures w.fs.stores[second].attrs["useq-sequence"] == s2.json
  {
    var r := w.OnSequenceStarted(s1);
    first := w.z.value;
    r := w.OnFrameReady(img1, e1);
    endOfFirst := w.fs.stores[first];
    r := w.OnSequenceStarted(s2);
    second := w.z.value;
    r := w.OnFrameReady(img2, e2);
  }
}
