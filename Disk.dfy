/** The file system the writers work on: which paths exist, what the regular
    files the writers create hold, and the array stores they open. */
module Disk {
  import opened Paths
  import opened Acquisition
  import opened ZarrStore

  /** Contents of a file a writer creates: the JSON sidecar, or one frame encoded
      as a TIFF image. */
  datatype FileData = Text(text: string) | TiffImage(frame: Frame)

  class FileSystem {
    /** Every path that exists: directories, files and stores. */
    var entries: set<Path>
    var files: map<Path, FileData>
    var stores: map<Path, ZarrArray>

    ghost predicate Valid()
      reads this
    {
      files.Keys <= entries && stores.Keys <= entries
    }

    constructor (existing: set<Path>)
      ensures Valid()
      ensures entries == existing && files == map[] && stores == map[]
    {
      entries, files, stores := existing, map[], map[];
    }

    /** `path.mkdir(parents=True)` on a path that does not exist yet. */
    method MakeDir(p: Path)
      requires Valid() && p !in entries
      modifies this
      ensures Valid()
      ensures entries == old(entries) + {p}
      ensures files == old(files) && stores == old(stores)
    {
      entries := entries + {p};
    }

    /** Create or overwrite the file at p. */
    method WriteFile(p: Path, data: FileData)
      requires Valid()
      modifies this
      ensures Valid()
      ensures entries == old(entries) + {p}
      ensures files == old(files)[p := data] && stores == old(stores)
    {
      entries := entries + {p};
      files := files[p := data];
    }

    /** Create the store at p, or replace what it holds. */
    method PutStore(p: Path, z: ZarrArray)
      requires Valid()
      modifies this
      ensures Valid()
      ensures entries == old(entries) + {p}
      ensures stores == old(stores)[p := z] && files == old(files)
    {
      entries := entries + {p};
      stores := stores[p := z];
    }
  }
}
