/** BaseWriter.get_unique_folder: probe `<stem>_1`, `<stem>_2`, ... until a path is
    free, optionally create it as a directory. */
module Allocator {
  import opened Paths
  import opened Disk

  /** i is the least index >= 1 whose candidate does not exist. */
  ghost predicate FirstFree(existing: set<Path>, parent: string, stem: string, suffix: string, i: nat) {
    && i >= 1
    && Candidate(parent, stem, suffix, i) !in existing
    && forall j :: 1 <= j < i ==> Candidate(parent, stem, suffix, j) in existing
  }

  /** p is what get_unique_folder returns for `base` against the existing paths. */
  ghost predicate Allocated(existing: set<Path>, base: Path, suffix: string, p: Path) {
    exists i :: FirstFree(existing, base.parent, StemOf(base.name), suffix, i)
                && p == Candidate(base.parent, StemOf(base.name), suffix, i)
  }

  /** The probe loop: from i = 1, step i while its candidate exists. It ends
      because distinct indices give distinct candidates and only finitely many
      paths exist. */
  method Probe(existing: set<Path>, parent: string, stem: string, suffix: string) returns (path: Path, i: nat)
    ensures FirstFree(existing, parent, stem, suffix, i)
    ensures path == Candidate(parent, stem, suffix, i)
  {
    i := 1;
    path := Candidate(parent, stem, suffix, i);
    // Each probed path, mapped back to the index it was built from.
    ghost var probed: map<Path, nat> := map[];
    while path in existing
      invariant i >= 1 && path == Candidate(parent, stem, suffix, i)
      invariant probed.Keys <= existing
      invariant forall q :: q in probed ==> 1 <= probed[q] < i && Candidate(parent, stem, suffix, probed[q]) == q
      invariant forall j :: 1 <= j < i ==> Candidate(parent, stem, suffix, j) in existing
      decreases |existing - probed.Keys|
    {
      assert path !in probed by {
        if path in probed {
          CandidateInjective(parent, stem, suffix, probed[path], i);
        }
      }
      assert existing - (probed.Keys + {path}) == (existing - probed.Keys) - {path};
      probed := probed[path := i];
      forall j | 1 <= j <= i ensures Candidate(parent, stem, suffix, j) in existing {
        if j == i {
          assert Candidate(parent, stem, suffix, j) == path;
        }
      }
      i := i + 1;
      path := Candidate(parent, stem, suffix, i);
    }
  }

  /** get_unique_folder(base, suffix, create): the least free candidate; with
      create the directory is made, and nothing else on disk changes. */
  method GetUniqueFolder(fs: FileSystem, base: Path, suffix: string, create: bool) returns (path: Path)
    requires fs.Valid() && ValidSuffix(suffix)
    modifies fs
    ensures fs.Valid()
    ensures Allocated(old(fs.entries), base, suffix, path)
    ensures path !in old(fs.entries)
    ensures fs.entries == if create then old(fs.entries) + {path} else old(fs.entries)
    ensures fs.files == old(fs.files) && fs.stores == old(fs.stores)
  {
    var stem := StemOf(base.name);
    var i;
    path, i := Probe(fs.entries, base.parent, stem, suffix);
    if create {
      fs.MakeDir(path);
    }
  }

  /** Successive calls with create on the same base, when none of its candidates
      exists at the start, return `<stem>_1` ... `<stem>_n` in that order; a
      further call without create then returns `<stem>_{n+1}` and creates
      nothing. */
  method AllocateSuccessive(fs: FileSystem, base: Path, n: nat) returns (paths: seq<Path>, next: Path)
    requires fs.Valid()
    requires forall j :: Candidate(base.parent, StemOf(base.name), "", j) !in fs.entries
    modifies fs
    ensures fs.Valid()
    ensures |paths| == n
    ensures forall k :: 0 <= k < n ==> paths[k] == Candidate(base.parent, StemOf(base.name), "", k + 1)
    ensures next == Candidate(base.parent, StemOf(base.name), "", n + 1)
    ensures forall q :: q in fs.entries <==> q in old(fs.entries) || q in paths
  {
    var stem := StemOf(base.name);
    paths := [];
    while |paths| < n
      invariant fs.Valid()
      invariant |paths| <= n
      invariant forall k :: 0 <= k < |paths| ==> paths[k] == Candidate(base.parent, stem, "", k + 1)
      invariant forall q :: q in fs.entries <==> q in old(fs.entries) || q in paths
      invariant forall j :: j >= 1 ==> (Candidate(base.parent, stem, "", j) in fs.entries <==> j <= |paths|)
    {
      var m := |paths|;
      ghost var before := fs.entries;
      var p := GetUniqueFolder(fs, base, "", true);
      ghost var i: nat :| FirstFree(before, base.parent, stem, "", i)
                     && p == Candidate(base.parent, stem, "", i);
      assert Candidate(base.parent, stem, "", i) !in before;
      assert Candidate(base.parent, stem, "", m + 1) !in before;
      assert i == m + 1;
      forall j | j >= 1
        ensures Candidate(base.parent, stem, "", j) in fs.entries <==> j <= m + 1
      {
        if Candidate(base.parent, stem, "", j) == p {
          CandidateInjective(base.parent, stem, "", j, i);
        }
      }
      paths := paths + [p];
    }
    ghost var before := fs.entries;
    next := GetUniqueFolder(fs, base, "", false);
    ghost var i: nat :| FirstFree(before, base.parent, stem, "", i)
                   && next == Candidate(base.parent, stem, "", i);
    assert Candidate(base.parent, stem, "", i) !in before;
    assert Candidate(base.parent, stem, "", n + 1) !in before;
    assert i == n + 1;
  }
}
