/** Paths as (parent directory, final name) pairs, the final-name rules of Python's
    pathlib that get_unique_folder relies on (suffix, stem, with_suffix), and the
    numbered candidate names `<stem>_<i>[<suffix>]` it probes. */
module Paths {
  import opened Decimal

  datatype Path = Path(parent: string, name: string)

  /** `dir / name`: an entry directly inside directory dir. */
  function Child(dir: Path, name: string): Path {
    Path(DirString(dir), name)
  }

  /** str.rfind(c): the index of the last occurrence of c in s, or -1. */
  function LastIndexOf(s: string, c: char): (k: int)
    ensures -1 <= k < |s|
    ensures k >= 0 ==> s[k] == c
    ensures forall j :: k < j < |s| ==> s[j] != c
  {
    if s == [] then -1
    else if s[|s| - 1] == c then |s| - 1
    else LastIndexOf(s[..|s| - 1], c)
  }

  /** pathlib's rule for a final name: the suffix starts at the last dot, provided
      that dot is neither the first nor the last character. */
  predicate HasSuffix(name: string) {
    0 < LastIndexOf(name, '.') < |name| - 1
  }

  /** PurePath.stem: the final name without its suffix. */
  function StemOf(name: string): (r: string)
    ensures |r| <= |name| && name[..|r|] == r
    ensures !HasSuffix(name) <==> r == name
    ensures HasSuffix(name) ==> name[|r|] == '.' && forall j :: |r| < j < |name| ==> name[j] != '.'
  {
    if HasSuffix(name) then name[..LastIndexOf(name, '.')] else name
  }

  /** PurePath.with_suffix(suffix) on the final name: the old suffix (if any) is
      replaced by the new one. */
  function WithSuffix(name: string, suffix: string): (r: string)
    requires ValidSuffix(suffix)
    ensures !HasSuffix(name) ==> r == name + suffix
    ensures HasSuffix(name) ==> r == name[..LastIndexOf(name, '.')] + suffix
  {
    StemOf(name) + suffix
  }

  /** The suffixes with_suffix accepts without raising ValueError; the empty
      string stands for "no suffix given". */
  predicate ValidSuffix(suffix: string) {
    suffix == "" || (suffix[0] == '.' && suffix != "." && '/' !in suffix)
  }

  /** The i-th candidate `parent/<stem>_<i><suffix>` that the allocator probes:
      the form the allocator promises, `{folder_base_name}_{i}` with the suffix
      appended. */
  function Candidate(parent: string, stem: string, suffix: string, i: nat): (p: Path)
    ensures p.parent == parent
  {
    Path(parent, stem + "_" + Dec(i) + suffix)
  }

  /** The shape of a candidate's name: `<stem>_`, then digits that read back as
      the index, then the suffix. */
  lemma CandidateShape(parent: string, stem: string, suffix: string, i: nat)
    ensures var name := Candidate(parent, stem, suffix, i).name;
            && |name| > |stem| + |suffix| + 1
            && name[..|stem| + 1] == stem + "_" && name[|name| - |suffix|..] == suffix
            && AllDigits(name[|stem| + 1..|name| - |suffix|])
            && Value(name[|stem| + 1..|name| - |suffix|]) == i
  {
    var name := Candidate(parent, stem, suffix, i).name;
    assert name[|stem| + 1..|name| - |suffix|] == Dec(i);
    ValueOfDec(i);
  }

  /** The candidate as written at _writers.py:68-72: `<stem>_<i>` and then, if a
      suffix is given, `with_suffix(suffix)` on that name. */
  function AsWrittenCandidate(parent: string, stem: string, suffix: string, i: nat): (p: Path)
    requires ValidSuffix(suffix)
    ensures p.parent == parent
    ensures suffix == "" ==> p == Candidate(parent, stem, suffix, i)
    ensures suffix != "" ==> |suffix| <= |p.name| && p.name[|p.name| - |suffix|..] == suffix
  {
    var name := stem + "_" + Dec(i);
    if suffix != "" then Path(parent, WithSuffix(name, suffix)) else Path(parent, name)
  }

  /** Different indices give different candidates: this is what makes the probe
      loop terminate. */
  lemma CandidateInjective(parent: string, stem: string, suffix: string, i: nat, j: nat)
    requires Candidate(parent, stem, suffix, i) == Candidate(parent, stem, suffix, j)
    ensures i == j
  {
    var a := Candidate(parent, stem, suffix, i).name;
    var b := Candidate(parent, stem, suffix, j).name;
    assert |Dec(i)| == |Dec(j)|;
    assert Dec(i) == a[|stem| + 1..|a| - |suffix|];
    assert Dec(j) == b[|stem| + 1..|b| - |suffix|];
    DecInjective(i, j);
  }

  /** The directory string `parent/name` that the entries of directory p have
      as their parent. */
  function DirString(p: Path): string {
    p.parent + "/" + p.name
  }

  /** Two run directories `<stem>_<i>` and `<stem>_<j>` of one parent have
      different directory strings when i != j. */
  lemma RunDirsDistinct(parent: string, stem: string, i: nat, j: nat)
    requires i != j
    ensures DirString(Candidate(parent, stem, "", i)) != DirString(Candidate(parent, stem, "", j))
  {
    var a, b := Candidate(parent, stem, "", i), Candidate(parent, stem, "", j);
    if DirString(a) == DirString(b) {
      assert a.name == DirString(a)[|parent| + 1..];
      assert b.name == DirString(b)[|parent| + 1..];
      CandidateInjective(parent, stem, "", i, j);
    }
  }

  /** Entries of two run directories `<stem>_<i>` and `<stem>_<j>` of one parent
      never coincide when i != j. Child alone is not injective in its directory
      (`a/b` + `c` and `a` + `b/c` give the same entry); here the two
      directories share their parent. */
  lemma RunDirChildrenDistinct(parent: string, stem: string, i: nat, j: nat, n1: string, n2: string)
    requires i != j
    ensures Child(Candidate(parent, stem, "", i), n1) != Child(Candidate(parent, stem, "", j), n2)
  {
    RunDirsDistinct(parent, stem, i, j);
  }

  /** Appending characters other than c does not move the last c. */
  lemma {:induction false} LastIndexOfAppend(s: string, t: string, c: char)
    requires c !in t
    ensures LastIndexOf(s + t, c) == LastIndexOf(s, c)
  {
    if t != [] {
      var u := s + t;
      assert u[..|u| - 1] == s + t[..|t| - 1];
      LastIndexOfAppend(s, t[..|t| - 1], c);
    } else {
      assert s + t == s;
    }
  }

  /** The text `_<i>` never holds a dot. */
  lemma NoDotInIndexText(i: nat)
    ensures '.' !in "_" + Dec(i)
  {
    var t := "_" + Dec(i);
    forall k | 0 <= k < |t| ensures t[k] != '.' {
      if k > 0 {
        assert t[k] == Dec(i)[k - 1];
      }
    }
  }

  /** When the stem has no dot after its first character, neither has
      `<stem>_<i>`: pathlib sees no suffix, and its stem is the whole name. */
  lemma IndexNameKeepsStem(stem: string, i: nat)
    requires LastIndexOf(stem, '.') <= 0
    ensures StemOf(stem + "_" + Dec(i)) == stem + "_" + Dec(i)
  {
    NoDotInIndexText(i);
    LastIndexOfAppend(stem, "_" + Dec(i), '.');
    assert stem + "_" + Dec(i) == stem + ("_" + Dec(i));
  }

  /** When the stem has no dot after its first character, the code as written
      produces exactly the candidate `<stem>_<i><suffix>`. */
  lemma AsWrittenMatchesCandidate(parent: string, stem: string, suffix: string, i: nat)
    requires ValidSuffix(suffix) && LastIndexOf(stem, '.') <= 0
    ensures AsWrittenCandidate(parent, stem, suffix, i) == Candidate(parent, stem, suffix, i)
  {
    IndexNameKeepsStem(stem, i);
  }

  /** When the stem keeps a dot after its first character (a base name such as
      `2024.01.05`, whose stem is `2024.01`), with_suffix cuts every candidate
      back to that dot: all indices give the same path. */
  lemma AsWrittenCollapses(parent: string, stem: string, suffix: string, i: nat)
    requires suffix != "" && ValidSuffix(suffix)
    requires LastIndexOf(stem, '.') > 0
    ensures AsWrittenCandidate(parent, stem, suffix, i)
            == Path(parent, stem[..LastIndexOf(stem, '.')] + suffix)
  {
    var name := stem + "_" + Dec(i);
    NoDotInIndexText(i);
    LastIndexOfAppend(stem, "_" + Dec(i), '.');
    assert name == stem + ("_" + Dec(i));
    assert HasSuffix(name);
    assert name[..LastIndexOf(stem, '.')] == stem[..LastIndexOf(stem, '.')];
  }

  /** Consequence for the probe loop as written: once the collapsed path exists,
      no index yields a free candidate, so `while path.exists()` never ends. */
  lemma AsWrittenNoFreeIndex(existing: set<Path>, parent: string, stem: string, suffix: string)
    requires suffix != "" && ValidSuffix(suffix)
    requires LastIndexOf(stem, '.') > 0
    requires Path(parent, stem[..LastIndexOf(stem, '.')] + suffix) in existing
    ensures forall i: nat :: AsWrittenCandidate(parent, stem, suffix, i) in existing
  {
    forall i: nat ensures AsWrittenCandidate(parent, stem, suffix, i) in existing {
      AsWrittenCollapses(parent, stem, suffix, i);
    }
  }

  /** The concrete case: a store named `2024.01.05` has stem `2024.01`, and every
      `.zarr` candidate is `2024.zarr`. */
  lemma DatedStoreNameCollapses(parent: string, i: nat)
    ensures StemOf("2024.01.05") == "2024.01"
    ensures AsWrittenCandidate(parent, StemOf("2024.01.05"), ".zarr", i) == Path(parent, "2024.zarr")
  {
    assert LastIndexOf("2024.01.05", '.') == 7 by {
      assert "2024.01.05"[..9] == "2024.01.0";
      assert "2024.01.05"[..8] == "2024.01.";
    }
    assert "2024.01.05"[..7] == "2024.01";
    assert LastIndexOf("2024.01", '.') == 4 by {
      assert "2024.01"[..6] == "2024.0";
      assert "2024.01"[..5] == "2024.";
    }
    AsWrittenCollapses(parent, "2024.01", ".zarr", i);
    assert "2024.01"[..4] + ".zarr" == "2024.zarr";
  }
}
