/** The two-file commit of the non-interactive setup: stage both files, then rename both into place. */
module Commit {
  import opened DiskModel
  import opened Options

  /** A state a commit may be cut in: each destination wholly old or wholly new, the second new only after the first,
      everything else as it was. */
  ghost predicate Safe(before: Files, s: Files, pathA: Path, dataA: Content, pathB: Path, dataB: Content) {
    && (Get(s, pathA) == Get(before, pathA) || Get(s, pathA) == Some(dataA))
    && (Get(s, pathB) == Get(before, pathB) || (Get(s, pathB) == Some(dataB) && Get(s, pathA) == Some(dataA)))
    && forall p: Path :: (p.Named? || p in before) && p != pathA && p != pathB ==> Get(s, p) == Get(before, p)
  }

  /** In a safe state no file is torn, and a destination that is not as it was says what else is in place. */
  lemma SafeMeans(before: Files, s: Files, pathA: Path, dataA: Content, pathB: Path, dataB: Content)
    requires Safe(before, s, pathA, dataA, pathB, dataB) && pathA != pathB
    ensures Get(s, pathA) != Get(before, pathA) ==> Get(s, pathA) == Some(dataA)
    ensures Get(s, pathB) != Get(before, pathB) ==> Get(s, pathA) == Some(dataA) && Get(s, pathB) == Some(dataB)
    ensures forall p: Path :: p.Named? && p != pathA && p != pathB ==> (p in s <==> p in before)
    ensures forall p: Path :: p in before && p != pathA && p != pathB ==> p in s && s[p] == before[p]
  {
    assert forall p: Path :: p in before && p != pathA && p != pathB ==> Get(s, p) == Get(before, p);
    forall p: Path | p.Named? && p != pathA && p != pathB ensures p in s <==> p in before {
      assert Get(s, p) == Get(before, p);
    }
  }

  /** stageTempFile. Whatever fails, the files that were there are never touched. */
  method StageTempFile(disk: Disk, data: Content) returns (tmp: Option<Path>)
    requires disk.Valid() && disk.kept && forall s :: Same(disk.files, s) ==> disk.watch(s)
    modifies disk
    ensures disk.Valid() && disk.kept
    ensures tmp.Some? ==> tmp.value.Temp? && tmp.value !in old(disk.files)
    ensures tmp.Some? ==> disk.files == old(disk.files)[tmp.value := data]
    ensures disk.NoFaults() ==> tmp.Some?
    ensures tmp.None? ==> Same(old(disk.files), disk.files) && (disk.RemovesWork() ==> disk.files == old(disk.files))
  {
    ghost var before := disk.files;
    assert Same(before, before);
    var t := disk.CreateTemp();
    if t.None? {
      return None;
    }
    var name := t.value;
    TempOnly(before, name, []);
    hide Same;
    var ok := disk.Write(name, data);
    TempOnly(before, name, disk.files[name]);
    assert disk.files == before[name := disk.files[name]];
    if !ok {
      var _ := disk.Touch();
      disk.Remove(name);
      return None;
    }
    ok := disk.Touch();
    if !ok {
      var _ := disk.Touch();
      disk.Remove(name);
      return None;
    }
    ok := disk.Touch();
    if !ok {
      disk.Remove(name);
      return None;
    }
    return Some(name);
  }

  /** How far a commit got: a staging failed, both files are staged, the first is installed, both are. */
  datatype Reached = Nothing | Staged | First | Both

  /** commitTwoFilesAtomic. Every state it may be cut in is safe; success installs both; an error before the first
      rename has happened leaves both files old, a later one the second; no error leaves a temporary file when
      removals work; and when no operation fails the commit succeeds. */
  method CommitTwoFiles(disk: Disk, pathA: Path, dataA: Content, pathB: Path, dataB: Content)
      returns (ok: bool, ghost reached: Reached)
    requires disk.Valid() && pathA.Named? && pathB.Named? && pathA != pathB
    requires disk.kept && forall s :: Safe(disk.files, s, pathA, dataA, pathB, dataB) ==> disk.watch(s)
    modifies disk
    ensures disk.Valid() && disk.kept
    ensures Safe(old(disk.files), disk.files, pathA, dataA, pathB, dataB)
    ensures ok ==> disk.files == old(disk.files)[pathA := dataA][pathB := dataB]
    ensures !ok ==> Get(disk.files, pathB) == Get(old(disk.files), pathB)
    ensures (forall i :: !disk.faults(i)) ==> ok
    ensures ok <==> reached.Both?
    ensures reached.Nothing? || reached.Staged? ==> Same(old(disk.files), disk.files)
    ensures reached.First? ==>
            Get(disk.files, pathA) == Some(dataA) && Get(disk.files, pathB) == Get(old(disk.files), pathB)
    ensures (forall i :: !disk.removeFaults(i)) && (reached.Nothing? || reached.Staged?) ==>
              disk.files == old(disk.files)
    ensures (forall i :: !disk.removeFaults(i)) && reached.First? ==> disk.files == old(disk.files)[pathA := dataA]
  {
    ghost var before := disk.files;
    forall s | Same(before, s) ensures disk.watch(s) {
      assert Safe(before, s, pathA, dataA, pathB, dataB);
    }
    var tmpA := StageTempFile(disk, dataA);
    if tmpA.None? {
      return false, Nothing;
    }
    ghost var staged := disk.files;
    forall s | Same(staged, s) ensures disk.watch(s) {
      SameAsBefore(before, staged, s, tmpA.value, dataA);
      assert Safe(before, s, pathA, dataA, pathB, dataB);
    }
    var tmpB := StageTempFile(disk, dataB);
    if tmpB.None? {
      SameAsBefore(before, staged, disk.files, tmpA.value, dataA);
      disk.Remove(tmpA.value);
      SameWithout(before, disk.files, tmpA.value);
      return false, Nothing;
    }
    assert disk.files == before[tmpA.value := dataA][tmpB.value := dataB];
    ok, reached := InstallBoth(disk, before, tmpA.value, tmpB.value, pathA, dataA, pathB, dataB);
  }

  lemma SameAsBefore(before: Files, staged: Files, s: Files, t: Path, data: Content)
    requires t !in before && t.Temp? && staged == before[t := data] && Same(staged, s)
    ensures Same(before, s)
  {
    forall p: Path | p.Named? || p in before ensures Get(s, p) == Get(before, p) {
      assert Get(s, p) == Get(staged, p);
    }
  }

  lemma SameWithout(before: Files, s: Files, t: Path)
    requires forall p: Path :: p != t && (p.Named? || p in before) ==> Get(s, p) == Get(before, p)
    requires t.Temp? && t !in before
    ensures Same(before, s)
  {
  }

  /** What a path holds once the first, or both, of the destinations are installed. */
  ghost function Installed(before: Files, a: bool, b: bool, pathA: Path, dataA: Content, pathB: Path, dataB: Content,
                           p: Path): Option<Content> {
    if a && p == pathA then Some(dataA) else if b && p == pathB then Some(dataB) else Get(before, p)
  }

  lemma InstalledIsSafe(before: Files, s: Files, a: bool, b: bool, tmpA: Path, tmpB: Path, pathA: Path, dataA: Content,
                        pathB: Path, dataB: Content)
    requires pathA.Named? && pathB.Named? && pathA != pathB && (b ==> a)
    requires tmpA.Temp? && tmpB.Temp? && tmpA !in before && tmpB !in before
    requires forall p :: p != tmpA && p != tmpB ==> Get(s, p) == Installed(before, a, b, pathA, dataA, pathB, dataB, p)
    ensures Safe(before, s, pathA, dataA, pathB, dataB)
  {
  }

  /** The second rename and its cleanup. */
  method InstallSecond(disk: Disk, ghost before: Files, ghost tmpA: Path, tmpB: Path, ghost pathA: Path,
                       ghost dataA: Content, pathB: Path, ghost dataB: Content) returns (ok: bool)
    requires disk.Valid() && pathA.Named? && pathB.Named? && pathA != pathB
    requires tmpA.Temp? && tmpB.Temp? && tmpA !in before && tmpB !in before
    requires disk.files == before[tmpB := dataB][pathA := dataA]
    requires disk.kept && forall s :: Safe(before, s, pathA, dataA, pathB, dataB) ==> disk.watch(s)
    modifies disk
    ensures disk.Valid() && disk.kept
    ensures Safe(before, disk.files, pathA, dataA, pathB, dataB)
    ensures ok ==> disk.files == before[pathA := dataA][pathB := dataB]
    ensures !ok ==> Get(disk.files, pathB) == Get(before, pathB)
    ensures disk.NoFaults() ==> ok
    ensures Get(disk.files, pathA) == Some(dataA)
    ensures !ok && disk.RemovesWork() ==> disk.files == before[pathA := dataA]
  {
    hide Safe;
    ok := disk.Rename(tmpB, pathB);
    InstalledIsSafe(before, disk.files, true, ok, tmpA, tmpB, pathA, dataA, pathB, dataB);
    if !ok {
      disk.Remove(tmpB);
      InstalledIsSafe(before, disk.files, true, false, tmpA, tmpB, pathA, dataA, pathB, dataB);
    }
  }

  /** The two renames and their cleanup. */
  method InstallBoth(disk: Disk, ghost before: Files, tmpA: Path, tmpB: Path, pathA: Path, dataA: Content, pathB: Path,
                     dataB: Content)
      returns (ok: bool, ghost reached: Reached)
    requires disk.Valid() && pathA.Named? && pathB.Named? && pathA != pathB
    requires tmpA.Temp? && tmpB.Temp? && tmpA != tmpB && tmpA !in before && tmpB !in before
    requires disk.files == before[tmpA := dataA][tmpB := dataB]
    requires disk.kept && forall s :: Safe(before, s, pathA, dataA, pathB, dataB) ==> disk.watch(s)
    modifies disk
    ensures disk.Valid() && disk.kept
    ensures Safe(before, disk.files, pathA, dataA, pathB, dataB)
    ensures ok ==> disk.files == before[pathA := dataA][pathB := dataB]
    ensures !ok ==> Get(disk.files, pathB) == Get(before, pathB)
    ensures disk.NoFaults() ==> ok
    ensures ok <==> reached.Both?
    ensures !reached.Nothing?
    ensures reached.Staged? ==> Same(before, disk.files) && (disk.RemovesWork() ==> disk.files == before)
    ensures reached.First? ==>
            Get(disk.files, pathA) == Some(dataA) && (disk.RemovesWork() ==> disk.files == before[pathA := dataA])
  {
    hide Safe;
    ok := disk.Rename(tmpA, pathA);
    InstalledIsSafe(before, disk.files, ok, false, tmpA, tmpB, pathA, dataA, pathB, dataB);
    if !ok {
      disk.Remove(tmpA);
      InstalledIsSafe(before, disk.files, false, false, tmpA, tmpB, pathA, dataA, pathB, dataB);
      disk.Remove(tmpB);
      InstalledIsSafe(before, disk.files, false, false, tmpA, tmpB, pathA, dataA, pathB, dataB);
      return false, Staged;
    }
    assert disk.files == before[tmpB := dataB][pathA := dataA];
    ok := InstallSecond(disk, before, tmpA, tmpB, pathA, dataA, pathB, dataB);
    reached := if ok then Both else First;
  }
}
