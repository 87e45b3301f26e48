/** Files under failure: every file operation can fail, and a run can be cut after any operation. */
module DiskModel {
  import opened Bytes
  import opened Options

  /** A path somebody chose, or a temporary file that CreateTemp made. */
  datatype Path = Named(name: string) | Temp(n: nat)

  type Content = seq<byte>

  type Files = map<Path, Content>

  function Get(files: Files, p: Path): Option<Content> {
    if p in files then Some(files[p]) else None
  }

  /** Everything that was there before is as it was, and no chosen path is new. */
  ghost predicate Same(before: Files, s: Files) {
    forall p: Path :: p.Named? || p in before ==> Get(s, p) == Get(before, p)
  }

  /** A new temporary file changes nothing that was there, and removing it undoes it. */
  lemma TempOnly(before: Files, t: Path, data: Content)
    requires t.Temp? && t !in before
    ensures Same(before, before[t := data]) && before[t := data] - {t} == before
  {
  }

  class Disk {
    var files: Files
    var nextTemp: nat
    var clock: nat

    // What goes wrong: the operations that fail, the removals that fail, and how much of a failed write lands.
    const faults: nat -> bool
    const removeFaults: nat -> bool
    const cut: nat -> nat

    // A property of the files that is checked after every operation, where a crash may cut the run,
    // and whether every check so far has passed.
    ghost const watch: Files -> bool
    ghost var kept: bool

    constructor (files: Files, nextTemp: nat, faults: nat -> bool, removeFaults: nat -> bool, cut: nat -> nat,
                 ghost watch: Files -> bool)
      requires forall n: nat :: Temp(n) in files ==> n < nextTemp
      ensures Valid() && this.files == files && kept
      ensures this.faults == faults && this.removeFaults == removeFaults && this.watch == watch
    {
      this.files, this.nextTemp, this.clock := files, nextTemp, 0;
      this.faults, this.removeFaults, this.cut := faults, removeFaults, cut;
      this.watch, kept := watch, true;
    }

    ghost predicate Valid()
      reads this
    {
      forall n: nat :: Temp(n) in files ==> n < nextTemp
    }

    ghost predicate RemovesWork() {
      forall i :: !removeFaults(i)
    }

    ghost predicate NoFaults() {
      forall i :: !faults(i)
    }

    /** os.CreateTemp: a new empty file under a name nobody has. */
    method CreateTemp() returns (t: Option<Path>)
      requires Valid()
      modifies this
      ensures Valid() && kept == (old(kept) && watch(files))
      ensures t.None? ==> files == old(files)
      ensures NoFaults() ==> t.Some?
      ensures t.Some? ==> t.value.Temp? && t.value !in old(files) && files == old(files)[t.value := []]
    {
      if faults(clock) {
        t := None;
      } else {
        t := Some(Temp(nextTemp));
        files := files[Temp(nextTemp) := []];
        nextTemp := nextTemp + 1;
      }
      clock := clock + 1;
      kept := kept && watch(files);
    }

    /** Writing a temporary file: a failed write leaves a part of the data. */
    method Write(t: Path, data: Content) returns (ok: bool)
      requires Valid() && t in files
      modifies this
      ensures Valid() && kept == (old(kept) && watch(files))
      ensures files.Keys == old(files).Keys && files == old(files)[t := files[t]]
      ensures ok ==> files[t] == data
      ensures NoFaults() ==> ok
    {
      ok := !faults(clock);
      var n := if ok || cut(clock) > |data| then |data| else cut(clock);
      assert data[..|data|] == data;
      files := files[t := data[..n]];
      clock := clock + 1;
      kept := kept && watch(files);
    }

    /** Chmod, sync, close: they can fail and change no content. */
    method Touch() returns (ok: bool)
      requires Valid()
      modifies this
      ensures Valid() && kept == (old(kept) && watch(files)) && files == old(files)
      ensures NoFaults() ==> ok
    {
      ok := !faults(clock);
      clock := clock + 1;
      kept := kept && watch(files);
    }

    /** os.Remove; removing what is not there is an error nobody looks at. */
    method Remove(p: Path)
      requires Valid()
      modifies this
      ensures Valid() && kept == (old(kept) && watch(files))
      ensures files == old(files) - {p} || files == old(files)
      ensures RemovesWork() ==> files == old(files) - {p}
    {
      if !removeFaults(clock) {
        files := files - {p};
      }
      clock := clock + 1;
      kept := kept && watch(files);
    }

    /** os.Rename: atomic. */
    method Rename(from: Path, to: Path) returns (ok: bool)
      requires Valid() && to.Named?
      modifies this
      ensures Valid() && kept == (old(kept) && watch(files))
      ensures ok ==> from in old(files) && files == (old(files) - {from})[to := old(files)[from]]
      ensures !ok ==> files == old(files)
      ensures NoFaults() && from in old(files) ==> ok
    {
      ok := !faults(clock) && from in files;
      if ok {
        files := (files - {from})[to := files[from]];
      }
      clock := clock + 1;
      kept := kept && watch(files);
    }
  }
}
