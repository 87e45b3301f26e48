/** The self-update: the signature gate, phase 1 (download, verify and test-run every binary in temporary files) and
    phase 2 (rename them into place in order), under a failure at any operation. */
module Update {
  import opened DiskModel
  import opened Options

  datatype AssetSpec = AssetSpec(name: string, wantSHA: string, installPath: Path)

  datatype Fetched = Fetched(bytes: Content, complete: bool)

  /** What the run cannot control: what each download yields, the digest, whether the context is cancelled after a
      download, and the test run of a binary, when there is one. */
  datatype World = World(fetch: string -> Fetched, hash: Content -> string, cancelled: string -> bool,
                         verify: Option<Content -> bool>) {
    function ContentOf(spec: AssetSpec): Content {
      fetch(spec.name).bytes
    }

    /** The digest of what was downloaded is the one asked for. */
    predicate Matches(spec: AssetSpec) {
      fetch(spec.name).complete && spec.wantSHA != "" && hash(ContentOf(spec)) == spec.wantSHA
    }

    /** The download is the one asked for, and the context is not cancelled meanwhile. */
    predicate Arrives(spec: AssetSpec) {
      Matches(spec) && !cancelled(spec.name)
    }

    predicate Passed(spec: AssetSpec) {
      Matches(spec) && (verify.Some? ==> verify.value(ContentOf(spec)))
    }
  }

  /* ---- The signature gate ---- */

  datatype Cosign = Verified | NotInstalled | Rejected

  /** verifyChecksumsSig. Without allowUnsigned only a verified signature passes; a signature that is there and rejected
      never does. */
  method VerifyChecksumsSig(sigPresent: bool, certPresent: bool, sigFetched: bool, certFetched: bool, cosign: Cosign,
                            allowUnsigned: bool)
      returns (ok: bool)
    ensures ok && !allowUnsigned ==> sigPresent && certPresent && cosign.Verified?
    ensures sigPresent && certPresent && cosign.Rejected? ==> !ok
    ensures sigPresent && certPresent && !(sigFetched && certFetched) ==> !ok
    ensures sigPresent && certPresent && sigFetched && certFetched && cosign.Verified? ==> ok
    ensures allowUnsigned && !(sigPresent && certPresent) ==> ok
    ensures allowUnsigned && !ok ==> sigPresent && certPresent && (!sigFetched || !certFetched || cosign.Rejected?)
  {
    if !sigPresent || !certPresent {
      if !allowUnsigned {
        return false;
      }
      return true;
    }
    if !sigFetched {
      return false;
    }
    if !certFetched {
      return false;
    }
    match cosign {
      case Verified => return true;
      case NotInstalled =>
        if !allowUnsigned {
          return false;
        }
        return true;
      case Rejected => return false;
    }
  }

  /* ---- States of an installation ---- */

  ghost predicate DistinctPaths(specs: seq<AssetSpec>) {
    && (forall i :: 0 <= i < |specs| ==> specs[i].installPath.Named?)
    && (forall i, j :: 0 <= i < j < |specs| ==> specs[i].installPath != specs[j].installPath)
  }

  /** What a path holds once the first k binaries are installed. */
  ghost function After(before: Files, specs: seq<AssetSpec>, w: World, k: nat, p: Path): Option<Content>
    requires k <= |specs|
  {
    if k == 0 then Get(before, p)
    else if specs[k - 1].installPath == p then Some(w.ContentOf(specs[k - 1]))
    else After(before, specs, w, k - 1, p)
  }

  ghost predicate AllPassed(specs: seq<AssetSpec>, w: World) {
    forall i :: 0 <= i < |specs| ==> w.Passed(specs[i])
  }

  /** Nothing but a file operation can go wrong. */
  ghost predicate AllGood(specs: seq<AssetSpec>, w: World) {
    AllPassed(specs, w) && forall i :: 0 <= i < |specs| ==> w.Arrives(specs[i])
  }

  /** k binaries are installed, in order, and nothing else of what was there has changed. */
  ghost predicate InstalledUpTo(before: Files, s: Files, specs: seq<AssetSpec>, w: World, k: nat) {
    && k <= |specs|
    && (k > 0 ==> AllPassed(specs, w))
    && forall p: Path :: p.Named? || p in before ==> Get(s, p) == After(before, specs, w, k, p)
  }

  /** A state an update may be cut in. */
  ghost predicate Safe(before: Files, s: Files, specs: seq<AssetSpec>, w: World) {
    exists k: nat :: InstalledUpTo(before, s, specs, w, k)
  }

  /** In a safe state each binary is wholly old or wholly the verified new one, a later one is new only if the earlier
      ones are, and none is new unless all were verified. */
  lemma {:induction false} SafeMeans(before: Files, s: Files, specs: seq<AssetSpec>, w: World, i: nat, j: nat)
    requires DistinctPaths(specs) && Safe(before, s, specs, w)
    requires i <= j < |specs|
    ensures Get(s, specs[j].installPath) == Get(before, specs[j].installPath)
         || (AllPassed(specs, w)
             && Get(s, specs[j].installPath) == Some(w.ContentOf(specs[j]))
             && Get(s, specs[i].installPath) == Some(w.ContentOf(specs[i])))
  {
    var k: nat :| InstalledUpTo(before, s, specs, w, k);
    AfterAt(before, specs, w, k, i);
    AfterAt(before, specs, w, k, j);
  }

  lemma {:induction false} AfterAt(before: Files, specs: seq<AssetSpec>, w: World, k: nat, i: nat)
    requires DistinctPaths(specs) && k <= |specs| && i < |specs|
    ensures After(before, specs, w, k, specs[i].installPath)
         == if i < k then Some(w.ContentOf(specs[i])) else Get(before, specs[i].installPath)
  {
    if k > 0 && k - 1 != i {
      AfterAt(before, specs, w, k - 1, i);
    }
  }

  /* ---- Temporary files ---- */

  /** Fresh temporary files, all different. */
  ghost predicate Fresh(before: Files, tmps: seq<Path>) {
    && (forall i :: 0 <= i < |tmps| ==> tmps[i].Temp? && tmps[i] !in before)
    && (forall i, j :: 0 <= i < j < |tmps| ==> tmps[i] != tmps[j])
  }

  /** k binaries are installed, and the rest of tmps hold theirs. */
  ghost predicate Staged(before: Files, s: Files, specs: seq<AssetSpec>, w: World, tmps: seq<Path>, k: nat) {
    && k <= |tmps| <= |specs|
    && Fresh(before, tmps)
    && (forall p :: p !in tmps ==> Get(s, p) == After(before, specs, w, k, p))
    && (forall i :: k <= i < |tmps| ==> Get(s, tmps[i]) == Some(w.ContentOf(specs[i])))
  }

  lemma StagedIsSafe(before: Files, s: Files, specs: seq<AssetSpec>, w: World, tmps: seq<Path>, k: nat)
    requires Fresh(before, tmps) && k <= |specs|
    requires forall p :: p !in tmps ==> Get(s, p) == After(before, specs, w, k, p)
    requires k > 0 ==> AllPassed(specs, w)
    ensures Safe(before, s, specs, w)
  {
    assert InstalledUpTo(before, s, specs, w, k);
  }

  lemma SameIsStill(before: Files, s: Files, t: Files, specs: seq<AssetSpec>, w: World, tmps: seq<Path>)
    requires Staged(before, s, specs, w, tmps, 0) && Same(s, t)
    ensures Safe(before, t, specs, w)
  {
    forall p: Path | p.Named? || p in before ensures Get(t, p) == After(before, specs, w, 0, p) {
      assert Get(t, p) == Get(s, p);
    }
    assert InstalledUpTo(before, t, specs, w, 0);
  }

  /* ---- Phase 1 ---- */

  /** DownloadVerified. Whatever fails, the files that were there are never touched. */
  method DownloadVerified(disk: Disk, spec: AssetSpec, w: World) returns (tmp: Option<Path>)
    requires disk.Valid() && disk.kept && forall s :: Same(disk.files, s) ==> disk.watch(s)
    modifies disk
    ensures disk.Valid() && disk.kept
    ensures disk.NoFaults() && w.Arrives(spec) ==> tmp.Some?
    ensures tmp.Some? ==>
              && w.Matches(spec)
              && tmp.value.Temp? && tmp.value !in old(disk.files)
              && disk.files == old(disk.files)[tmp.value := w.ContentOf(spec)]
    ensures tmp.None? ==> Same(old(disk.files), disk.files) && (disk.RemovesWork() ==> disk.files == old(disk.files))
  {
    ghost var before := disk.files;
    assert Same(before, before);
    if spec.wantSHA == "" {
      return None;
    }
    var t := disk.CreateTemp();
    if t.None? {
      return None;
    }
    var path := t.value;
    TempOnly(before, path, []);
    hide Same;
    var fetched := w.fetch(spec.name);
    var written := disk.Write(path, fetched.bytes);
    TempOnly(before, path, disk.files[path]);
    assert disk.files == before[path := disk.files[path]];
    var ok := written && fetched.complete && !w.cancelled(spec.name);
    if ok {
      ok := disk.Touch();
    }
    if ok {
      ok := w.hash(fetched.bytes) == spec.wantSHA;
    }
    var _ := disk.Touch();
    if !ok {
      disk.Remove(path);
      return None;
    }
    return Some(path);
  }

  /** One turn of phase 1: download, make executable, test-run. */
  method StageOne(disk: Disk, specs: seq<AssetSpec>, i: nat, w: World, ghost before: Files, tmps: seq<Path>)
      returns (tmp: Option<Path>, ok: bool)
    requires disk.Valid() && disk.kept && i == |tmps| < |specs|
    requires forall s :: Safe(before, s, specs, w) ==> disk.watch(s)
    requires Staged(before, disk.files, specs, w, tmps, 0)
    modifies disk
    ensures disk.Valid() && disk.kept
    ensures tmp.Some? ==> Staged(before, disk.files, specs, w, tmps + [tmp.value], 0)
    ensures tmp.None? ==> !ok && Same(old(disk.files), disk.files)
    ensures tmp.None? && disk.RemovesWork() ==> disk.files == old(disk.files)
    ensures disk.NoFaults() && w.Arrives(specs[i]) && w.Passed(specs[i]) ==> ok
    ensures ok ==> tmp.Some? && w.Passed(specs[i])
  {
    ghost var s0 := disk.files;
    forall s | Same(s0, s) ensures disk.watch(s) {
      SameIsStill(before, s0, s, specs, w, tmps);
    }
    tmp := DownloadVerified(disk, specs[i], w);
    if tmp.None? {
      return None, false;
    }
    StagedMore(before, s0, specs, w, tmps, tmp.value);
    hide Staged, Safe;
    StagedSafe(before, disk.files, specs, w, tmps + [tmp.value]);
    ok := disk.Touch();
    if !ok {
      return tmp, false;
    }
    if w.verify.Some? {
      ok := w.verify.value(w.ContentOf(specs[i]));
    }
  }

  lemma StagedSafe(before: Files, s: Files, specs: seq<AssetSpec>, w: World, tmps: seq<Path>)
    requires Staged(before, s, specs, w, tmps, 0)
    ensures Safe(before, s, specs, w)
  {
    StagedIsSafe(before, s, specs, w, tmps, 0);
  }

  lemma {:induction false} StagedMore(before: Files, s: Files, specs: seq<AssetSpec>, w: World, tmps: seq<Path>,
                                      t: Path)
    requires Staged(before, s, specs, w, tmps, 0) && |tmps| < |specs|
    requires t.Temp? && t !in s
    ensures Staged(before, s[t := w.ContentOf(specs[|tmps|])], specs, w, tmps + [t], 0)
  {
    var more := tmps + [t];
    assert forall i :: 0 <= i < |tmps| ==> Get(s, tmps[i]).Some?;
    assert t !in before by {
      if t !in tmps {
        assert Get(s, t) == Get(before, t);
      }
    }
    forall p | p !in more ensures Get(s[t := w.ContentOf(specs[|tmps|])], p) == After(before, specs, w, 0, p) {
      assert p !in tmps by {
        assert p in tmps ==> p in more;
      }
      assert t in more;
    }
  }

  /** Phase 1: no install path is touched; success means every binary passed and waits in a temporary file. */
  method StageAll(disk: Disk, specs: seq<AssetSpec>, w: World, ghost before: Files)
      returns (tmps: seq<Path>, ok: bool, downloads: nat)
    requires disk.Valid() && disk.kept && disk.files == before
    requires forall s :: Safe(before, s, specs, w) ==> disk.watch(s)
    modifies disk
    ensures disk.Valid() && disk.kept && downloads <= |specs| && (|specs| > 0 ==> downloads > 0)
    ensures |tmps| <= |specs| && Fresh(before, tmps)
    ensures forall p: Path :: p !in tmps && (p.Named? || p in before) ==> Get(disk.files, p) == Get(before, p)
    ensures disk.RemovesWork() ==> forall p :: p !in tmps ==> Get(disk.files, p) == Get(before, p)
    ensures disk.NoFaults() && AllGood(specs, w) ==> ok
    ensures ok ==> |tmps| == |specs| && AllPassed(specs, w) && Staged(before, disk.files, specs, w, tmps, 0)
  {
    tmps, downloads := [], 0;
    for i := 0 to |specs|
      invariant disk.Valid() && disk.kept && |tmps| == i && downloads == i
      invariant Staged(before, disk.files, specs, w, tmps, 0)
      invariant forall j :: 0 <= j < i ==> w.Passed(specs[j])
    {
      ghost var s0 := disk.files;
      downloads := downloads + 1;
      var tmp;
      tmp, ok := StageOne(disk, specs, i, w, before, tmps);
      if tmp.Some? {
        tmps := tmps + [tmp.value];
      }
      if !ok {
        return tmps, false, downloads;
      }
    }
    ok := true;
  }

  /* ---- Phase 2 ---- */

  /** AtomicReplace: an executable bit, then an atomic rename. */
  method AtomicReplace(disk: Disk, tmp: Path, final: Path) returns (ok: bool)
    requires disk.Valid() && final.Named? && disk.kept && disk.watch(disk.files)
    requires tmp in disk.files && disk.watch((disk.files - {tmp})[final := disk.files[tmp]])
    modifies disk
    ensures disk.Valid() && disk.kept
    ensures disk.NoFaults() ==> ok
    ensures disk.files == if ok then (old(disk.files) - {tmp})[final := old(disk.files)[tmp]] else old(disk.files)
  {
    ok := disk.Touch();
    if !ok {
      return false;
    }
    ok := disk.Rename(tmp, final);
  }

  lemma {:induction false} ReplaceStages(before: Files, s: Files, specs: seq<AssetSpec>, w: World, tmps: seq<Path>,
                                         k: nat)
    requires DistinctPaths(specs) && |tmps| == |specs| && k < |specs|
    requires Staged(before, s, specs, w, tmps, k)
    ensures tmps[k] in s
    ensures Staged(before, (s - {tmps[k]})[specs[k].installPath := s[tmps[k]]], specs, w, tmps, k + 1)
  {
    var path := specs[k].installPath;
    assert Get(s, tmps[k]) == Some(w.ContentOf(specs[k]));
    var t := (s - {tmps[k]})[path := s[tmps[k]]];
    assert path !in tmps;
    forall p | p !in tmps ensures Get(t, p) == After(before, specs, w, k + 1, p) {
      assert tmps[k] in tmps;
    }
  }

  /** Phase 2. */
  method InstallAll(disk: Disk, specs: seq<AssetSpec>, w: World, ghost before: Files, tmps: seq<Path>)
      returns (ok: bool, ghost k: nat)
    requires disk.Valid() && disk.kept && DistinctPaths(specs) && |tmps| == |specs| && AllPassed(specs, w)
    requires forall s :: Safe(before, s, specs, w) ==> disk.watch(s)
    requires Staged(before, disk.files, specs, w, tmps, 0)
    modifies disk
    ensures disk.Valid() && disk.kept
    ensures disk.NoFaults() ==> ok
    ensures Staged(before, disk.files, specs, w, tmps, k) && (ok ==> k == |specs|)
  {
    hide Staged, Safe, AllPassed, DistinctPaths;
    k := 0;
    for i := 0 to |specs|
      invariant disk.Valid() && disk.kept && k == i
      invariant Staged(before, disk.files, specs, w, tmps, k)
    {
      ReplaceStages(before, disk.files, specs, w, tmps, k);
      StagedSafeAt(before, disk.files, specs, w, tmps, k);
      ghost var next := (disk.files - {tmps[k]})[specs[k].installPath := disk.files[tmps[k]]];
      StagedSafeAt(before, next, specs, w, tmps, k + 1);
      NamedPath(specs, i);
      var replaced := AtomicReplace(disk, tmps[i], specs[i].installPath);
      if !replaced {
        return false, k;
      }
      k := k + 1;
    }
    ok := true;
  }

  lemma NamedPath(specs: seq<AssetSpec>, i: nat)
    requires DistinctPaths(specs) && i < |specs|
    ensures specs[i].installPath.Named?
  {
  }

  lemma StagedSafeAt(before: Files, s: Files, specs: seq<AssetSpec>, w: World, tmps: seq<Path>, k: nat)
    requires Staged(before, s, specs, w, tmps, k) && AllPassed(specs, w)
    ensures Safe(before, s, specs, w)
  {
    StagedIsSafe(before, s, specs, w, tmps, k);
  }

  /** The deferred removal of the temporary files. */
  method Cleanup(disk: Disk, specs: seq<AssetSpec>, w: World, ghost before: Files, tmps: seq<Path>, ghost k: nat)
    requires disk.Valid() && disk.kept && Fresh(before, tmps) && k <= |specs|
    requires k > 0 ==> AllPassed(specs, w)
    requires forall s :: Safe(before, s, specs, w) ==> disk.watch(s)
    requires forall p: Path :: p !in tmps && (p.Named? || p in before) ==>
            Get(disk.files, p) == After(before, specs, w, k, p)
    modifies disk
    ensures disk.Valid() && disk.kept
    ensures InstalledUpTo(before, disk.files, specs, w, k)
    ensures forall p :: p !in tmps ==> Get(disk.files, p) == old(Get(disk.files, p))
    ensures disk.RemovesWork() ==> forall p :: p in tmps ==> p !in disk.files
  {
    hide After, AllPassed;
    ghost var s0 := disk.files;
    for i := 0 to |tmps|
      invariant disk.Valid() && disk.kept
      invariant forall p :: p !in tmps ==> Get(disk.files, p) == Get(s0, p)
      invariant disk.RemovesWork() ==> forall j :: 0 <= j < i ==> tmps[j] !in disk.files
    {
      assert tmps[i] in tmps;
      disk.Remove(tmps[i]);
      assert InstalledUpTo(before, disk.files, specs, w, k);
    }
    assert InstalledUpTo(before, disk.files, specs, w, k);
  }

  /** Phases 1 and 2 of runUpdate. Every state they may be cut in is safe; success installs every binary; after an error
      no temporary file is left when removals work. */
  method Install(disk: Disk, specs: seq<AssetSpec>, w: World) returns (ok: bool, downloads: nat)
    requires disk.Valid() && disk.kept && DistinctPaths(specs)
    requires forall s :: Safe(disk.files, s, specs, w) ==> disk.watch(s)
    modifies disk
    ensures disk.Valid() && disk.kept && (|specs| > 0 ==> downloads > 0)
    ensures Safe(old(disk.files), disk.files, specs, w)
    ensures disk.NoFaults() && AllGood(specs, w) ==> ok
    ensures ok ==> InstalledUpTo(old(disk.files), disk.files, specs, w, |specs|)
    ensures !ok && disk.RemovesWork() ==> forall p: Path :: p.Temp? ==> Get(disk.files, p) == Get(old(disk.files), p)
  {
    ghost var before := disk.files;
    var tmps, staged;
    tmps, staged, downloads := StageAll(disk, specs, w, before);
    if !staged {
      Cleanup(disk, specs, w, before, tmps, 0);
      return false, downloads;
    }
    ghost var k;
    ok, k := InstallAll(disk, specs, w, before, tmps);
    if !ok {
      AfterTemps(before, specs, w, k);
      Cleanup(disk, specs, w, before, tmps, k);
      return false, downloads;
    }
    assert InstalledUpTo(before, disk.files, specs, w, |specs|);
  }

  lemma {:induction false} AfterTemps(before: Files, specs: seq<AssetSpec>, w: World, k: nat)
    requires DistinctPaths(specs) && k <= |specs|
    ensures forall p: Path :: p.Temp? ==> After(before, specs, w, k, p) == Get(before, p)
  {
    if k > 0 {
      AfterTemps(before, specs, w, k - 1);
    }
  }

  /* ---- The whole command, from the checksums on ---- */

  datatype Release = Release(sigPresent: bool, certPresent: bool, sigFetched: bool, certFetched: bool, cosign: Cosign,
                             sums: Option<map<string, string>>) {
    /** The checksums file has a digest for both. */
    predicate Lists(main: string, enforcer: string) {
      sums.Some? && main in sums.value && enforcer in sums.value
    }

    /** What is installed, and in which order. */
    function Specs(main: string, mainPath: Path, enforcer: string, enforcerPath: Path): seq<AssetSpec>
      requires Lists(main, enforcer)
    {
      [AssetSpec(main, sums.value[main], mainPath), AssetSpec(enforcer, sums.value[enforcer], enforcerPath)]
    }
  }

  /** The download of name is whole, has the digest asked for, and runs. */
  predicate Genuine(w: World, name: string, digest: string) {
    && w.fetch(name).complete && digest != "" && w.hash(w.fetch(name).bytes) == digest
    && (w.verify.Some? ==> w.verify.value(w.fetch(name).bytes))
  }

  /** A state a self-update may be cut in, by the names, paths and digests of the two binaries: each path is old or has
      its own download, none is new unless both downloads are genuine, the enforcer only after main, and nothing else
      has changed. */
  ghost predicate Upgraded(before: Files, s: Files, w: World, main: string, mainPath: Path, mainSHA: string,
                           enforcer: string, enforcerPath: Path, enforcerSHA: string) {
    && (Get(s, mainPath) == Get(before, mainPath) || Get(s, mainPath) == Some(w.fetch(main).bytes))
    && (Get(s, enforcerPath) == Get(before, enforcerPath) || Get(s, enforcerPath) == Some(w.fetch(enforcer).bytes))
    && (Get(s, enforcerPath) != Get(before, enforcerPath) ==> Get(s, mainPath) == Some(w.fetch(main).bytes))
    && (Get(s, mainPath) != Get(before, mainPath) || Get(s, enforcerPath) != Get(before, enforcerPath) ==>
          Genuine(w, main, mainSHA) && Genuine(w, enforcer, enforcerSHA))
    && forall p: Path :: (p.Named? || p in before) && p != mainPath && p != enforcerPath ==> Get(s, p) == Get(before, p)
  }

  /** The safe states of the installation of a release are the ones named. */
  lemma {:induction false} UpgradedIff(before: Files, s: Files, w: World, r: Release, main: string, mainPath: Path,
                                       enforcer: string, enforcerPath: Path)
    requires mainPath.Named? && enforcerPath.Named? && mainPath != enforcerPath && r.Lists(main, enforcer)
    ensures Safe(before, s, r.Specs(main, mainPath, enforcer, enforcerPath), w) <==>
            Upgraded(before, s, w, main, mainPath, r.sums.value[main], enforcer, enforcerPath, r.sums.value[enforcer])
  {
    var specs := r.Specs(main, mainPath, enforcer, enforcerPath);
    SpecsAfter(before, w, r, main, mainPath, enforcer, enforcerPath);
    if Safe(before, s, specs, w) {
      var k: nat :| InstalledUpTo(before, s, specs, w, k);
      hide After;
    }
    if Upgraded(before, s, w, main, mainPath, r.sums.value[main], enforcer, enforcerPath, r.sums.value[enforcer]) {
      hide After;
      if Get(s, enforcerPath) != Get(before, enforcerPath) {
        assert InstalledUpTo(before, s, specs, w, 2);
      } else if Get(s, mainPath) != Get(before, mainPath) {
        assert InstalledUpTo(before, s, specs, w, 1);
      } else {
        assert InstalledUpTo(before, s, specs, w, 0);
      }
    }
  }

  lemma SpecsAfter(before: Files, w: World, r: Release, main: string, mainPath: Path, enforcer: string,
                   enforcerPath: Path)
    requires mainPath != enforcerPath && r.Lists(main, enforcer)
    ensures var specs := r.Specs(main, mainPath, enforcer, enforcerPath);
            && |specs| == 2
            && (AllPassed(specs, w) <==>
                  Genuine(w, main, r.sums.value[main]) && Genuine(w, enforcer, r.sums.value[enforcer]))
            && forall p ::
                 && After(before, specs, w, 0, p) == Get(before, p)
                 && After(before, specs, w, 1, p)
                    == (if p == mainPath then Some(w.fetch(main).bytes) else Get(before, p))
                 && After(before, specs, w, 2, p)
                    == if p == enforcerPath then Some(w.fetch(enforcer).bytes) else After(before, specs, w, 1, p)
  {
    var specs := r.Specs(main, mainPath, enforcer, enforcerPath);
    assert AllPassed(specs, w) <==> w.Passed(specs[0]) && w.Passed(specs[1]);
  }

  /** A signature that is there and verified, or the opt-out for one that is missing or cannot be checked. */
  predicate Accepted(r: Release, allowUnsigned: bool): (accepted: bool)
    ensures r.sigPresent && r.certPresent && r.sigFetched && r.certFetched && r.cosign.Verified? ==> accepted
    ensures allowUnsigned && !(r.sigPresent && r.certPresent) ==> accepted
    ensures allowUnsigned && r.sigFetched && r.certFetched && r.cosign.NotInstalled? ==> accepted
    ensures accepted && !allowUnsigned ==> r.sigPresent && r.certPresent && r.cosign.Verified?
  {
    if r.sigPresent && r.certPresent then
      r.sigFetched && r.certFetched && (r.cosign.Verified? || (r.cosign.NotInstalled? && allowUnsigned))
    else allowUnsigned
  }

  /** runUpdate from its downloaded checksums on: main is installed before enforcer. */
  method RunUpdate(disk: Disk, r: Release, allowUnsigned: bool, main: string, mainPath: Path, enforcer: string,
                   enforcerPath: Path, w: World)
      returns (ok: bool, downloads: nat)
    requires disk.Valid() && disk.kept
    requires mainPath.Named? && enforcerPath.Named? && mainPath != enforcerPath
    requires r.Lists(main, enforcer) ==>
               forall s ::
                 Upgraded(disk.files, s, w, main, mainPath, r.sums.value[main], enforcer, enforcerPath,
                          r.sums.value[enforcer])
                 ==> disk.watch(s)
    modifies disk
    ensures disk.Valid() && disk.kept
    ensures r.sigPresent && r.certPresent && r.cosign.Rejected? ==>
            !ok && downloads == 0 && disk.files == old(disk.files)
    ensures downloads > 0 && !allowUnsigned ==> r.sigPresent && r.certPresent && r.cosign.Verified?
    ensures downloads == 0 ==> !ok && disk.files == old(disk.files)
    ensures downloads > 0 ==>
              && r.Lists(main, enforcer)
              && Upgraded(old(disk.files), disk.files, w, main, mainPath, r.sums.value[main], enforcer, enforcerPath,
                          r.sums.value[enforcer])
              && (!ok && (forall i :: !disk.removeFaults(i)) ==>
                    forall p: Path :: p.Temp? ==> Get(disk.files, p) == Get(old(disk.files), p))
    ensures ok ==>
              && r.Lists(main, enforcer)
              && Get(disk.files, mainPath) == Some(w.fetch(main).bytes)
              && w.hash(w.fetch(main).bytes) == r.sums.value[main]
              && Get(disk.files, enforcerPath) == Some(w.fetch(enforcer).bytes)
              && w.hash(w.fetch(enforcer).bytes) == r.sums.value[enforcer]
    ensures && Accepted(r, allowUnsigned) && r.Lists(main, enforcer) && (forall i :: !disk.faults(i))
            && Genuine(w, main, r.sums.value[main]) && !w.cancelled(main)
            && Genuine(w, enforcer, r.sums.value[enforcer]) && !w.cancelled(enforcer)
            ==> ok
  {
    var signed := VerifyChecksumsSig(r.sigPresent, r.certPresent, r.sigFetched, r.certFetched, r.cosign, allowUnsigned);
    if !signed {
      return false, 0;
    }
    if r.sums.None? {
      return false, 0;
    }
    if main !in r.sums.value {
      return false, 0;
    }
    if enforcer !in r.sums.value {
      return false, 0;
    }
    ok, downloads := InstallBoth(disk, r, main, mainPath, enforcer, enforcerPath, w);
  }

  /** The installation of the two binaries of a release. */
  method InstallBoth(disk: Disk, r: Release, main: string, mainPath: Path, enforcer: string, enforcerPath: Path,
                     w: World)
      returns (ok: bool, downloads: nat)
    requires disk.Valid() && disk.kept && r.Lists(main, enforcer)
    requires mainPath.Named? && enforcerPath.Named? && mainPath != enforcerPath
    requires forall s ::
               Upgraded(disk.files, s, w, main, mainPath, r.sums.value[main], enforcer, enforcerPath,
                        r.sums.value[enforcer])
               ==> disk.watch(s)
    modifies disk
    ensures disk.Valid() && disk.kept && downloads > 0
    ensures Upgraded(old(disk.files), disk.files, w, main, mainPath, r.sums.value[main], enforcer, enforcerPath,
                     r.sums.value[enforcer])
    ensures !ok && disk.RemovesWork() ==> forall p: Path :: p.Temp? ==> Get(disk.files, p) == Get(old(disk.files), p)
    ensures ok ==>
              && Genuine(w, main, r.sums.value[main]) && Get(disk.files, mainPath) == Some(w.fetch(main).bytes)
              && Genuine(w, enforcer, r.sums.value[enforcer])
              && Get(disk.files, enforcerPath) == Some(w.fetch(enforcer).bytes)
    ensures && disk.NoFaults()
            && Genuine(w, main, r.sums.value[main]) && !w.cancelled(main)
            && Genuine(w, enforcer, r.sums.value[enforcer]) && !w.cancelled(enforcer)
            ==> ok
  {
    ghost var before := disk.files;
    var both := r.Specs(main, mainPath, enforcer, enforcerPath);
    SpecsAfter(before, w, r, main, mainPath, enforcer, enforcerPath);
    assert && Genuine(w, main, r.sums.value[main]) && !w.cancelled(main)
           && Genuine(w, enforcer, r.sums.value[enforcer]) && !w.cancelled(enforcer)
           ==> AllGood(both, w);
    hide Safe, Upgraded, After, AllPassed, AllGood;
    forall s | Safe(before, s, both, w) ensures disk.watch(s) {
      UpgradedIff(before, s, w, r, main, mainPath, enforcer, enforcerPath);
    }
    ok, downloads := Install(disk, both, w);
    UpgradedIff(before, disk.files, w, r, main, mainPath, enforcer, enforcerPath);
  }
}
