/**
 * src/persist/write.rs: replace a file's contents through a temporary sibling
 * (create/truncate, write, fsync, rename over the target); bwrite2 also opens
 * the parent directory first and fsyncs it last, best effort.
 */
module PersistWrite {
  import opened Wrappers
  import opened Paths
  import opened Os
  import opened Persist

  /**
   * What bwrite1 does to the filesystem. It succeeds exactly when none of its
   * four calls fails and the paths involved can hold a file; then the target
   * holds `data` and the temporary path is gone. A failed write or fsync leaves
   * the target alone and a (partial) temporary file behind; a failed rename
   * leaves the complete temporary file. No other path and no directory changes.
   */
  function BWrite1Spec(fs: Fs, path: Path, data: seq<byte>, suffix: Suffix, faults: Faults): (out: Step<()>)
    ensures var t := TempPath(path, suffix);
            && out.fs.dirs == fs.dirs
            && UnchangedOutside(fs, out.fs, path, t)
            && (out.result.Ok? <==>
                  && Call.CreateTruncate(t) !in faults && Call.WriteAll(t) !in faults
                  && Call.SyncAll(t) !in faults && Call.Rename(t, path) !in faults
                  && t != Empty && t !in fs.dirs && path != Empty && path !in fs.dirs)
            && (out.result.Ok? ==>
                  && Exists(out.fs, path) && out.fs.files[path] == data
                  && (t != path ==> t !in out.fs.files))
            && (out.result.Err? ==>
                  || (FailedAt(out.result, Call.CreateTruncate(t)) && out.fs == fs)
                  || ((FailedAt(out.result, Call.WriteAll(t)) || FailedAt(out.result, Call.SyncAll(t)))
                      && t in out.fs.files && out.fs.files[t] <= data
                      && (t != path ==> Unchanged(fs, out.fs, path)))
                  || (FailedAt(out.result, Call.Rename(t, path))
                      && t in out.fs.files && out.fs.files[t] == data
                      && (t != path ==> Unchanged(fs, out.fs, path))))
  {
    var t := TempPath(path, suffix);
    var created := CreateTempFileSpec(fs, path, suffix, faults);
    if created.result.Err? then
      assert created.fs == fs;
      Step(Err(created.result.error), fs)
    else
      assert created.fs == Fs(fs.files[t := []], fs.dirs);
      assert Call.CreateTruncate(t) !in faults && t != Empty && t !in fs.dirs;
      assert t != path ==> Unchanged(fs, created.fs, path);
      var out := FillAndMove(created.fs, t, path, data, faults);
      assert UnchangedOutside(fs, out.fs, path, t) by {
        forall q | q != path && q != t ensures Unchanged(fs, out.fs, q) {
          assert Unchanged(created.fs, out.fs, q);
        }
      }
      out
  }

  /**
   * bwrite1 after its temporary file `t` was created empty: write, fsync and
   * rename over `path`, stopping at the first failure.
   */
  function FillAndMove(fs: Fs, t: Path, path: Path, data: seq<byte>, faults: Faults): (out: Step<()>)
    requires t != Empty && t in fs.files && fs.files[t] == []
    ensures && out.fs.dirs == fs.dirs
            && UnchangedOutside(fs, out.fs, path, t)
            && (out.result.Ok? <==>
                  && Call.WriteAll(t) !in faults && Call.SyncAll(t) !in faults
                  && Call.Rename(t, path) !in faults && path != Empty && path !in fs.dirs)
            && (out.result.Ok? ==> Exists(out.fs, path) && out.fs.files[path] == data && (t != path ==> t !in out.fs.files))
            && (out.result.Err? ==>
                  || ((FailedAt(out.result, Call.WriteAll(t)) || FailedAt(out.result, Call.SyncAll(t)))
                      && t in out.fs.files && out.fs.files[t] <= data
                      && (t != path ==> Unchanged(fs, out.fs, path)))
                  || (FailedAt(out.result, Call.Rename(t, path))
                      && t in out.fs.files && out.fs.files[t] == data
                      && (t != path ==> Unchanged(fs, out.fs, path))))
  {
    var written := WriteAllStep(fs, t, data, faults);
    if written.result.Err? then written
    else
      var synced := SyncAllStep(written.fs, t, faults);
      if synced.Err? then Step(synced, written.fs)
      else RenameStep(written.fs, t, path, faults)
  }

  /** bwrite1: readers-writer atomic replacement of `path` by `data`. */
  method BWrite1(fs: FileSystem, path: Path, data: seq<byte>, suffix: Suffix, faults: Faults) returns (r: Result<()>)
    modifies fs
    ensures Step(r, fs.State()) == BWrite1Spec(old(fs.State()), path, data, suffix, faults)
  {
    var created := CreateTempFile(fs, path, suffix, faults);
    if created.Err? {
      return Err(created.error);
    }
    var temp := created.value;
    r := fs.WriteAll(temp, data, faults);
    if r.Err? {
      return;
    }
    r := SyncAllStep(fs.State(), temp, faults);
    if r.Err? {
      return;
    }
    r := fs.Rename(temp, path, faults);
  }

  /**
   * What bwrite2 does: without a parent, or with a parent that cannot be
   * opened, it fails before any temporary file exists; otherwise it does what
   * bwrite1 does, and the outcome of the final directory fsync never matters.
   */
  function BWrite2Spec(fs: Fs, path: Path, data: seq<byte>, suffix: Suffix, faults: Faults): (out: Step<()>)
    ensures Parent(path).None? ==> out == Step(Err(NoParent(path)), fs)
    ensures Parent(path).Some? ==>
              var dir := Parent(path).value;
              (if Call.Open(dir) in faults || !Exists(fs, dir)
               then out.fs == fs && FailedAt(out.result, Call.Open(dir))
               else out == BWrite1Spec(fs, path, data, suffix, faults))
    ensures var t := TempPath(path, suffix);
            out.result.Ok? ==> Exists(out.fs, path) && out.fs.files[path] == data && (t != path ==> t !in out.fs.files)
  {
    match Parent(path)
    case None => Step(Err(NoParent(path)), fs)
    case Some(dir) =>
      var parent := OpenStep(fs, dir, faults);
      if parent.Err? then Step(Err(parent.error), fs)
      else BWrite1Spec(fs, path, data, suffix, faults)
  }

  /** bwrite2: bwrite1 between opening the parent directory and (best effort) fsyncing it. */
  method BWrite2(fs: FileSystem, path: Path, data: seq<byte>, suffix: Suffix, faults: Faults) returns (r: Result<()>)
    modifies fs
    ensures Step(r, fs.State()) == BWrite2Spec(old(fs.State()), path, data, suffix, faults)
  {
    var dir := Parent(path);
    if dir.None? {
      return Err(NoParent(path));
    }
    var parent := OpenStep(fs.State(), dir.value, faults);
    if parent.Err? {
      return Err(parent.error);
    }
    var created := CreateTempFile(fs, path, suffix, faults);
    if created.Err? {
      return Err(created.error);
    }
    var temp := created.value;
    r := fs.WriteAll(temp, data, faults);
    if r.Err? {
      return;
    }
    r := SyncAllStep(fs.State(), temp, faults);
    if r.Err? {
      return;
    }
    r := fs.Rename(temp, path, faults);
    if r.Err? {
      return;
    }
    var dirSynced := SyncAllStep(fs.State(), dir.value, faults);
    if dirSynced.Err? {
      // logged as a warning: directory fsync unsupported; the write still succeeds
    }
    r := Ok(());
  }

  /**
   * bwrite2 as evidently intended: the same steps, except that the temporary
   * file is opened with create_new, so a file that already carries the
   * temporary name makes the write fail instead of being truncated and
   * renamed away. A successful write then changes nothing but the target.
   */
  function BWrite2ExclusiveSpec(fs: Fs, path: Path, data: seq<byte>, suffix: Suffix, faults: Faults): (out: Step<()>)
    ensures var t := TempPath(path, suffix);
            && out.fs.dirs == fs.dirs
            && UnchangedOutside(fs, out.fs, path, t)
            && (Exists(fs, t) ==> out.result.Err?)
            && (out.result.Ok? ==> path in out.fs.files && out.fs.files[path] == data)
            && (out.result.Ok? && t != path ==> Unchanged(fs, out.fs, t))
  {
    match Parent(path)
    case None => Step(Err(NoParent(path)), fs)
    case Some(dir) =>
      var parent := OpenStep(fs, dir, faults);
      if parent.Err? then Step(Err(parent.error), fs)
      else
        var t := TempPath(path, suffix);
        var created := CreateNewStep(fs, t, faults);
        if created.result.Err? then created
        else
          assert t != Empty && created.fs == Fs(fs.files[t := []], fs.dirs);
          var out := FillAndMove(created.fs, t, path, data, faults);
          assert UnchangedOutside(fs, out.fs, path, t) by {
            forall q | q != path && q != t ensures Unchanged(fs, out.fs, q) {
              assert Unchanged(created.fs, out.fs, q);
            }
          }
          out
  }

  /** The oracle answers the same for call `c`. */
  predicate SameAnswer(f1: Faults, f2: Faults, c: Call)
  {
    (c in f1 <==> c in f2) && (c in f1 ==> f1[c] == f2[c])
  }

  /** bwrite1 depends on the oracle only through its own four calls. */
  lemma BWrite1OnlyAsks(fs: Fs, path: Path, data: seq<byte>, suffix: Suffix, f1: Faults, f2: Faults)
    requires var t := TempPath(path, suffix);
             && SameAnswer(f1, f2, Call.CreateTruncate(t)) && SameAnswer(f1, f2, Call.WriteAll(t))
             && SameAnswer(f1, f2, Call.SyncAll(t)) && SameAnswer(f1, f2, Call.Rename(t, path))
    ensures BWrite1Spec(fs, path, data, suffix, f1) == BWrite1Spec(fs, path, data, suffix, f2)
  {
    var t := TempPath(path, suffix);
    assert CreateTempFileSpec(fs, path, suffix, f1) == CreateTempFileSpec(fs, path, suffix, f2);
    var created := CreateTempFileSpec(fs, path, suffix, f1);
    if created.result.Ok? {
      assert WriteAllStep(created.fs, t, data, f1) == WriteAllStep(created.fs, t, data, f2);
      var written := WriteAllStep(created.fs, t, data, f1);
      assert SyncAllStep(written.fs, t, f1) == SyncAllStep(written.fs, t, f2);
      assert RenameStep(written.fs, t, path, f1) == RenameStep(written.fs, t, path, f2);
      assert FillAndMove(created.fs, t, path, data, f1) == FillAndMove(created.fs, t, path, data, f2);
    }
  }

  /** Whether the parent directory's fsync fails, and how, does not change bwrite2's outcome. */
  lemma BWrite2IgnoresDirSync(fs: Fs, path: Path, data: seq<byte>, suffix: Suffix, faults: Faults, f: Fault)
    requires Parent(path).Some?
    ensures var sync := Call.SyncAll(Parent(path).value);
            BWrite2Spec(fs, path, data, suffix, faults[sync := f]) == BWrite2Spec(fs, path, data, suffix, faults - {sync})
  {
    var dir := Parent(path).value;
    var t := TempPath(path, suffix);
    assert t != dir by {
      if FileNameOf(path).Some? {
        assert Parent(t) == Parent(path);
      }
    }
    var sync := Call.SyncAll(dir);
    var f1, f2 := faults[sync := f], faults - {sync};
    BWrite1OnlyAsks(fs, path, data, suffix, f1, f2);
    assert SameAnswer(f1, f2, Call.Open(dir));
  }

  /** bwrite2 changes no directory and no path but the target and its temporary path. */
  lemma BWrite2LeavesOthers(fs: Fs, path: Path, data: seq<byte>, suffix: Suffix, faults: Faults, q: Path)
    requires q != path && q != TempPath(path, suffix)
    ensures var out := BWrite2Spec(fs, path, data, suffix, faults);
            Unchanged(fs, out.fs, q) && out.fs.dirs == fs.dirs
  {
  }
}
