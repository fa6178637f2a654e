/** src/persist/del.rs: remove a file, then fsync its parent directory best effort. */
module PersistDel {
  import opened Wrappers
  import opened Paths
  import opened Os
  import opened Persist

  /**
   * What delete does. When the removal fails nothing changes and the removal's
   * error is returned, whatever the directory would have answered. Once the
   * file is removed only that path has gone; the result is then the outcome of
   * fsync_parent_dir, so an unopenable parent is an error although the file is
   * gone, while a failed directory sync is not.
   */
  function DeleteSpec(fs: Fs, path: Path, faults: Faults): (out: Step<()>)
    ensures out.fs.dirs == fs.dirs
    ensures (path != Empty && path in fs.files && path !in fs.dirs && Call.RemoveFile(path) !in faults)
            ==> out.fs.files == fs.files - {path} && out.result == FsyncParentDir(out.fs, path, faults)
    ensures !(path != Empty && path in fs.files && path !in fs.dirs && Call.RemoveFile(path) !in faults)
            ==> out.fs == fs && FailedAt(out.result, Call.RemoveFile(path))
    ensures !Exists(fs, path) && Call.RemoveFile(path) !in faults
            ==> out == Step(Err(Io(NotFound, Call.RemoveFile(path))), fs)
  {
    var removed := RemoveFileStep(fs, path, faults);
    if removed.result.Err? then removed
    else Step(FsyncParentDir(removed.fs, path, faults), removed.fs)
  }

  method Delete(fs: FileSystem, path: Path, faults: Faults) returns (r: Result<()>)
    modifies fs
    ensures Step(r, fs.State()) == DeleteSpec(old(fs.State()), path, faults)
  {
    r := fs.RemoveFile(path, faults);
    if r.Err? {
      return;
    }
    r := FsyncParentDir(fs.State(), path, faults);
  }
}
