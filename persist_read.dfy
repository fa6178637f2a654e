/** src/persist/read.rs: read a whole file into memory. */
module PersistRead {
  import opened Paths
  import opened Os

  /**
   * What read returns: the file's full contents when it exists and neither the
   * open nor the read fails, and otherwise the error of the call that failed;
   * never a partial buffer. A missing path fails at the open with NotFound.
   */
  function ReadSpec(fs: Fs, path: Path, faults: Faults): (r: Result<seq<byte>>)
    ensures r.Ok? <==> (path != Empty && path in fs.files && path !in fs.dirs
                        && Call.Open(path) !in faults && Call.ReadToEnd(path) !in faults)
    ensures r.Ok? ==> r.value == fs.files[path]
    ensures r.Err? ==> FailedAt(r, Call.Open(path)) || FailedAt(r, Call.ReadToEnd(path))
    ensures !Exists(fs, path) && Call.Open(path) !in faults ==> r == Err(Io(NotFound, Call.Open(path)))
  {
    var handle := OpenStep(fs, path, faults);
    if handle.Err? then Err(handle.error)
    else ReadToEndStep(fs, path, faults)
  }

  /** read: open the file, then fill an initially empty buffer up to end of file. */
  method Read(fs: FileSystem, path: Path, faults: Faults) returns (r: Result<seq<byte>>)
    ensures r == ReadSpec(fs.State(), path, faults)
  {
    var handle := OpenStep(fs.State(), path, faults);
    if handle.Err? {
      return Err(handle.error);
    }
    var data: seq<byte> := [];
    var filled := ReadToEndStep(fs.State(), path, faults);
    if filled.Err? {
      return Err(filled.error);
    }
    data := data + filled.value;
    assert data == filled.value;
    return Ok(data);
  }

  /** read sees only its own path: two states that agree there read the same. */
  lemma ReadSeesOnlyItsPath(fs1: Fs, fs2: Fs, path: Path, faults: Faults)
    requires Unchanged(fs1, fs2, path) && (path in fs1.dirs <==> path in fs2.dirs)
    ensures ReadSpec(fs1, path, faults) == ReadSpec(fs2, path, faults)
  {
  }
}
