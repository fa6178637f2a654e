/**
 * src/persist/mod.rs: the temporary sibling file used for atomic writes and the
 * best-effort fsync of a parent directory.
 *
 * src/persist/write.rs carries a private copy of create_temp_file that is the
 * same text as the one in mod.rs; both are modelled by CreateTempFile here.
 */
module Persist {
  import opened Wrappers
  import opened Paths
  import opened Os

  /** Length of the random part of a temporary file's extension. */
  const RandomNameLen: nat := 16

  /** The characters rand's Alphanumeric distribution draws from. */
  predicate IsAlphanumeric(c: char)
  {
    'A' <= c <= 'Z' || 'a' <= c <= 'z' || '0' <= c <= '9'
  }

  /** A sample of Alphanumeric.sample_string(_, RANDOM_NAME_LEN); which one is drawn is left open. */
  type Suffix = s: string | |s| == RandomNameLen && forall i | 0 <= i < |s| :: IsAlphanumeric(s[i])
    witness "0000000000000000"

  /**
   * The temporary path for `og`: `og.set_extension("tmp." + suffix)`. It stays
   * in the same directory and its file name is the stem of the original name
   * followed by ".tmp." and the suffix. A path without a file name ("/", "..")
   * is left as it is.
   */
  function TempPath(og: Path, suffix: Suffix): (t: Path)
    ensures FileNameOf(og).None? ==> t == og
    ensures FileNameOf(og).Some? ==>
              Parent(t) == Parent(og) &&
              FileNameOf(t) == Some(FileStem(FileNameOf(og).value) + ".tmp." + suffix)
  {
    assert '/' !in "tmp." + suffix by {
      forall j | 0 <= j < |"tmp." + suffix| ensures ("tmp." + suffix)[j] != '/' {
        if j >= 4 { assert ("tmp." + suffix)[j] == suffix[j - 4]; }
      }
    }
    assert FileNameOf(og).Some? ==> FileStem(FileNameOf(og).value) + "." + ("tmp." + suffix)
                                     == FileStem(FileNameOf(og).value) + ".tmp." + suffix;
    SetExtension(og, "tmp." + suffix)
  }

  /**
   * Whenever the original path has a file name, the temporary path is a
   * different path: the new extension contains a dot and an extension never does.
   */
  lemma TempPathIsDistinct(og: Path, suffix: Suffix)
    requires FileNameOf(og).Some?
    ensures TempPath(og, suffix) != og
  {
    var name := FileNameOf(og).value;
    var stem := FileStem(name);
    var temp := stem + ".tmp." + suffix;
    if stem != name && |temp| == |name| {
      assert name[|stem| + 1..][3] == name[|stem| + 4];
      assert temp[|stem| + 4] == '.';
    }
    assert temp != name;
    assert FileNameOf(TempPath(og, suffix)) != FileNameOf(og);
  }

  function CreateTempFileSpec(fs: Fs, og: Path, suffix: Suffix, faults: Faults): (out: Step<Path>)
    ensures var t := TempPath(og, suffix);
            && out.fs.dirs == fs.dirs
            && (out.result.Ok? <==> Call.CreateTruncate(t) !in faults && t != Empty && t !in fs.dirs)
            && (out.result.Ok? ==> out.result.value == t && out.fs.files == fs.files[t := []])
            && (out.result.Err? ==> out.fs == fs && FailedAt(out.result, Call.CreateTruncate(t)))
  {
    var t := TempPath(og, suffix);
    var handle := CreateTruncateStep(fs, t, faults);
    Step(if handle.result.Ok? then Ok(t) else Err(handle.result.error), handle.fs)
  }

  /** create_temp_file: open the temporary path truncating it, creating it when it is absent. */
  method CreateTempFile(fs: FileSystem, og: Path, suffix: Suffix, faults: Faults) returns (r: Result<Path>)
    modifies fs
    ensures Step(r, fs.State()) == CreateTempFileSpec(old(fs.State()), og, suffix, faults)
  {
    var t := TempPath(og, suffix);
    var handle := fs.CreateTruncate(t, faults);
    if handle.Err? {
      return Err(handle.error);
    }
    return Ok(t);
  }

  /**
   * fsync_parent_dir: an error when the path has no parent or the parent cannot
   * be opened; Ok once it is open, whether or not the directory sync succeeds.
   * It changes nothing (it reads a filesystem value and returns).
   */
  function FsyncParentDir(fs: Fs, path: Path, faults: Faults): (r: Result<()>)
    ensures Parent(path).None? ==> r == Err(NoParent(path))
    ensures Parent(path).Some? ==>
              var dir := Parent(path).value;
              && (r.Ok? <==> Call.Open(dir) !in faults && Exists(fs, dir))
              && (r.Err? ==> FailedAt(r, Call.Open(dir)))
  {
    match Parent(path)
    case None => Err(NoParent(path))
    case Some(dir) =>
      var handle := OpenStep(fs, dir, faults);
      if handle.Err? then Err(handle.error)
      else
        match SyncAllStep(fs, dir, faults)
        case Ok(_) => Ok(())
        case Err(_) => Ok(())   // logged as a warning: directory fsync unsupported
  }
}
