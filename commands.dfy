/**
 * src/commands.rs: the key-value controller. A key names the file
 * `directory.join(key)`; set writes it with bwrite2, get reads it (a missing
 * file is an absent key), delete removes it. The controller holds no log
 * engine and never writes to the log.
 */
module Commands {
  import opened Wrappers
  import opened Paths
  import opened Os
  import opened Persist
  import PersistWrite
  import PersistRead
  import PersistDel

  /** A key that is a single file name, so that it names exactly one entry of the directory. */
  predicate PlainKey(key: string)
  {
    key != "" && '/' !in key && key != "." && key != ".."
  }

  /** A read error that get turns into an absent key. */
  predicate IsNotFound(e: Error)
  {
    e.Io? && e.kind == NotFound
  }

  /**
   * The controller: its data directory. Its write strategy is always bwrite2
   * (the only value `new` ever stores), so set calls BWrite2 directly.
   */
  datatype CommandController = CommandController(directory: Path)
  {
    static function New(directory: Path): (c: CommandController)
      ensures c.directory == directory
    {
      CommandController(directory)
    }

    /** directory.join(key): a plain key is one more component of the directory. */
    function KeyPath(key: string): (path: Path)
      ensures PlainKey(key) ==> path == Path(directory.absolute, directory.parts + [Name(key)])
      ensures PlainKey(key) ==> Parent(path) == Some(directory) && FileNameOf(path) == Some(key)
    {
      if PlainKey(key) then
        JoinName(directory, key);
        Join(directory, key)
      else Join(directory, key)
    }

    function SetSpec(fs: Fs, key: string, value: seq<byte>, suffix: Suffix, faults: Faults): Step<()>
    {
      PersistWrite.BWrite2Spec(fs, KeyPath(key), value, suffix, faults)
    }

    /**
     * What get returns: the file's bytes when the read succeeds, None exactly
     * when the read fails with NotFound (for a missing file whose open is not
     * faulted, always), and any other read error as it is.
     */
    function GetSpec(fs: Fs, key: string, faults: Faults): (r: Result<Option<seq<byte>>>)
      ensures var path := KeyPath(key);
              var read := PersistRead.ReadSpec(fs, path, faults);
              && (r == Ok(None) <==> read.Err? && IsNotFound(read.error))
              && (r.Ok? && r.value.Some? <==> read.Ok?)
              && (r.Ok? && r.value.Some? ==> path in fs.files && r.value.value == fs.files[path])
              && (r.Err? ==> r == Err(read.error) && !IsNotFound(r.error))
              && (!Exists(fs, path) && Call.Open(path) !in faults ==> r == Ok(None))
    {
      match PersistRead.ReadSpec(fs, KeyPath(key), faults)
      case Ok(data) => Ok(Some(data))
      case Err(e) => if IsNotFound(e) then Ok(None) else Err(e)
    }

    function DeleteSpec(fs: Fs, key: string, faults: Faults): Step<()>
    {
      PersistDel.DeleteSpec(fs, KeyPath(key), faults)
    }

    method Set(fs: FileSystem, key: string, value: seq<byte>, suffix: Suffix, faults: Faults) returns (r: Result<()>)
      modifies fs
      ensures Step(r, fs.State()) == SetSpec(old(fs.State()), key, value, suffix, faults)
    {
      var path := Join(directory, key);
      r := PersistWrite.BWrite2(fs, path, value, suffix, faults);
    }

    method Get(fs: FileSystem, key: string, faults: Faults) returns (r: Result<Option<seq<byte>>>)
      ensures r == GetSpec(fs.State(), key, faults)
    {
      var path := Join(directory, key);
      var read := PersistRead.Read(fs, path, faults);
      match read
      case Ok(data) =>
        r := Ok(Some(data));
      case Err(e) =>
        if e.Io? && e.kind == NotFound {
          r := Ok(None);
        } else {
          r := Err(e);
        }
    }

    method Delete(fs: FileSystem, key: string, faults: Faults) returns (r: Result<()>)
      modifies fs
      ensures Step(r, fs.State()) == DeleteSpec(old(fs.State()), key, faults)
    {
      var path := Join(directory, key);
      r := PersistDel.Delete(fs, path, faults);
    }
  }

  /** After a successful set, get returns exactly the value written, for any key. */
  lemma SetThenGet(c: CommandController, fs: Fs, key: string, value: seq<byte>, suffix: Suffix,
                   faults: Faults, readFaults: Faults)
    requires c.SetSpec(fs, key, value, suffix, faults).result.Ok?
    requires Call.Open(c.KeyPath(key)) !in readFaults && Call.ReadToEnd(c.KeyPath(key)) !in readFaults
    ensures c.GetSpec(c.SetSpec(fs, key, value, suffix, faults).fs, key, readFaults) == Ok(Some(value))
  {
    var path := c.KeyPath(key);
    var dir := Parent(path).value;
    assert c.SetSpec(fs, key, value, suffix, faults) == PersistWrite.BWrite1Spec(fs, path, value, suffix, faults);
  }

  /** After a successful delete, get reports the key absent. */
  lemma DeleteThenGet(c: CommandController, fs: Fs, key: string, faults: Faults, readFaults: Faults)
    requires c.DeleteSpec(fs, key, faults).result.Ok?
    requires Call.Open(c.KeyPath(key)) !in readFaults
    ensures c.GetSpec(c.DeleteSpec(fs, key, faults).fs, key, readFaults) == Ok(None)
  {
  }

  /** A second delete of the same key fails, with NotFound unless the oracle fails it first, and changes nothing. */
  lemma DeleteTwice(c: CommandController, fs: Fs, key: string, faults: Faults, faults2: Faults)
    requires c.DeleteSpec(fs, key, faults).result.Ok?
    ensures var after := c.DeleteSpec(fs, key, faults).fs;
            var again := c.DeleteSpec(after, key, faults2);
            && again.result.Err? && again.fs == after
            && (Call.RemoveFile(c.KeyPath(key)) !in faults2 ==> again.result == Err(Io(NotFound, Call.RemoveFile(c.KeyPath(key)))))
  {
  }

  /**
   * set on a plain key leaves every other plain key's value as it was, except
   * the one key whose name is the temporary name this set used.
   */
  lemma SetLeavesOtherKeys(c: CommandController, fs: Fs, key: string, other: string, value: seq<byte>,
                           suffix: Suffix, faults: Faults, readFaults: Faults)
    requires PlainKey(key) && PlainKey(other) && key != other
    requires other != FileStem(key) + ".tmp." + suffix
    ensures c.GetSpec(c.SetSpec(fs, key, value, suffix, faults).fs, other, readFaults) == c.GetSpec(fs, other, readFaults)
  {
    var path, otherPath := c.KeyPath(key), c.KeyPath(other);
    OtherKeyAvoidsSet(c, key, other, suffix);
    PersistWrite.BWrite2LeavesOthers(fs, path, value, suffix, faults, otherPath);
    PersistRead.ReadSeesOnlyItsPath(c.SetSpec(fs, key, value, suffix, faults).fs, fs, otherPath, readFaults);
  }

  /** Another plain key, not named like the temporary file, is neither the target of set nor its temporary path. */
  lemma OtherKeyAvoidsSet(c: CommandController, key: string, other: string, suffix: Suffix)
    requires PlainKey(key) && PlainKey(other) && key != other
    requires other != FileStem(key) + ".tmp." + suffix
    ensures c.KeyPath(other) != c.KeyPath(key) && c.KeyPath(other) != TempPath(c.KeyPath(key), suffix)
  {
    var path, otherPath := c.KeyPath(key), c.KeyPath(other);
    JoinName(c.directory, key);
    JoinName(c.directory, other);
    assert FileNameOf(path) == Some(key);
    assert FileNameOf(otherPath) == Some(other);
    assert FileNameOf(TempPath(path, suffix)) == Some(FileStem(key) + ".tmp." + suffix);
  }

  /** A successful set removes the key that happens to carry the temporary name it used. */
  lemma SetClobbersTempNamedKey(c: CommandController, fs: Fs, key: string, value: seq<byte>,
                                suffix: Suffix, faults: Faults, readFaults: Faults)
    requires PlainKey(key)
    requires c.SetSpec(fs, key, value, suffix, faults).result.Ok?
    requires Call.Open(c.KeyPath(FileStem(key) + ".tmp." + suffix)) !in readFaults
    ensures c.GetSpec(c.SetSpec(fs, key, value, suffix, faults).fs, FileStem(key) + ".tmp." + suffix, readFaults) == Ok(None)
  {
    var path := c.KeyPath(key);
    JoinName(c.directory, key);
    assert FileNameOf(path) == Some(key);
    var t := TempPath(path, suffix);
    var name: FileName := FileNameOf(t).value;
    assert name == FileStem(key) + ".tmp." + suffix;
    JoinName(c.directory, name);
    assert c.KeyPath(name) == t;
    TempPathIsDistinct(path, suffix);
    assert c.SetSpec(fs, key, value, suffix, faults) == PersistWrite.BWrite1Spec(fs, path, value, suffix, faults);
  }

  /**
   * With the temporary file opened by create_new, a successful set leaves every
   * other plain key's value as it was, the temporary-named key included.
   */
  lemma ExclusiveSetLeavesOtherKeys(c: CommandController, fs: Fs, key: string, other: string, value: seq<byte>,
                                    suffix: Suffix, faults: Faults, readFaults: Faults)
    requires PlainKey(key) && PlainKey(other) && key != other
    requires PersistWrite.BWrite2ExclusiveSpec(fs, c.KeyPath(key), value, suffix, faults).result.Ok?
    ensures var after := PersistWrite.BWrite2ExclusiveSpec(fs, c.KeyPath(key), value, suffix, faults).fs;
            c.GetSpec(after, other, readFaults) == c.GetSpec(fs, other, readFaults)
  {
    var path, otherPath := c.KeyPath(key), c.KeyPath(other);
    var t := TempPath(path, suffix);
    var after := PersistWrite.BWrite2ExclusiveSpec(fs, path, value, suffix, faults).fs;
    TempPathIsDistinct(path, suffix);
    assert otherPath != path;
    assert Unchanged(fs, after, otherPath);
    PersistRead.ReadSeesOnlyItsPath(after, fs, otherPath, readFaults);
  }

  /** delete on a plain key leaves every other plain key's value as it was. */
  lemma DeleteLeavesOtherKeys(c: CommandController, fs: Fs, key: string, other: string,
                              faults: Faults, readFaults: Faults)
    requires PlainKey(key) && PlainKey(other) && key != other
    ensures c.GetSpec(c.DeleteSpec(fs, key, faults).fs, other, readFaults) == c.GetSpec(fs, other, readFaults)
  {
    assert c.KeyPath(other) != c.KeyPath(key);
    var otherPath := c.KeyPath(other);
    var after := c.DeleteSpec(fs, key, faults).fs;
    assert Unchanged(fs, after, otherPath) && after.dirs == fs.dirs;
    PersistRead.ReadSeesOnlyItsPath(after, fs, otherPath, readFaults);
  }
}
