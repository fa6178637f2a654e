/**
 * The operating system as the store sees it: regular files (path to bytes),
 * directories, and an oracle that decides which system calls fail.
 *
 * Every call first consults the oracle: a call listed in `faults` fails with
 * the error kind the oracle names (a failing write_all first lets `written`
 * bytes through). Otherwise the call fails only for the structural reasons
 * modelled here (a missing path, a directory where a file is needed, an
 * existing path for create_new) and then has its effect.
 */
module Os {
  import opened Wrappers
  import opened Paths

  type byte = b: int | 0 <= b < 256

  /** The std::io::ErrorKind values the store distinguishes. */
  datatype ErrorKind = NotFound | AlreadyExists | IsADirectory | Other

  /** A system call, named by what it acts on. A handle is named by the path it was opened at. */
  datatype Call =
    | Open(path: Path)             // File::open (read only)
    | ReadToEnd(path: Path)        // Read::read_to_end on a handle
    | CreateTruncate(path: Path)   // OpenOptions: read, write, create, truncate
    | WriteAll(path: Path)         // Write::write_all on a handle
    | SyncAll(path: Path)          // File::sync_all on a handle (file or directory)
    | Rename(source: Path, target: Path)
    | RemoveFile(path: Path)
    | CreateDir(path: Path)
    | CreateNew(path: Path)        // File::create_new

  datatype Fault = Fault(kind: ErrorKind, written: nat)

  /** The failure oracle: which calls fail, and how. */
  type Faults = map<Call, Fault>

  /** The errors the core reports (messages and anyhow context are not modelled). */
  datatype Error =
    | Io(kind: ErrorKind, call: Call)   // a std::io::Error from that call
    | NoParent(path: Path)              // "Failed to get parent directory of …"
    | ClockBeforeEpoch                  // SystemTime::duration_since(UNIX_EPOCH) failed
    | EncodeFailed                      // bson::to_vec failed
    | DecodeFailed                      // bson::from_reader failed
    | Corrupted                         // "Entry is corrupted"

  datatype Result<T> = Ok(value: T) | Err(error: Error)

  datatype Fs = Fs(files: map<Path, seq<byte>>, dirs: set<Path>)

  /** The outcome of a call that may change the filesystem. */
  datatype Step<T> = Step(result: Result<T>, fs: Fs)

  /** Path::exists. */
  predicate Exists(fs: Fs, p: Path)
    ensures Exists(fs, p) ==> p != Empty
    ensures p != Empty && (p in fs.files || p in fs.dirs) ==> Exists(fs, p)
  {
    p != Empty && (p in fs.files || p in fs.dirs)
  }

  /** `q` is the same (absent, or present with the same bytes) in both states. */
  predicate Unchanged(before: Fs, after: Fs, q: Path)
  {
    (q in before.files <==> q in after.files) && (q in before.files ==> before.files[q] == after.files[q])
  }

  /** No path other than `a` and `b` differs between the two states. */
  ghost predicate UnchangedOutside(before: Fs, after: Fs, a: Path, b: Path)
  {
    forall q | q != a && q != b :: Unchanged(before, after, q)
  }

  predicate FailedAt<T>(r: Result<T>, c: Call)
  {
    r.Err? && r.error.Io? && r.error.call == c
  }

  function Failure(c: Call, faults: Faults): Error
    requires c in faults
  {
    Io(faults[c].kind, c)
  }

  /** File::open: fails on a fault, and otherwise exactly when nothing exists at `p`, with NotFound. */
  function OpenStep(fs: Fs, p: Path, faults: Faults): (r: Result<()>)
    ensures r.Ok? <==> Call.Open(p) !in faults && Exists(fs, p)
    ensures r.Err? ==> FailedAt(r, Call.Open(p))
    ensures Call.Open(p) !in faults && !Exists(fs, p) ==> r == Err(Io(NotFound, Call.Open(p)))
  {
    var c := Call.Open(p);
    if c in faults then Err(Failure(c, faults))
    else if Exists(fs, p) then Ok(())
    else Err(Io(NotFound, c))
  }

  /** Reading a handle opened at `p`; a directory opens but cannot be read. */
  function ReadToEndStep(fs: Fs, p: Path, faults: Faults): (r: Result<seq<byte>>)
    ensures r.Ok? <==> Call.ReadToEnd(p) !in faults && p != Empty && p in fs.files && p !in fs.dirs
    ensures r.Ok? ==> r.value == fs.files[p]
    ensures r.Err? ==> FailedAt(r, Call.ReadToEnd(p))
  {
    var c := Call.ReadToEnd(p);
    if c in faults then Err(Failure(c, faults))
    else if p in fs.dirs then Err(Io(IsADirectory, c))
    else if p != Empty && p in fs.files then Ok(fs.files[p])
    else Err(Io(NotFound, c))
  }

  /** File::sync_all: changes nothing, and fails only when the oracle says so. */
  function SyncAllStep(fs: Fs, p: Path, faults: Faults): (r: Result<()>)
    ensures r.Ok? <==> Call.SyncAll(p) !in faults
    ensures r.Err? ==> r == Err(Io(faults[Call.SyncAll(p)].kind, Call.SyncAll(p)))
  {
    var c := Call.SyncAll(p);
    if c in faults then Err(Failure(c, faults)) else Ok(())
  }

  function CreateTruncateStep(fs: Fs, p: Path, faults: Faults): Step<()>
  {
    var c := Call.CreateTruncate(p);
    if c in faults then Step(Err(Failure(c, faults)), fs)
    else if p == Empty then Step(Err(Io(NotFound, c)), fs)
    else if p in fs.dirs then Step(Err(Io(IsADirectory, c)), fs)
    else Step(Ok(()), fs.(files := fs.files[p := []]))
  }

  /**
   * write_all of `data` through a handle opened at `p`, whose position is the
   * end of the file. If the file has since been unlinked the bytes reach no path.
   */
  function WriteAllStep(fs: Fs, p: Path, data: seq<byte>, faults: Faults): Step<()>
  {
    var c := Call.WriteAll(p);
    var landed := if c in faults then data[..if faults[c].written < |data| then faults[c].written else |data|] else data;
    var fs' := if p in fs.files then fs.(files := fs.files[p := fs.files[p] + landed]) else fs;
    Step(if c in faults then Err(Failure(c, faults)) else Ok(()), fs')
  }

  /** rename(2) of a regular file; renaming a file onto itself changes nothing. */
  function RenameStep(fs: Fs, source: Path, target: Path, faults: Faults): Step<()>
  {
    var c := Call.Rename(source, target);
    if c in faults then Step(Err(Failure(c, faults)), fs)
    else if source == Empty || source !in fs.files || target == Empty then Step(Err(Io(NotFound, c)), fs)
    else if target in fs.dirs then Step(Err(Io(IsADirectory, c)), fs)
    else if source == target then Step(Ok(()), fs)
    else Step(Ok(()), fs.(files := fs.files[target := fs.files[source]] - {source}))
  }

  function RemoveFileStep(fs: Fs, p: Path, faults: Faults): Step<()>
  {
    var c := Call.RemoveFile(p);
    if c in faults then Step(Err(Failure(c, faults)), fs)
    else if !Exists(fs, p) then Step(Err(Io(NotFound, c)), fs)
    else if p in fs.dirs then Step(Err(Io(IsADirectory, c)), fs)
    else Step(Ok(()), fs.(files := fs.files - {p}))
  }

  function CreateDirStep(fs: Fs, p: Path, faults: Faults): Step<()>
  {
    var c := Call.CreateDir(p);
    if c in faults then Step(Err(Failure(c, faults)), fs)
    else if p == Empty then Step(Err(Io(NotFound, c)), fs)
    else if Exists(fs, p) then Step(Err(Io(AlreadyExists, c)), fs)
    else Step(Ok(()), fs.(dirs := fs.dirs + {p}))
  }

  function CreateNewStep(fs: Fs, p: Path, faults: Faults): Step<()>
  {
    var c := Call.CreateNew(p);
    if c in faults then Step(Err(Failure(c, faults)), fs)
    else if p == Empty then Step(Err(Io(NotFound, c)), fs)
    else if Exists(fs, p) then Step(Err(Io(AlreadyExists, c)), fs)
    else Step(Ok(()), fs.(files := fs.files[p := []]))
  }

  /** The machine's filesystem, changed in place by the calls that change it. */
  class FileSystem {
    var files: map<Path, seq<byte>>
    var dirs: set<Path>

    function State(): Fs
      reads this
    {
      Fs(files, dirs)
    }

    method CreateTruncate(p: Path, faults: Faults) returns (r: Result<()>)
      modifies this
      ensures Step(r, State()) == CreateTruncateStep(old(State()), p, faults)
    {
      var c := Call.CreateTruncate(p);
      if c in faults {
        r := Err(Failure(c, faults));
      } else if p == Empty {
        r := Err(Io(NotFound, c));
      } else if p in dirs {
        r := Err(Io(IsADirectory, c));
      } else {
        files := files[p := []];
        r := Ok(());
      }
    }

    method WriteAll(p: Path, data: seq<byte>, faults: Faults) returns (r: Result<()>)
      modifies this
      ensures Step(r, State()) == WriteAllStep(old(State()), p, data, faults)
    {
      var c := Call.WriteAll(p);
      var landed := data;
      r := Ok(());
      if c in faults {
        var n := if faults[c].written < |data| then faults[c].written else |data|;
        landed := data[..n];
        r := Err(Failure(c, faults));
      }
      if p in files {
        files := files[p := files[p] + landed];
      }
    }

    method Rename(source: Path, target: Path, faults: Faults) returns (r: Result<()>)
      modifies this
      ensures Step(r, State()) == RenameStep(old(State()), source, target, faults)
    {
      var c := Call.Rename(source, target);
      if c in faults {
        r := Err(Failure(c, faults));
      } else if source == Empty || source !in files || target == Empty {
        r := Err(Io(NotFound, c));
      } else if target in dirs {
        r := Err(Io(IsADirectory, c));
      } else {
        if source != target {
          files := files[target := files[source]] - {source};
        }
        r := Ok(());
      }
    }

    method RemoveFile(p: Path, faults: Faults) returns (r: Result<()>)
      modifies this
      ensures Step(r, State()) == RemoveFileStep(old(State()), p, faults)
    {
      var c := Call.RemoveFile(p);
      if c in faults {
        r := Err(Failure(c, faults));
      } else if p == Empty || (p !in files && p !in dirs) {
        r := Err(Io(NotFound, c));
      } else if p in dirs {
        r := Err(Io(IsADirectory, c));
      } else {
        files := files - {p};
        r := Ok(());
      }
    }

    method CreateDir(p: Path, faults: Faults) returns (r: Result<()>)
      modifies this
      ensures Step(r, State()) == CreateDirStep(old(State()), p, faults)
    {
      var c := Call.CreateDir(p);
      if c in faults {
        r := Err(Failure(c, faults));
      } else if p == Empty {
        r := Err(Io(NotFound, c));
      } else if p in files || p in dirs {
        r := Err(Io(AlreadyExists, c));
      } else {
        dirs := dirs + {p};
        r := Ok(());
      }
    }

    method CreateNew(p: Path, faults: Faults) returns (r: Result<()>)
      modifies this
      ensures Step(r, State()) == CreateNewStep(old(State()), p, faults)
    {
      var c := Call.CreateNew(p);
      if c in faults {
        r := Err(Failure(c, faults));
      } else if p == Empty {
        r := Err(Io(NotFound, c));
      } else if p in files || p in dirs {
        r := Err(Io(AlreadyExists, c));
      } else {
        files := files[p := []];
        r := Ok(());
      }
    }
  }
}
