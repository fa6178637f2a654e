# mydb: a verified model of the storage core

mydb is a small key-value store. Each key is a file in a data directory.
`set` replaces the file atomically: it writes a temporary sibling,
fsyncs it, renames it over the target, and then fsyncs the directory as
best it can. `get` reads the file, and a missing file means an absent
key. `delete` removes the file and then fsyncs the directory as best it
can. Beside the store sits an append-only write-ahead log (WOL). It has
one file per engine, named by the start time in seconds. Each record in
it is a 64-character SHA-256 hex digest, one length byte, a BSON payload
and a line feed.

This project models that core in Dafny over an abstract filesystem:

- The filesystem holds regular files (path to bytes) and directories.
- A failure oracle (`Os.Faults`) decides which system calls fail, and
  with which `std::io::ErrorKind`.
- Calls the oracle lets through still fail for structural reasons: a
  missing path, a directory where a file is needed, or an existing path
  for `create_new`/`create_dir`.

The system calls that change state are methods of the class
`Os.FileSystem`. The store's operations (`BWrite1`, `BWrite2`,
`CreateTempFile`, `PersistDel.Delete`, `WolEngine.New` and `WriteEvent`,
`CommandController.Set` and `Delete`) are module or datatype methods that
take a `FileSystem` and change it through those calls. Each such method
is proved equal to a pure specification function. For example, `Step(r, fs.State()) ==
BWrite2Spec(old(fs.State()), ...)`. The properties the source promises
are stated in the `ensures` clauses of those functions, and as lemmas
where they relate several operations.

Modules, most basic first:

- `Wrappers`: `Option`.
- `Paths`: `std::path` as component lists: `parent`, `file_name`,
  `file_stem`, `set_extension` and `join`.
- `Os`: the filesystem, the oracle and one step function per system call.
- `Persist`: `src/persist/mod.rs` (the temporary path, `create_temp_file`
  and `fsync_parent_dir`).
- `PersistWrite`, `PersistRead` and `PersistDel`: `bwrite1`/`bwrite2`,
  `read` and `delete`.
- `Wol`: `src/wol.rs`.
- `Commands`: `src/commands.rs`.

Nondeterminism and external code become parameters or oracle answers:

- The random 16-character suffix is an arbitrary `Persist.Suffix`.
- The clock reading is an `int` argument. A negative value stands for a
  clock before the epoch.
- SHA-256 and BSON are the uninterpreted functions of a `Wol.Codec`. The
  only thing known about them is the digest's shape: 64 lower-case hex
  bytes.

## Model

| member | source | states |
|---|---|---|
| Paths.Parent | src/persist/write.rs:65 | `parent` is None exactly for a path with no components; otherwise it is the path with the same root and every component but the last |
| Paths.FileNameOf | src/persist/write.rs:14 | the file name is None exactly when there is no component or the last one is not a normal component; otherwise it is that last component |
| Paths.FileStem | src/persist/write.rs:14 | the stem is non-empty and separator-free; it is either the whole name, or the name is the stem followed by a dot and a dot-free extension; whenever a dot follows the first character, the stem is not the whole name |
| Paths.SetExtension | src/persist/write.rs:14 | a path without a file name is left as it is; otherwise the parent is kept and the file name becomes the stem, a dot and the new extension |
| Paths.Join | src/commands.rs:21 | joining an absolute string gives an absolute path; joining a relative one onto a non-empty directory keeps the directory's root and components as a prefix |
| Paths.JoinName | src/commands.rs:21 | joining a single file name onto a directory appends exactly that one component |
| Os.Exists | src/wol.rs:31 | the empty path never exists; any other path with a file or directory entry does |
| Os.OpenStep | src/persist/read.rs:5-6 | File::open succeeds exactly when the call is not faulted and something exists at the path; a missing path fails with NotFound; every error is the open's |
| Os.ReadToEndStep | src/persist/read.rs:8-10 | read_to_end succeeds exactly when the call is not faulted and the path is a regular file; then it gives the file's whole contents; every error is the read's |
| Os.SyncAllStep | src/persist/mod.rs:40-46 | sync_all changes nothing and fails exactly when the oracle faults it, with the oracle's error kind |
| Os.FileSystem.CreateTruncate | src/persist/write.rs:16-28 | opening with truncate+create: fails on an oracle fault, the empty path or a directory; otherwise the path holds the empty sequence and nothing else changes |
| Os.FileSystem.WriteAll | src/persist/write.rs:39-44 | write_all appends the data (on a fault, only the prefix the oracle lets through) to the open file; only that file changes |
| Os.FileSystem.Rename | src/persist/write.rs:49-54 | rename moves the source's bytes to the target and removes the source; fails on a fault, a missing source or a directory target |
| Os.FileSystem.RemoveFile | src/persist/del.rs:6-8 | remove_file deletes exactly that file; a missing path fails with NotFound, a directory with IsADirectory |
| Os.FileSystem.CreateDir | src/wol.rs:32 | create_dir adds the directory, or fails with AlreadyExists when the path exists |
| Os.FileSystem.CreateNew | src/wol.rs:37-40 | create_new creates an empty file, or fails with AlreadyExists when the path exists |
| Persist.TempPath | src/persist/write.rs:9-14 | the temporary path keeps the original's parent directory, and its file name is the original's stem + ".tmp." + the 16 alphanumeric characters |
| Persist.TempPathIsDistinct | src/persist/mod.rs:13-15 | whenever the original path has a file name, its temporary path is a different path |
| Persist.CreateTempFileSpec | src/persist/mod.rs:12-32 | it succeeds exactly when the truncating create is not faulted and the temp path can hold a file; then it returns the temp path and that path holds the empty sequence, and no other file or directory changes; on failure nothing changes and the error is the create's |
| Persist.CreateTempFile | src/persist/write.rs:11-31 | the method changes the filesystem exactly as CreateTempFileSpec says and returns its result |
| Persist.FsyncParentDir | src/persist/mod.rs:34-47 | no parent gives the NoParent error; with a parent, Ok exactly when the parent opens, whatever the directory sync answers; every other outcome is the open's error; the filesystem is a value it only reads |
| PersistWrite.BWrite1Spec | src/persist/write.rs:36-58 | Ok exactly when none of create, write, fsync and rename fails and both paths can hold a file; on success the target holds exactly the data and the temp path is gone; a failed write or fsync leaves a prefix of the data in the temp file and the target unchanged; a failed rename leaves the whole data in the temp file and the target unchanged; a failed create changes nothing; no directory and no path other than the target and the temp path changes |
| PersistWrite.FillAndMove | src/persist/write.rs:39-54 | once the temp file exists and is empty: Ok exactly when write, fsync and rename succeed and the target can hold a file; then the target holds the data and the temp path is gone; a failed write or fsync leaves a prefix in the temp file, a failed rename the whole data, and the target unchanged; nothing but the two paths changes |
| PersistWrite.BWrite1 | src/persist/write.rs:36-58 | the method's new state and result are exactly BWrite1Spec's |
| PersistWrite.BWrite2Spec | src/persist/write.rs:63-95 | no parent gives NoParent and no change; a parent that cannot be opened gives the open's error, before any temp file exists; otherwise the outcome is bwrite1's; on success the target holds the data and the temp path is gone |
| PersistWrite.BWrite2 | src/persist/write.rs:63-95 | the method's new state and result are exactly BWrite2Spec's |
| PersistWrite.BWrite1OnlyAsks | src/persist/write.rs:36-58 | bwrite1's outcome depends on the oracle only through its four calls on the temp path |
| PersistWrite.BWrite2IgnoresDirSync | src/persist/write.rs:90-94 | whether the parent directory's fsync fails, and how, never changes bwrite2's result or effect |
| PersistWrite.BWrite2LeavesOthers | src/persist/write.rs:63-95 | bwrite2 changes no directory, and no path other than the target and its temp path |
| PersistRead.ReadSpec | src/persist/read.rs:4-13 | Ok exactly when the path is an existing regular file and neither the open nor the read fails; then it returns the whole contents; every error comes from the open or the read; a missing path fails at the open with NotFound |
| PersistRead.Read | src/persist/read.rs:4-13 | the method returns ReadSpec's result and changes nothing |
| PersistRead.ReadSeesOnlyItsPath | src/persist/read.rs:5-10 | two filesystems that agree on the path read the same result from it |
| PersistDel.DeleteSpec | src/persist/del.rs:5-11 | when the removal succeeds exactly that path is gone and the result is fsync_parent_dir's (an unopenable parent is an error although the file is gone; a failed directory sync is not); when it fails nothing changes and the error is the removal's; a missing path fails with NotFound before any directory fsync |
| PersistDel.Delete | src/persist/del.rs:5-11 | the method's new state and result are exactly DeleteSpec's |
| Wol.Decimal | src/wol.rs:37-39 | the formatted time is a non-empty string of decimal digits |
| Wol.DecimalRoundTrip | src/wol.rs:37-39 | the digits denote the number formatted, so distinct start times give distinct log names |
| Wol.LogName | src/wol.rs:37-39 | the log name is a file name made of digits whose value is the start time in seconds |
| Wol.Record | src/wol.rs:12-15 | a record is 66 bytes longer than its payload: the digest at 0..64, the payload length mod 256 (so the u8 cast wraps) at 64, the payload at 65..len-1, a line feed last |
| Wol.NewSpec | src/wol.rs:30-46 | it succeeds exactly when the directory exists or is non-empty and its create_dir is not faulted, the clock is at or after the epoch, and the log's create_new is not faulted and finds the name free; the directory is created only when it is absent, every existing directory stays, and no other directory is added; on success the clock is at or after the epoch, the log is directory/seconds, it did not exist before, it is now the only new file and is empty, and the directory exists; on failure no file changes; an existing log of the same name fails with AlreadyExists |
| Wol.WolEngine.New | src/wol.rs:30-46 | the method's new state and result are exactly NewSpec's |
| Wol.WriteEventSpec | src/wol.rs:66-87 | the log only grows and nothing else changes; a failed serialisation fails with no change; Ok exactly when serialisation and the write succeed, whatever the fsync answers; on success exactly the record of the payload is appended; a failed write appends at most a prefix of it |
| Wol.WolEngine.WriteEvent | src/wol.rs:66-87 | the method's new state and result are exactly WriteEventSpec's |
| Wol.WolEngine.ParseEntry | src/wol.rs:52-64 | for a buffer of at least 65 bytes, the payload is buf[64..len-1], which is len-65 bytes; the result is Corrupted exactly when the payload's digest differs from buf[0..64] and buf[63] equals the payload length mod 256; otherwise it is the decode of that payload |
| Wol.ParseEntryMisreadsRecord | src/wol.rs:55-63 | on a record that write_event made, the decoder is handed the length byte followed by the payload, never the payload; corruption is reported only when the last digest character happens to equal the payload length + 1 |
| Wol.ParseEntryMissesTampering | src/wol.rs:59 | when the payload length + 1 is not a hex digit byte, changing any byte of a record except byte 63 is never reported as corruption |
| Wol.ParseEntryIntended | src/wol.rs:52-64 | with the length byte at 64 and the payload at 65..len-1: a digest or length mismatch is Corrupted; a buffer not reported corrupted carries its payload's digest and length and decodes that payload |
| Wol.ParseEntryIntendedRoundTrip | src/wol.rs:52-64 | with the length byte at 64 and the payload from 65, a fresh record parses to the decode of its payload |
| Wol.ParseEntryIntendedDetectsHeader | src/wol.rs:59 | with `\|\|`, changing any digest byte or the length byte of a record is always reported as corruption |
| Commands.CommandController.New | src/commands.rs:13-18 | the controller keeps the given directory |
| Commands.CommandController.KeyPath | src/commands.rs:21 | directory.join of a plain key is the directory with that one component appended, so its parent is the directory and its file name the key |
| Commands.CommandController.GetSpec | src/commands.rs:25-42 | a successful read gives Some of the file's contents; a NotFound read error, and so any missing file whose open is not faulted, gives Ok(None); any other read error is returned as it is |
| Commands.CommandController.Get | src/commands.rs:25-42 | the method returns GetSpec's result and changes nothing |
| Commands.CommandController.Set | src/commands.rs:20-23 | the method's new state and result are exactly bwrite2's on directory/key |
| Commands.CommandController.Delete | src/commands.rs:44-47 | the method's new state and result are exactly delete's on directory/key |
| Commands.SetThenGet | src/commands.rs:20-29 | after a successful set, a get whose calls are not faulted returns Some of exactly the value set |
| Commands.DeleteThenGet | src/commands.rs:44-46 | after a successful delete, a get whose open is not faulted returns Ok(None) |
| Commands.DeleteTwice | src/persist/del.rs:6-8 | a second delete of the same key fails and changes nothing, with NotFound unless the oracle fails the call first |
| Commands.SetLeavesOtherKeys | src/commands.rs:20-23 | set on a plain key leaves get of every other plain key unchanged, except the one key whose name is the temp name this set used |
| Commands.OtherKeyAvoidsSet | src/commands.rs:21 | directory.join of two distinct plain keys gives distinct paths, and another plain key's path is not set's temp path unless that key carries the temp name |
| Commands.SetClobbersTempNamedKey | src/persist/write.rs:14 | a successful set removes the key that happens to carry the temporary name it used |
| PersistWrite.BWrite2ExclusiveSpec | src/persist/write.rs:63-95 | bwrite2 with create_new for the temporary file: an existing file at the temporary name makes it fail; a success leaves the target holding the data and every other path, the temporary one included, as it was |
| Commands.ExclusiveSetLeavesOtherKeys | src/persist/write.rs:14-22 | with the temporary file opened by create_new, a successful set leaves every other plain key's value unchanged, with no exception |
| Commands.DeleteLeavesOtherKeys | src/commands.rs:44-46 | delete on a plain key leaves get of every other plain key unchanged |

## Left out

- `src/main.rs` (the REPL, the command-line parsing, the logger set-up and
  the `Arc` sharing) and `src/config.rs` (YAML configuration and
  permission checks) are not part of this model. They are interface and
  configuration plumbing.
- SHA-256 and BSON are uninterpreted. Nothing is assumed about them
  beyond the digest's shape; in particular, decoding is not assumed to
  invert encoding.
- The random suffix and the system clock are inputs. Any 16-character
  alphanumeric suffix and any integer time are allowed.
- fsync is a call that may fail and otherwise changes nothing. Power-loss
  durability, crash states between steps, and whether concurrent readers
  see rename atomically are not modelled. Neither is concurrency.
- Whether a parent directory exists is not checked when a file or
  directory is created or a file renamed. Such failures are covered by the oracle, through
  any call's fault.
- Renaming onto an existing directory is modelled only as an
  IsADirectory error. Renaming directories is not modelled, and neither
  are symbolic links or the operating system's resolution of `..`.
  Two paths are the same file exactly when their component lists are
  equal.
- Windows path prefixes and separators are not modelled. Paths are Unix
  component lists.
- Error messages and anyhow context strings are not modelled. An error
  is kept as the call that failed together with its `ErrorKind`. `get`
  sees through the added context to the `std::io::Error` underneath.
- Log output (`debug!`, `warn!`) is not modelled.
- WOL recovery and replay are not modelled, because the code has none.
  There is only a comment in `WOLEngine::new` and a commented-out
  `read_events`.
- `CommandController` holds no WOL engine and never logs. The model
  follows the code, so no ordering between logging and the data write is
  claimed.
- The controller's `write_fn` field is not modelled as a function value.
  `new` only ever stores bwrite2, so `Set` calls `BWrite2` directly.
- Wol.WolEngine.ParseEntry: requires a buffer of at least 65 bytes. On a
  shorter buffer the source panics, because the slices at `src/wol.rs:53`
  and `src/wol.rs:57` go out of range. That panic is not modelled.
- A `write_event` / `_parse_entry` round trip is not claimed, because it
  does not hold as written (see Findings).
- The WOL engine keeps its log handle as the path the handle was opened
  at. Had the log file been unlinked, writes through the handle would
  land on no path.

## Findings

| source | as written | input that shows it | evidently intended | confidence | as-written member | corrected member |
|---|---|---|---|---|---|---|
| src/wol.rs:55-57 | the declared length is read at index 63 (the last digest byte) and the payload slice starts at 64 (the length byte) | any record `write_event` produced, for example an empty payload: the decoder receives `[0]` instead of `[]` | length byte at index 64, payload at 65..len-1, so an entry parses back to its payload | not executed | Wol.ParseEntryMisreadsRecord | Wol.ParseEntryIntendedRoundTrip |
| src/persist/write.rs:14-22 | the temporary file is opened with create and truncate, so a file that already carries the temporary name is truncated and then renamed away | set of key `a` with suffix `0000000000000000` while key `a.tmp.0000000000000000` holds a value: after a successful set, get of that key returns None | set changes no other key's file; the truncation itself is deliberate (the comment at src/persist/write.rs:17), so the clash comes from temporary names sharing the key namespace; opening the temporary file with create_new, as the corrected member does, is one fix: set then fails instead | not executed | Commands.SetClobbersTempNamedKey | Commands.ExclusiveSetLeavesOtherKeys |
| src/wol.rs:59 | corruption needs the digest to differ AND the length to match | an empty-payload record with any digest byte 0..62 changed: the length test compares a hex digit with 1 (the length of the one-byte slice) and fails, so no corruption is reported | corruption when the digest differs OR the length differs | not executed | Wol.ParseEntryMissesTampering | Wol.ParseEntryIntendedDetectsHeader |
