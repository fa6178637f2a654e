/**
 * src/wol.rs: the write-ahead log. An engine owns one log file, created when
 * the engine starts and named by the Unix time in seconds; each event is
 * appended as one record:
 *   64 hex characters of SHA-256 digest, one length byte, the BSON payload, '\n'.
 * SHA-256 and BSON are not modelled: they are the uninterpreted functions of a
 * Codec, of which only the digest's shape (64 lower-case hex characters) is known.
 */
module Wol {
  import opened Wrappers
  import opened Paths
  import opened Os

  const HashLength: nat := 64
  const MetadataLength: nat := HashLength + 1
  const LineFeed: byte := 10

  /** The bytes of '0'..'9' and 'a'..'f', the characters of sha256::digest's output. */
  predicate IsHexDigit(b: byte)
  {
    48 <= b <= 57 || 97 <= b <= 102
  }

  type HexDigest = s: seq<byte> | |s| == HashLength && forall i | 0 <= i < |s| :: IsHexDigit(s[i])
    witness seq(64, _ => 48)

  datatype WriteEvent = Write(key: string, value: seq<byte>) | Delete(key: string)

  /** sha256::digest(..).as_bytes(), bson::to_vec and bson::from_reader. */
  datatype Codec = Codec(
    digest: seq<byte> -> HexDigest,
    serialize: WriteEvent -> Option<seq<byte>>,
    deserialize: seq<byte> -> Option<WriteEvent>)

  function Decode(codec: Codec, data: seq<byte>): Result<WriteEvent>
  {
    match codec.deserialize(data)
    case None => Err(DecodeFailed)
    case Some(event) => Ok(event)
  }

  function Digit(d: nat): char
    requires d < 10
  {
    ('0' as int + d) as char
  }

  /** format!("{}", n): decimal digits, without leading zeros. */
  function Decimal(n: nat): (s: string)
    ensures |s| > 0 && forall i | 0 <= i < |s| :: '0' <= s[i] <= '9'
  {
    if n < 10 then [Digit(n)] else Decimal(n / 10) + [Digit(n % 10)]
  }

  /** The number a string of decimal digits denotes. */
  function DecimalValue(s: string): nat
    requires forall i | 0 <= i < |s| :: '0' <= s[i] <= '9'
  {
    if s == [] then 0 else DecimalValue(s[..|s| - 1]) * 10 + (s[|s| - 1] as int - '0' as int)
  }

  /** Distinct start times give distinct log file names. */
  lemma {:induction false} DecimalRoundTrip(n: nat)
    ensures DecimalValue(Decimal(n)) == n
  {
    if n >= 10 {
      DecimalRoundTrip(n / 10);
      var s := Decimal(n);
      assert s[..|s| - 1] == Decimal(n / 10);
    }
  }

  /** The log file's name for a start time of `secs` seconds after the epoch. */
  function LogName(secs: nat): (name: FileName)
    ensures forall i | 0 <= i < |name| :: '0' <= name[i] <= '9'
    ensures DecimalValue(name) == secs
  {
    var s := Decimal(secs);
    assert s[0] != '.';
    assert forall i | 0 <= i < |s| :: s[i] != '/';
    DecimalRoundTrip(secs);
    s
  }

  /** One log record: digest, payload length cast to u8, payload, line feed. */
  function Record(digest: HexDigest, data: seq<byte>): (r: seq<byte>)
    ensures |r| == |data| + HashLength + 2
    ensures r[..HashLength] == digest
    ensures r[HashLength] == |data| % 256
    ensures r[MetadataLength..|r| - 1] == data
    ensures r[|r| - 1] == LineFeed
  {
    digest + [|data| % 256] + data + [LineFeed]
  }

  /**
   * What WOLEngine::new does: create `directory` only when it does not exist,
   * then create a new, empty log file named by the start time inside it,
   * failing if that name is already taken. A clock before the epoch fails
   * after the directory has been created.
   */
  function NewSpec(fs: Fs, directory: Path, now: int, faults: Faults): (out: Step<WolEngine>)
    ensures Exists(fs, directory) ==> out.fs.dirs == fs.dirs
    ensures !Exists(fs, directory) ==> fs.dirs <= out.fs.dirs <= fs.dirs + {directory}
    ensures out.result.Ok? ==>
              var log := out.result.value.logFile;
              && now >= 0
              && log == Join(directory, LogName(now))
              && !Exists(fs, log)
              && out.fs.files == fs.files[log := []]
              && Exists(out.fs, directory)
    ensures out.result.Err? ==> out.fs.files == fs.files
    ensures now >= 0 && Exists(fs, directory) && Exists(fs, Join(directory, LogName(now)))
            && Call.CreateNew(Join(directory, LogName(now))) !in faults
            ==> out.result == Err(Io(AlreadyExists, Call.CreateNew(Join(directory, LogName(now)))))
    ensures out.result.Ok? <==>
              && (Exists(fs, directory) || (directory != Empty && Call.CreateDir(directory) !in faults))
              && now >= 0
              && Call.CreateNew(Join(directory, LogName(now))) !in faults
              && !Exists(fs, Join(directory, LogName(now)))
  {
    var made := if Exists(fs, directory) then Step(Ok(()), fs) else CreateDirStep(fs, directory, faults);
    if made.result.Err? then Step(Err(made.result.error), made.fs)
    else if now < 0 then Step(Err(ClockBeforeEpoch), made.fs)
    else
      var log := Join(directory, LogName(now));
      JoinName(directory, LogName(now));
      assert log != directory by { assert |log.parts| != |directory.parts|; }
      var created := CreateNewStep(made.fs, log, faults);
      if created.result.Err? then Step(Err(created.result.error), created.fs)
      else Step(Ok(WolEngine(log)), created.fs)
  }

  /**
   * What write_event does: serialise the event, then append its record to the
   * log with one write_all. Only a failed serialisation or write is an error;
   * the fsync that follows is not consulted. The log only grows, and nothing
   * else changes. (A handle whose file was unlinked writes to no path.)
   */
  function WriteEventSpec(fs: Fs, engine: WolEngine, codec: Codec, event: WriteEvent, faults: Faults): (out: Step<()>)
    ensures var log := engine.logFile;
            && out.fs.dirs == fs.dirs
            && (forall q | q != log :: Unchanged(fs, out.fs, q))
            && (log in fs.files ==> log in out.fs.files && fs.files[log] <= out.fs.files[log])
            && (log !in fs.files ==> out.fs == fs)
            && (codec.serialize(event).None? ==> out == Step(Err(EncodeFailed), fs))
            && (out.result.Ok? <==> codec.serialize(event).Some? && Call.WriteAll(log) !in faults)
            && (out.result.Ok? && log in fs.files ==>
                  var data := codec.serialize(event).value;
                  out.fs.files[log] == fs.files[log] + Record(codec.digest(data), data))
            && (out.result.Err? && codec.serialize(event).Some? ==>
                  var data := codec.serialize(event).value;
                  && FailedAt(out.result, Call.WriteAll(log))
                  && (log in fs.files ==> out.fs.files[log] <= fs.files[log] + Record(codec.digest(data), data)))
  {
    match codec.serialize(event)
    case None => Step(Err(EncodeFailed), fs)
    case Some(data) =>
      var rec := Record(codec.digest(data), data);
      var written := WriteAllStep(fs, engine.logFile, rec, faults);
      if written.result.Err? then written else Step(Ok(()), written.fs)
  }

  /**
   * _parse_entry as evidently intended: the length byte at index 64, the
   * payload after it, and corruption when the digest OR the length disagrees.
   * A buffer it does not call corrupted carries its payload's digest and length.
   */
  function ParseEntryIntended(codec: Codec, buf: seq<byte>): (r: Result<WriteEvent>)
    requires |buf| >= MetadataLength + 1
    ensures var data := buf[MetadataLength..|buf| - 1];
            && |data| == |buf| - HashLength - 2
            && (r != Err(Corrupted) ==>
                  codec.digest(data) == buf[..HashLength] && buf[HashLength] == |data| % 256 && r == Decode(codec, data))
            && (codec.digest(data) != buf[..HashLength] ==> r == Err(Corrupted))
            && (buf[HashLength] != |data| % 256 ==> r == Err(Corrupted))
  {
    var hash := buf[..HashLength];
    var declared := buf[HashLength];
    var data := buf[MetadataLength..|buf| - 1];
    if codec.digest(data) != hash || declared != |data| % 256 then Err(Corrupted)
    else Decode(codec, data)
  }

  /** An engine: the open, append-only handle of its log file. */
  datatype WolEngine = WolEngine(logFile: Path)
  {
    /** WOLEngine::new. */
    static method New(fs: FileSystem, directory: Path, now: int, faults: Faults) returns (r: Result<WolEngine>)
      modifies fs
      ensures Step(r, fs.State()) == NewSpec(old(fs.State()), directory, now, faults)
    {
      if !(directory != Empty && (directory in fs.files || directory in fs.dirs)) {
        var made := fs.CreateDir(directory, faults);
        if made.Err? {
          return Err(made.error);
        }
      }
      if now < 0 {
        return Err(ClockBeforeEpoch);
      }
      var log := Join(directory, LogName(now));
      JoinName(directory, LogName(now));
      var created := fs.CreateNew(log, faults);
      if created.Err? {
        return Err(created.error);
      }
      return Ok(WolEngine(log));
    }

    /** write_event. */
    method WriteEvent(fs: FileSystem, codec: Codec, event: WriteEvent, faults: Faults) returns (r: Result<()>)
      modifies fs
      ensures Step(r, fs.State()) == WriteEventSpec(old(fs.State()), this, codec, event, faults)
    {
      var encoded := codec.serialize(event);
      if encoded.None? {
        return Err(EncodeFailed);
      }
      var data := encoded.value;
      var length := |data|;
      var digest := codec.digest(data);
      r := fs.WriteAll(logFile, digest + [length % 256] + data + [LineFeed], faults);
      if r.Err? {
        return;
      }
      var synced := SyncAllStep(fs.State(), logFile, faults);   // result discarded
      r := Ok(());
    }

    /**
     * _parse_entry as written: the hash is buf[0..64], the declared length is
     * read at index 63 (the last hash byte) and the payload is buf[64..len-1],
     * which starts at the length byte. The entry is reported corrupted only
     * when the digest differs AND the declared length matches.
     */
    function ParseEntry(codec: Codec, buf: seq<byte>): (r: Result<WriteEvent>)
      requires |buf| >= MetadataLength
      ensures var data := buf[MetadataLength - 1..|buf| - 1];
              && |data| == |buf| - MetadataLength
              && (r == Err(Corrupted) <==>
                    codec.digest(data) != buf[..HashLength] && buf[HashLength - 1] == |data| % 256)
              && (r != Err(Corrupted) ==> r == Decode(codec, data))
    {
      var meta := buf[..MetadataLength];
      var hash := meta[..HashLength];
      var dataLength := meta[HashLength - 1..MetadataLength][0];
      var data := buf[MetadataLength - 1..|buf| - 1];
      if codec.digest(data) != hash && dataLength == |data| % 256 then Err(Corrupted)
      else Decode(codec, data)
    }
  }

  /**
   * On a record that write_event produced, _parse_entry hands the decoder the
   * length byte followed by the payload, never the payload itself; and it
   * reports corruption only by the coincidence that the last digest character
   * equals the payload length plus one.
   */
  lemma ParseEntryMisreadsRecord(engine: WolEngine, codec: Codec, d: seq<byte>)
    ensures var rec := Record(codec.digest(d), d);
            var shifted := [|d| % 256] + d;
            && |rec| >= MetadataLength
            && shifted != d
            && (engine.ParseEntry(codec, rec) == Err(Corrupted) <==>
                  codec.digest(shifted) != codec.digest(d) && codec.digest(d)[HashLength - 1] == (|d| + 1) % 256)
            && (engine.ParseEntry(codec, rec) != Err(Corrupted) ==> engine.ParseEntry(codec, rec) == Decode(codec, shifted))
  {
    var rec := Record(codec.digest(d), d);
    assert rec[MetadataLength - 1..|rec| - 1] == [|d| % 256] + d;
    assert rec[..HashLength] == codec.digest(d);
    assert rec[HashLength - 1] == codec.digest(d)[HashLength - 1];
  }

  /**
   * When the payload length plus one is not the byte of a hex digit (an empty
   * payload, for one), changing any byte of a record other than byte 63 is
   * never reported as corruption: the length test reads a hex digit.
   */
  lemma ParseEntryMissesTampering(engine: WolEngine, codec: Codec, d: seq<byte>, i: nat, b: byte)
    requires !IsHexDigit((|d| + 1) % 256)
    requires i < |d| + HashLength + 2 && i != HashLength - 1
    ensures engine.ParseEntry(codec, Record(codec.digest(d), d)[i := b]) != Err(Corrupted)
  {
    var buf := Record(codec.digest(d), d)[i := b];
    assert buf[HashLength - 1] == codec.digest(d)[HashLength - 1];
    assert IsHexDigit(buf[HashLength - 1]);
  }

  /** With the length byte at index 64 and the payload after it, a fresh record parses to its payload's decode. */
  lemma ParseEntryIntendedRoundTrip(codec: Codec, d: seq<byte>)
    ensures ParseEntryIntended(codec, Record(codec.digest(d), d)) == Decode(codec, d)
  {
    var rec := Record(codec.digest(d), d);
    assert rec[MetadataLength..|rec| - 1] == d;
  }

  /**
   * With `||`, a record whose digest or length byte was changed is always
   * reported corrupted.
   */
  lemma ParseEntryIntendedDetectsHeader(codec: Codec, d: seq<byte>, i: nat, b: byte)
    requires i <= HashLength && b != Record(codec.digest(d), d)[i]
    ensures ParseEntryIntended(codec, Record(codec.digest(d), d)[i := b]) == Err(Corrupted)
  {
    var rec := Record(codec.digest(d), d);
    var buf := rec[i := b];
    assert buf[MetadataLength..|buf| - 1] == d;
    if i < HashLength {
      assert buf[..HashLength][i] != codec.digest(d)[i];
    }
  }
}
