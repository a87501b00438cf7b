/** The append-only file (src/persistence/aof.c): its bytes are the concatenated canonical
    encodings of the successful write commands, and replaying them re-executes the log. */
module Aof {
  import opened Bytes
  import opened Codec
  import opened Store

  type Log = seq<Fields>

  /** What the writer can put into the file and the readers can take out again. */
  predicate Loggable(command: Fields) {
    0 < |command| <= 3 && |EncodeCommand(command)| <= SIZE_MAX
  }

  predicate AllLoggable(log: Log) {
    forall i :: 0 <= i < |log| ==> Loggable(log[i])
  }

  function EncodeLog(log: Log): ByteString {
    if log == [] then [] else EncodeLog(log[..|log| - 1]) + EncodeCommand(log[|log| - 1])
  }

  lemma {:induction false} EncodeLogAppend(a: Log, b: Log)
    ensures EncodeLog(a + b) == EncodeLog(a) + EncodeLog(b)
    decreases |b|
  {
    hide EncodeCommand;
    if b == [] {
      assert a + b == a;
    } else {
      var front, last := b[..|b| - 1], b[|b| - 1];
      EncodeLogAppend(a, front);
      assert (a + b)[..|a + b| - 1] == a + front;
    }
  }

  lemma EncodeLogSnoc(log: Log, command: Fields)
    ensures EncodeLog(log + [command]) == EncodeLog(log) + EncodeCommand(command)
  {
    assert (log + [command])[..|log|] == log;
  }

  /** The bytes from one command boundary on are the encodings of the remaining commands. */
  lemma EncodeLogSplit(log: Log, k: nat)
    requires k <= |log|
    ensures EncodeLog(log) == EncodeLog(log[..k]) + EncodeLog(log[k..])
  {
    hide EncodeLog;
    EncodeLogAppend(log[..k], log[k..]);
    assert log[..k] + log[k..] == log;
  }

  /** `kvs_aof_replay` from the current position: every byte must belong to a complete
      command, and every command must succeed. */
  function Replay(s: Stores, bytes: ByteString): Option<Stores>
    decreases |bytes|
  {
    if bytes == [] then Some(s)
    else
      match ParseCommand(bytes, 3, SIZE_MAX)
      case Incomplete => None
      case Malformed => None
      case Complete(fields, n) =>
        if n == 0 || n > |bytes| then None
        else
          match Apply(s, fields)
          case None => None
          case Some(s') => Replay(s', bytes[n..])
  }

  /** `kvs_aof_replay` on a whole file: an offset at or past the end replays nothing. */
  function ReplayFrom(s: Stores, file: ByteString, offset: nat): Option<Stores> {
    Replay(s, if offset < |file| then file[offset..] else [])
  }

  /** Replaying one encoded command executes it and leaves the rest. */
  lemma ReplayStep(s: Stores, command: Fields, rest: ByteString)
    requires Loggable(command)
    ensures Replay(s, EncodeCommand(command) + rest)
            == match Apply(s, command) case None => None case Some(s') => Replay(s', rest)
  {
    hide EncodeCommand, ParseCommand, Apply;
    RoundTrip(command, rest, 3, SIZE_MAX);
    EncodedNonEmpty(command);
    var bytes := EncodeCommand(command) + rest;
    assert bytes[|EncodeCommand(command)|..] == rest;
  }

  lemma EncodedNonEmpty(command: Fields)
    ensures |EncodeCommand(command)| >= 4
  {
  }

  lemma {:induction false} ReplayLogThen(s: Stores, log: Log, rest: ByteString)
    requires AllLoggable(log)
    ensures Replay(s, EncodeLog(log) + rest)
            == match ApplyAll(s, log) case None => None case Some(s') => Replay(s', rest)
    decreases |log|
  {
    hide EncodeCommand, Apply;
    if log == [] {
      assert EncodeLog(log) + rest == rest;
    } else {
      var front, last := log[..|log| - 1], log[|log| - 1];
      assert EncodeLog(log) + rest == EncodeLog(front) + (EncodeCommand(last) + rest);
      ReplayLogThen(s, front, EncodeCommand(last) + rest);
      if ApplyAll(s, front).Some? {
        ReplayStep(ApplyAll(s, front).value, last, rest);
      }
    }
  }

  /** Replaying an encoded log is executing the log. */
  lemma ReplayIsApplyAll(s: Stores, log: Log)
    requires AllLoggable(log)
    ensures Replay(s, EncodeLog(log)) == ApplyAll(s, log)
  {
    ReplayLogThen(s, log, []);
    assert EncodeLog(log) + [] == EncodeLog(log);
  }

  /** A file that ends inside a command is refused, whatever the commands before it did. */
  lemma ReplayRefusesTornTail(s: Stores, log: Log, command: Fields, cut: nat)
    requires AllLoggable(log) && Loggable(command)
    requires 0 < cut < |EncodeCommand(command)|
    ensures Replay(s, EncodeLog(log) + EncodeCommand(command)[..cut]).None?
  {
    ReplayLogThen(s, log, EncodeCommand(command)[..cut]);
    EncodedPrefixWaits(command, cut, 3, SIZE_MAX);
  }

  // ------------------------------------------------------------------ files

  /** A file after writing `data` at `offset`; a gap reads as zeros. */
  function WriteAt(file: ByteString, offset: nat, data: ByteString): (r: ByteString)
    ensures data != [] ==> |r| == if |file| < offset + |data| then offset + |data| else |file|
  {
    if data == [] then file
    else
      var padded := if |file| < offset then file + seq(offset - |file|, i => 0) else file;
      padded[..offset] + data + (if offset + |data| < |padded| then padded[offset + |data|..] else [])
  }

  /** `ftruncate`: a shorter file is extended with zeros, a longer one is cut. */
  function Truncate(file: ByteString, length: nat): (r: ByteString)
    ensures |r| == length
  {
    if length <= |file| then file[..length] else file + seq(length - |file|, i => 0)
  }
}
