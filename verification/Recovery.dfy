/** Crash recovery (kvs_server_run in src/kvstore.c) in the three persistence modes: the
    append-only file, or the last snapshot plus the rest of that file, rebuild exactly the engines
    before the crash; a snapshot alone rebuilds the engines of the last SAVE. */
module Recovery {
  import opened Bytes
  import opened Codec
  import opened Store
  import opened Aof
  import opened Snapshot
  import opened Server
  import opened Replies

  /** What happens to a server: a client command, or a crash followed by a restart. A SAVE
      command writes `file`. */
  datatype Event = Command(fields: Fields, save: Option<ByteString>) | Restart

  /** The hybrid start-up: load the snapshot if there is one, then replay from its checkpoint. */
  function RecoverHybrid(snapshot: Option<ByteString>, aof: ByteString): Option<Stores> {
    match snapshot
    case None => ReplayFrom(EMPTY, aof, 0)
    case Some(file) =>
      match Load(file)
      case LoadFailed => None
      case Loaded(stores, checkpoint) => if checkpoint.None? then None else ReplayFrom(stores, aof, checkpoint.value)
  }

  /** The start of a server that is no Replica; None when it refuses to start. */
  function Recover(p: Process): Option<Stores> {
    match p.mode
    case SnapshotMode =>
      (match p.snapshot
       case None => Some(EMPTY)
       case Some(file) => match Load(file) case LoadFailed => None case Loaded(stores, _) => Some(stores))
    case AofMode => ReplayFrom(EMPTY, p.aof, 0)
    case HybridMode => RecoverHybrid(p.snapshot, p.aof)
  }

  /** The checkpoint a save writes: the current AOF offset, if there is an AOF beside it. */
  function SaveCheckpoint(p: Process): Option<nat> {
    if p.mode.SnapshotMode? then None else Some(|p.aof|)
  }

  /** A save that succeeds writes a snapshot of the engines with that checkpoint. */
  ghost predicate SaveOk(p: Process, save: Option<ByteString>) {
    save.Some? ==>
      exists rs :: Enumerates(rs, p.stores) && Savable(rs, SaveCheckpoint(p))
                   && save.value == FileBytes(rs, SaveCheckpoint(p))
  }

  /** One event of a server; a refused save or an append that does not fit the file
      offset ends the process and is not an event. */
  ghost predicate Possible(p: Process, event: Event) {
    match event
    case Restart => true
    case Command(fields, save) =>
      && fields != [] && SaveOk(p, save)
      && (Apply(p.stores, fields).Some? && !p.mode.SnapshotMode? ==>
            Loggable(fields) && |p.aof + EncodeCommand(fields)| <= INT64_MAX)
  }

  function After(p: Process, event: Event): Process
    requires event.Command? ==> event.fields != []
  {
    match event
    case Command(fields, save) => Execute(p, fields, save).process
    case Restart =>
      match Recover(p)
      case None => p.(stores := EMPTY)
      case Some(stores) => p.(stores := stores)
  }

  /** A run from an empty installation. */
  ghost predicate Runs(events: seq<Event>, states: seq<Process>) {
    && |states| == |events| + 1
    && !states[0].role.ReplicaRole?
    && states[0].stores == EMPTY && states[0].aof == [] && states[0].snapshot == None
    && forall i :: 0 <= i < |events| ==> Possible(states[i], events[i]) && states[i + 1] == After(states[i], events[i])
  }

  /** The engines and the file are those of one log; the snapshot is one of its prefixes. */
  ghost predicate Consistent(p: Process, log: Log) {
    && !p.mode.SnapshotMode? && !p.role.ReplicaRole?
    && AllLoggable(log) && ApplyAll(EMPTY, log) == Some(p.stores) && p.aof == EncodeLog(log)
    && (p.snapshot.Some? ==> p.mode.HybridMode? && exists k: nat :: SnapshotOfPrefix(p.snapshot.value, log, k))
  }

  predicate SnapshotOfPrefix(file: ByteString, log: Log, k: nat) {
    k <= |log| && ApplyAll(EMPTY, log[..k]).Some?
    && Load(file) == Loaded(ApplyAll(EMPTY, log[..k]).value, Some(|EncodeLog(log[..k])|))
  }

  /** Recovery is exact: every replayed command succeeds, and the engines are as before. */
  lemma RecoveryExact(p: Process, log: Log)
    requires Consistent(p, log)
    ensures Recover(p) == Some(p.stores)
  {
    hide Load, EncodeCommand, Replay, EncodeLog;
    match p.snapshot
    case None =>
      ReplayIsApplyAll(EMPTY, log);
      ReplayFromStart(EMPTY, p.aof);
    case Some(file) =>
      var k: nat :| SnapshotOfPrefix(file, log, k);
      SuffixReplays(log, k);
  }

  lemma ReplayFromStart(s: Stores, aof: ByteString)
    ensures ReplayFrom(s, aof, 0) == Replay(s, aof)
  {
    assert aof[0..] == aof;
  }

  lemma AllLoggableFrom(log: Log, k: nat)
    requires AllLoggable(log) && k <= |log|
    ensures AllLoggable(log[k..])
  {
    hide Loggable;
  }

  /** Replaying from the checkpoint replays the commands behind it. */
  lemma SuffixReplays(log: Log, k: nat)
    requires AllLoggable(log) && k <= |log| && ApplyAll(EMPTY, log).Some? && ApplyAll(EMPTY, log[..k]).Some?
    ensures ReplayFrom(ApplyAll(EMPTY, log[..k]).value, EncodeLog(log), |EncodeLog(log[..k])|) == ApplyAll(EMPTY, log)
  {
    hide EncodeLog, EncodeCommand, Replay, ApplyAll, Loggable, AllLoggable;
    EncodeLogSplit(log, k);
    AllLoggableFrom(log, k);
    var front, rest := EncodeLog(log[..k]), EncodeLog(log[k..]);
    assert (front + rest)[|front|..] == rest;
    ReplayIsApplyAll(ApplyAll(EMPTY, log[..k]).value, log[k..]);
    ApplyAllAppend(EMPTY, log[..k], log[k..]);
    assert log[..k] + log[k..] == log;
  }

  /** An AOF that ends inside a command is refused. */
  lemma TornFileRefused(p: Process, log: Log, command: Fields, cut: nat)
    requires Consistent(p, log) && Loggable(command) && 0 < cut < |EncodeCommand(command)|
    ensures Recover(p.(aof := p.aof + EncodeCommand(command)[..cut])) == None
  {
    hide Load, EncodeCommand, Replay, EncodeLog, ApplyAll;
    var torn := EncodeCommand(command)[..cut];
    match p.snapshot
    case None =>
      ReplayRefusesTornTail(EMPTY, log, command, cut);
      ReplayFromStart(EMPTY, p.aof + torn);
    case Some(file) =>
      var k: nat :| SnapshotOfPrefix(file, log, k);
      TornSuffix(log, k, command, cut);
  }

  lemma TornSuffix(log: Log, k: nat, command: Fields, cut: nat)
    requires AllLoggable(log) && k <= |log| && ApplyAll(EMPTY, log[..k]).Some? && Loggable(command)
             && 0 < cut < |EncodeCommand(command)|
    ensures ReplayFrom(ApplyAll(EMPTY, log[..k]).value, EncodeLog(log) + EncodeCommand(command)[..cut],
                       |EncodeLog(log[..k])|) == None
  {
    hide EncodeCommand, Replay, EncodeLog, ApplyAll;
    var torn := EncodeCommand(command)[..cut];
    EncodeLogSplit(log, k);
    var front, rest := EncodeLog(log[..k]), EncodeLog(log[k..]);
    assert front + rest + torn == front + (rest + torn);
    assert (front + (rest + torn))[|front|..] == rest + torn;
    ReplayRefusesTornTail(ApplyAll(EMPTY, log[..k]).value, log[k..], command, cut);
  }

  lemma CommandConsistent(p: Process, log: Log, fields: Fields, save: Option<ByteString>) returns (after: Log)
    requires Consistent(p, log) && fields != [] && Possible(p, Command(fields, save))
    ensures Consistent(Execute(p, fields, save).process, after)
  {
    hide Load, EncodeCommand, EncodeLog, Execute, Apply, ApplyAll, Loggable, SnapshotOfPrefix, SaveOk, AllLoggable;
    ClientWritesLogged(p, fields, save);
    match Apply(p.stores, fields)
    case None =>
      after := log;
      if save.Some? {
        SavedSnapshot(p, log, save);
      }
    case Some(stores) =>
      after := log + [fields];
      LoggedConsistent(p, log, fields, stores);
  }

  lemma LoggedConsistent(p: Process, log: Log, fields: Fields, stores: Stores)
    requires Consistent(p, log) && Apply(p.stores, fields) == Some(stores) && Loggable(fields)
    ensures Consistent(p.(stores := stores, aof := p.aof + EncodeCommand(fields)), log + [fields])
  {
    hide Load, EncodeCommand, EncodeLog, Apply, Loggable;
    var after := log + [fields];
    assert after[..|log|] == log;
    EncodeLogSnoc(log, fields);
    if p.snapshot.Some? {
      var k: nat :| SnapshotOfPrefix(p.snapshot.value, log, k);
      assert after[..k] == log[..k];
      assert SnapshotOfPrefix(p.snapshot.value, after, k);
    }
  }

  lemma SavedSnapshot(p: Process, log: Log, save: Option<ByteString>)
    requires Consistent(p, log) && SaveOk(p, save) && save.Some?
    ensures SnapshotOfPrefix(save.value, log, |log|)
  {
    hide Load, EncodeLog, SaveOk, ApplyAll, AllLoggable;
    ArrayBounded(EMPTY, log);
    SaveLoads(p, save);
    assert log[..|log|] == log;
  }

  lemma SaveLoads(p: Process, save: Option<ByteString>)
    requires SaveOk(p, save) && save.Some? && |p.stores.arrayTable| <= ARRAY_SIZE
    ensures Load(save.value) == Loaded(p.stores, SaveCheckpoint(p))
  {
    hide Load, Enumerates, Savable, FileBytes;
    var rs :| Enumerates(rs, p.stores) && Savable(rs, SaveCheckpoint(p))
              && save.value == FileBytes(rs, SaveCheckpoint(p));
    SaveLoad(rs, p.stores, SaveCheckpoint(p));
  }

  lemma {:induction false} RunConsistent(events: seq<Event>, states: seq<Process>) returns (log: Log)
    requires Runs(events, states) && !states[0].mode.SnapshotMode?
    ensures Consistent(states[|events|], log)
    decreases |events|
  {
    if events == [] {
      log := [];
    } else {
      var front := events[..|events| - 1];
      assert Runs(front, states[..|states| - 1]);
      log := RunConsistent(front, states[..|states| - 1]);
      var p, event := states[|front|], events[|front|];
      assert states[|events|] == After(p, event) && Possible(p, event);
      match event
      case Restart => RecoveryExact(p, log);
      case Command(fields, save) => log := CommandConsistent(p, log, fields, save);
    }
  }

  // ------------------------------------------------------------ snapshots alone

  /** The engines at the last SAVE that was answered by +OK; empty before the first. */
  ghost function LastSaved(events: seq<Event>, states: seq<Process>): Stores
    requires |states| == |events| + 1
  {
    if events == [] then EMPTY
    else
      var n := |events| - 1;
      if events[n].Command? && events[n].fields == [SAVE_NAME] && events[n].save.Some? then states[n].stores
      else LastSaved(events[..n], states[..n + 1])
  }

  /** Without an AOF the snapshot file holds exactly the last save. */
  ghost predicate Saved(p: Process, saved: Stores) {
    && p.mode.SnapshotMode? && !p.role.ReplicaRole? && p.aof == []
    && |p.stores.arrayTable| <= ARRAY_SIZE && |saved.arrayTable| <= ARRAY_SIZE
    && match p.snapshot
       case None => saved == EMPTY
       case Some(file) => Load(file) == Loaded(saved, None)
  }

  lemma CommandSaved(p: Process, saved: Stores, fields: Fields, save: Option<ByteString>)
    requires Saved(p, saved) && fields != [] && Possible(p, Command(fields, save))
    ensures Saved(Execute(p, fields, save).process,
                  if fields == [SAVE_NAME] && save.Some? then p.stores else saved)
  {
    hide Load, EncodeCommand, Execute, Apply, SaveOk, Ascii;
    ClientWritesLogged(p, fields, save);
    if fields == [SAVE_NAME] && save.Some? {
      SaveReplaces(p, save);
    }
    match Apply(p.stores, fields)
    case None =>
      if save.Some? {
        SaveLoads(p, save);
      }
    case Some(stores) =>
      ApplyAllOne(p.stores, fields);
      ArrayBounded(p.stores, [fields]);
  }

  lemma ApplyAllOne(s: Stores, fields: Fields)
    ensures ApplyAll(s, [fields]) == Apply(s, fields)
  {
    hide Apply;
    assert [fields][..0] == [];
  }

  /** A lone SAVE replaces the snapshot, and is no engine command. */
  lemma SaveReplaces(p: Process, save: Option<ByteString>)
    requires save.Some? && !p.role.ReplicaRole? && !p.mode.AofMode?
    ensures Execute(p, [SAVE_NAME], save).process == p.(snapshot := save) && Apply(p.stores, [SAVE_NAME]).None?
  {
    hide Execute, FindCommand, Apply, Ascii;
    NotCommands();
    NamelessRefused(p.stores, [SAVE_NAME]);
    SaveReplies(p, save);
  }

  lemma {:induction false} RunSaved(events: seq<Event>, states: seq<Process>)
    requires Runs(events, states) && states[0].mode.SnapshotMode?
    ensures Saved(states[|events|], LastSaved(events, states))
    decreases |events|
  {
    hide Load;
    if events != [] {
      var n := |events| - 1;
      assert Runs(events[..n], states[..n + 1]);
      RunSaved(events[..n], states[..n + 1]);
      assert states[n + 1] == After(states[n], events[n]) && Possible(states[n], events[n]);
      var saved := LastSaved(events[..n], states[..n + 1]);
      match events[n]
      case Restart =>
      case Command(fields, save) => CommandSaved(states[n], saved, fields, save);
    }
  }

  // --------------------------------------------------------------------- any run

  /** For every run of commands, saves and restarts: a server with an AOF recovers exactly the
      engines it had and a restart changes nothing; one with snapshots alone recovers exactly
      the engines of its last SAVE. */
  lemma AnyRunRecovers(events: seq<Event>, states: seq<Process>)
    requires Runs(events, states)
    ensures var p := states[|events|];
            if states[0].mode.SnapshotMode? then Recover(p) == Some(LastSaved(events, states))
            else Recover(p) == Some(p.stores) && After(p, Restart) == p
  {
    hide Recover, Consistent, Saved;
    if states[0].mode.SnapshotMode? {
      RunSaved(events, states);
      SavedRecovers(states[|events|], LastSaved(events, states));
    } else {
      var log := RunConsistent(events, states);
      RecoveryExact(states[|events|], log);
    }
  }

  lemma SavedRecovers(p: Process, saved: Stores)
    requires Saved(p, saved)
    ensures Recover(p) == Some(saved)
  {
    hide Load;
  }

  /** And a crash in the middle of the append that follows makes the next start refuse. */
  lemma AnyRunRefusesTornTail(events: seq<Event>, states: seq<Process>, command: Fields, cut: nat)
    requires Runs(events, states) && !states[0].mode.SnapshotMode?
    requires Loggable(command) && 0 < cut < |EncodeCommand(command)|
    ensures var p := states[|events|]; Recover(p.(aof := p.aof + EncodeCommand(command)[..cut])) == None
  {
    hide Recover, Consistent, EncodeCommand;
    var log := RunConsistent(events, states);
    TornFileRefused(states[|events|], log, command, cut);
  }

  /** A hybrid server does not start from a snapshot without a checkpoint, and none starts from a
      snapshot that is not accepted. */
  lemma UnusableSnapshotRefused(p: Process)
    requires p.snapshot.Some? && !p.mode.AofMode?
    requires Load(p.snapshot.value).LoadFailed?
             || (p.mode.HybridMode? && Load(p.snapshot.value).checkpoint.None?)
    ensures Recover(p) == None
  {
    hide Load;
  }
}
