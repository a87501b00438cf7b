/** Command execution in src/kvstore.c: clients, recovery and replication share one executor,
    and exactly the writes that succeed reach the append-only file. */
module Server {
  import opened Bytes
  import opened Codec
  import opened Store
  import opened Aof

  const MAX_TOKENS: nat := 128
  const MAX_CLIENT_COMMAND_BYTES: nat := 1024 * 1024

  datatype Role = Standalone | PrimaryRole | ReplicaRole
  datatype Mode = SnapshotMode | AofMode | HybridMode
  datatype Source = Client | Recovery | Replicated

  /** `kvs_exec_status_t`. */
  datatype Status = Failure | Okay | AlreadyExists | NotFound | Found

  /** The globals of the process. `snapshot` is the file the mode saves to. */
  datatype Process = Process(
    role: Role,
    mode: Mode,
    online: bool,
    stores: Stores,
    aof: ByteString,
    snapshot: Option<ByteString>)

  function StatusOf(verb: Verb, code: int): Status {
    if code < 0 then Failure
    else
      match verb
      case Set => if code == 0 then Okay else AlreadyExists
      case Get => Failure
      case Del => if code == 0 then Okay else NotFound
      case Mod => if code == 0 then Okay else NotFound
      case Exist => if code == 0 then Found else NotFound
  }

  datatype Filtered = Filtered(process: Process, status: Status)

  /** `kvs_filter_protocol`: run the engine command, then log it if it is a successful write. */
  function Filter(p: Process, source: Source, fields: Fields): Filtered
    requires fields != []
    requires FindCommand(fields[0], 0) < COMMAND_COUNT ==> |fields| == Arity(FindCommand(fields[0], 0))
  {
    var id := FindCommand(fields[0], 0);
    if id == COMMAND_COUNT then Filtered(p, Failure)
    else if p.role.ReplicaRole? && source.Client? && IsWrite(id) then Filtered(p, Failure)
    else
      var r := RunVerb(p.stores, id, fields);
      var logged := r.code == 0 && IsWrite(id) && !source.Recovery? && !p.mode.SnapshotMode?;
      Filtered(p.(stores := WithTable(p.stores, EngineOf(id), r.table),
                  aof := if logged then p.aof + EncodeCommand(fields) else p.aof),
               StatusOf(VerbOf(id), r.code))
  }

  predicate HasNul(fields: Fields) {
    exists i :: 0 <= i < |fields| && !NulFree(fields[i])
  }

  // ------------------------------------------------------------------- clients

  // The fixed replies, each a line of the RESP protocol.
  const PING_NAME: ByteString := Ascii("PING")
  const SAVE_NAME: ByteString := Ascii("SAVE")
  const PONG_REPLY: ByteString := Ascii("+PONG\r\n")
  const OK_REPLY: ByteString := Ascii("+OK\r\n")
  const ONE_REPLY: ByteString := Ascii(":1\r\n")
  const ZERO_REPLY: ByteString := Ascii(":0\r\n")
  const NIL_REPLY: ByteString := Ascii("$-1\r\n")
  const LOADING_REPLY: ByteString := Ascii("-LOADING replica ") + Ascii("synchronization in progress\r\n")
  const NUL_ERROR: ByteString := Ascii("-ERR NUL bytes are not supported\r\n")
  const PING_ARITY_ERROR: ByteString := Ascii("-ERR wrong number of arguments for PING\r\n")
  const SAVE_ARITY_ERROR: ByteString := Ascii("-ERR wrong number of arguments for SAVE\r\n")
  const ARITY_ERROR: ByteString := Ascii("-ERR wrong number of arguments for ")
  const SAVE_ERROR: ByteString := Ascii("-ERR SAVE failed\r\n")
  const UNKNOWN_ERROR: ByteString := Ascii("-ERR unknown command\r\n")
  const EXISTS_ERROR: ByteString := Ascii("-ERR key already exists\r\n")
  const SET_ERROR: ByteString := Ascii("-ERR SET failed\r\n")
  const DEL_ERROR: ByteString := Ascii("-ERR DEL failed\r\n")
  const MISSING_ERROR: ByteString := Ascii("-ERR key not found\r\n")
  const MOD_ERROR: ByteString := Ascii("-ERR MOD failed\r\n")
  const EXIST_ERROR: ByteString := Ascii("-ERR EXIST failed\r\n")
  const REQUEST_ERROR: ByteString := Ascii("-ERR invalid or oversized request\r\n")

  /** The reply a client gets for an engine command, from the status alone. */
  function ReplyFor(verb: Verb, status: Status): ByteString {
    match verb
    case Set => if status.Okay? then OK_REPLY else if status.AlreadyExists? then EXISTS_ERROR else SET_ERROR
    case Get => NIL_REPLY
    case Del => if status.Okay? then ONE_REPLY else if status.NotFound? then ZERO_REPLY else DEL_ERROR
    case Mod => if status.Okay? then OK_REPLY else if status.NotFound? then MISSING_ERROR else MOD_ERROR
    case Exist => if status.Found? then ONE_REPLY else if status.NotFound? then ZERO_REPLY else EXIST_ERROR
  }

  datatype Executed = Executed(process: Process, reply: ByteString)

  /** The engine commands of a client. */
  function ExecuteEngine(p: Process, fields: Fields): Executed
    requires fields != []
  {
    var id := FindCommand(fields[0], 0);
    if id == COMMAND_COUNT then Executed(p, UNKNOWN_ERROR)
    else if |fields| != Arity(id) then Executed(p, ARITY_ERROR + fields[0] + CRLF)
    else if VerbOf(id).Get? then
      var t := TableOf(p.stores, EngineOf(id));
      Executed(p, if fields[1] in t then EncodeField(t[fields[1]]) else NIL_REPLY)
    else
      var r := Filter(p, Client, fields);
      Executed(r.process, ReplyFor(VerbOf(id), r.status))
  }

  /** `kvs_save_current_snapshot`; the pure AOF mode has no snapshot to save. */
  function ExecuteSave(p: Process, arity: nat, save: Option<ByteString>): Executed {
    if arity != 1 then Executed(p, SAVE_ARITY_ERROR)
    else if save.None? || p.mode.AofMode? then Executed(p, SAVE_ERROR)
    else Executed(p.(snapshot := save), OK_REPLY)
  }

  /** `kvs_execute_fields` for a client; `save` is what a SAVE writes, None when it fails. */
  function Execute(p: Process, fields: Fields, save: Option<ByteString>): Executed
    requires fields != []
  {
    if HasNul(fields) then Executed(p, NUL_ERROR)
    else if fields[0] == PING_NAME then Executed(p, if |fields| == 1 then PONG_REPLY else PING_ARITY_ERROR)
    else if p.role.ReplicaRole? && !p.online then Executed(p, LOADING_REPLY)
    else if fields[0] == SAVE_NAME then ExecuteSave(p, |fields|, save)
    else ExecuteEngine(p, fields)
  }

  /** The recovery and the replication handler: only a write that succeeds is accepted. */
  function ExecuteInternal(p: Process, source: Source, fields: Fields): Option<Process>
    requires fields != [] && !source.Client?
  {
    if HasNul(fields) then None
    else
      var id := FindCommand(fields[0], 0);
      if id < COMMAND_COUNT && |fields| != Arity(id) then None
      else if id < COMMAND_COUNT && VerbOf(id).Get? then None
      else
        var r := Filter(p, source, fields);
        if r.status.Okay? then Some(r.process) else None
  }

  // ------------------------------------------------ agreement with the log's semantics

  /** Replaying and replicating a command is applying it; only a replicated one is logged. */
  lemma InternalIsApply(p: Process, source: Source, fields: Fields)
    requires fields != [] && !source.Client?
    ensures ExecuteInternal(p, source, fields)
            == match Apply(p.stores, fields)
               case None => None
               case Some(stores) =>
                 Some(p.(stores := stores,
                         aof := if source.Replicated? && !p.mode.SnapshotMode? then p.aof + EncodeCommand(fields)
                         else p.aof))
  {
    hide EncodeCommand;
    if Apply(p.stores, fields).None? && WellFormed(fields) {
      RefusedUnchanged(p.stores, fields);
    }
  }

  /** A command that does not succeed changes no engine. */
  lemma RefusedUnchanged(s: Stores, fields: Fields)
    requires WellFormed(fields) && Apply(s, fields).None?
    ensures var id := FindCommand(fields[0], 0);
            var r := RunVerb(s, id, fields);
            r.code != 0 && r.table == TableOf(s, EngineOf(id)) && WithTable(s, EngineOf(id), r.table) == s
  {
    hide FindCommand, CommandName;
    SameTable(s, EngineOf(FindCommand(fields[0], 0)));
  }

  lemma EngineWritesLogged(p: Process, fields: Fields)
    requires fields != [] && !p.role.ReplicaRole? && !HasNul(fields)
    ensures var q := ExecuteEngine(p, fields).process;
            match Apply(p.stores, fields)
            case None => q == p
            case Some(stores) => q == p.(stores := stores, aof := if p.mode.SnapshotMode? then p.aof
                                         else p.aof + EncodeCommand(fields))
  {
    hide EncodeCommand, ReplyFor, EncodeField;
    if Apply(p.stores, fields).None? && WellFormed(fields) {
      RefusedUnchanged(p.stores, fields);
    }
    var id := FindCommand(fields[0], 0);
    if id < COMMAND_COUNT && VerbOf(id).Exist? {
      SameTable(p.stores, EngineOf(id));
    }
  }

  /** Whatever a client sends to a server that accepts writes: either it is a write that
      succeeds, and then exactly its canonical encoding is appended, or neither the engines nor
      the log change; and only a lone SAVE replaces the snapshot. */
  lemma ClientWritesLogged(p: Process, fields: Fields, save: Option<ByteString>)
    requires fields != [] && !p.role.ReplicaRole?
    ensures var q := Execute(p, fields, save).process;
            match Apply(p.stores, fields)
            case None => q == p || (fields == [SAVE_NAME] && save.Some? && !p.mode.AofMode?
                                    && q == p.(snapshot := save))
            case Some(stores) => q == p.(stores := stores, aof := if p.mode.SnapshotMode? then p.aof
                                         else p.aof + EncodeCommand(fields))
  {
    hide EncodeCommand, ExecuteEngine, Ascii;
    NotCommands();
    if HasNul(fields) { NulNeverApplies(p.stores, fields); }
    if !HasNul(fields) && fields[0] != PING_NAME && fields[0] != SAVE_NAME {
      EngineWritesLogged(p, fields);
    } else if fields[0] == PING_NAME || fields[0] == SAVE_NAME {
      NamelessRefused(p.stores, fields);
    }
  }

  lemma NulNeverApplies(s: Stores, fields: Fields)
    requires HasNul(fields)
    ensures Apply(s, fields).None?
  {
  }

  lemma NamelessRefused(s: Stores, fields: Fields)
    requires fields != [] && FindCommand(fields[0], 0) == COMMAND_COUNT
    ensures Apply(s, fields).None?
  {
  }

  lemma SameTable(s: Stores, e: Engine)
    ensures WithTable(s, e, TableOf(s, e)) == s
  {
  }

  /** PING and SAVE are no engine commands. */
  lemma NotCommands()
    ensures FindCommand(PING_NAME, 0) == COMMAND_COUNT && FindCommand(SAVE_NAME, 0) == COMMAND_COUNT
  {
    hide FindCommand;
    assert PING_NAME[3] == 71 && SAVE_NAME[3] == 69;
    NotCommandFrom(PING_NAME, 0);
    NotCommandFrom(SAVE_NAME, 0);
  }

  lemma {:induction false} NotCommandFrom(name: ByteString, from: nat)
    requires from <= COMMAND_COUNT && |name| == 4 && (name[3] == 71 || name[3] == 69)
    ensures FindCommand(name, from) == COMMAND_COUNT
    decreases COMMAND_COUNT - from
  {
    hide CommandName;
    if from < COMMAND_COUNT {
      NotCommandFrom(name, from + 1);
      LastLetter(from);
    }
  }

  /** Every command name ends in T, L or D; PING ends in G and SAVE in E. */
  lemma LastLetter(id: nat)
    requires id < COMMAND_COUNT
    ensures var n := CommandName(id); |n| > 0 && (n[|n| - 1] == 84 || n[|n| - 1] == 76 || n[|n| - 1] == 68)
  {
    assert Ascii("SET")[2] == 84 && Ascii("GET")[2] == 84 && Ascii("DEL")[2] == 76 && Ascii("MOD")[2] == 68
           && Ascii("EXIST")[4] == 84;
  }

  lemma EngineReadOnly(p: Process, fields: Fields)
    requires fields != [] && p.role.ReplicaRole?
    ensures var q := ExecuteEngine(p, fields).process; q.stores == p.stores && q.aof == p.aof
  {
    hide EncodeCommand, ReplyFor, EncodeField, FindCommand, CommandName;
    if FindCommand(fields[0], 0) < COMMAND_COUNT && |fields| == Arity(FindCommand(fields[0], 0)) {
      SameTable(p.stores, EngineOf(FindCommand(fields[0], 0)));
    }
  }

  /** A Replica never takes a write from a client. */
  lemma ReplicaReadOnly(p: Process, fields: Fields, save: Option<ByteString>)
    requires fields != [] && p.role.ReplicaRole?
    ensures var q := Execute(p, fields, save).process; q.stores == p.stores && q.aof == p.aof
  {
    hide ExecuteEngine, Ascii;
    EngineReadOnly(p, fields);
  }

  // --------------------------------------------------- the client protocol handler

  /** `kvs_network_protocol` on the buffered input: at most one command per call. */
  datatype Handled = Handled(process: Process, reply: ByteString, consumed: nat)

  function HandleInput(p: Process, input: ByteString, save: Option<ByteString>): (h: Handled)
    ensures h.consumed <= |input|
  {
    if input == [] then Handled(p, [], 0)
    else
      match ParseCommand(input, MAX_TOKENS, MAX_CLIENT_COMMAND_BYTES)
      case Malformed => Handled(p, REQUEST_ERROR, |input|)
      case Incomplete =>
        if |input| >= MAX_CLIENT_COMMAND_BYTES then Handled(p, REQUEST_ERROR, |input|) else Handled(p, [], 0)
      case Complete(fields, size) =>
        if fields == [] || size > |input| then Handled(p, [], 0)
        else
          var e := Execute(p, fields, save);
          Handled(e.process, e.reply, size)
  }

  /** The executor as the C code runs it, over the globals of the process. */
  class CommandServer {
    const role: Role
    const mode: Mode
    var online: bool
    var stores: Stores
    var aof: ByteString
    var snapshot: Option<ByteString>

    constructor (p: Process)
      ensures View() == p
    {
      role, mode, online, stores, aof, snapshot := p.role, p.mode, p.online, p.stores, p.aof, p.snapshot;
    }

    function View(): Process
      reads this
    {
      Process(role, mode, online, stores, aof, snapshot)
    }

    /** The search through the command table. */
    static method LookUp(name: ByteString) returns (id: nat)
      ensures id == FindCommand(name, 0)
    {
      id := 0;
      while id < COMMAND_COUNT && CommandName(id) != name
        invariant 0 <= id <= COMMAND_COUNT && FindCommand(name, id) == FindCommand(name, 0)
      {
        id := id + 1;
      }
    }

    static method AnyNul(fields: Fields) returns (found: bool)
      ensures found <==> HasNul(fields)
    {
      for i := 0 to |fields|
        invariant forall k :: 0 <= k < i ==> NulFree(fields[k])
      {
        if exists j :: 0 <= j < |fields[i]| && fields[i][j] == 0 { return true; }
      }
      return false;
    }

    /** `kvs_filter_protocol`. */
    method FilterProtocol(source: Source, fields: Fields) returns (status: Status)
      requires fields != []
      requires FindCommand(fields[0], 0) < COMMAND_COUNT ==> |fields| == Arity(FindCommand(fields[0], 0))
      modifies this`stores, this`aof
      ensures Filtered(View(), status) == Filter(old(View()), source, fields)
    {
      hide EncodeCommand, FindCommand, CommandName, RunVerb;
      var id := LookUp(fields[0]);
      if id == COMMAND_COUNT { return Failure; }
      if role.ReplicaRole? && source.Client? && IsWrite(id) { return Failure; }
      var result := RunVerb(stores, id, fields);
      stores := WithTable(stores, EngineOf(id), result.table);
      if result.code == 0 && IsWrite(id) && !source.Recovery? && !mode.SnapshotMode? {
        aof := aof + EncodeCommand(fields);
      }
      return StatusOf(VerbOf(id), result.code);
    }

    /** `kvs_execute_fields` for a client. */
    method ExecuteFields(fields: Fields, save: Option<ByteString>) returns (reply: ByteString)
      requires fields != []
      modifies this`stores, this`aof, this`snapshot
      ensures Executed(View(), reply) == Execute(old(View()), fields, save)
    {
      hide EncodeCommand, FindCommand, CommandName, Filter, ReplyFor, EncodeField, Ascii;
      var nul := AnyNul(fields);
      if nul { return NUL_ERROR; }
      if fields[0] == PING_NAME { return if |fields| == 1 then PONG_REPLY else PING_ARITY_ERROR; }
      if role.ReplicaRole? && !online { return LOADING_REPLY; }
      if fields[0] == SAVE_NAME {
        if |fields| != 1 { return SAVE_ARITY_ERROR; }
        if save.None? || mode.AofMode? { return SAVE_ERROR; }
        snapshot := save;
        return OK_REPLY;
      }
      var id := LookUp(fields[0]);
      if id < COMMAND_COUNT && |fields| != Arity(id) { return ARITY_ERROR + fields[0] + CRLF; }
      if id == COMMAND_COUNT { return UNKNOWN_ERROR; }
      if VerbOf(id).Get? {
        var t := TableOf(stores, EngineOf(id));
        return if fields[1] in t then EncodeField(t[fields[1]]) else NIL_REPLY;
      }
      var status := FilterProtocol(Client, fields);
      return ReplyFor(VerbOf(id), status);
    }

    /** `kvs_recovery_fields_protocol` and `kvs_replication_command_protocol`. */
    method ExecuteInternally(source: Source, fields: Fields) returns (ok: bool)
      requires fields != [] && !source.Client?
      modifies this`stores, this`aof
      ensures ok <==> ExecuteInternal(old(View()), source, fields).Some?
      ensures ok ==> View() == ExecuteInternal(old(View()), source, fields).value
    {
      hide EncodeCommand, FindCommand, CommandName, Filter, RunVerb;
      var nul := AnyNul(fields);
      if nul { return false; }
      var id := LookUp(fields[0]);
      if id < COMMAND_COUNT && |fields| != Arity(id) { return false; }
      if id < COMMAND_COUNT && VerbOf(id).Get? { return false; }
      var status := FilterProtocol(source, fields);
      return status.Okay?;
    }

    /** `kvs_network_protocol`. */
    method HandleMessage(input: ByteString, save: Option<ByteString>) returns (reply: ByteString, consumed: nat)
      modifies this`stores, this`aof, this`snapshot
      ensures Handled(View(), reply, consumed) == HandleInput(old(View()), input, save)
    {
      hide Execute, ParseCommand, Ascii;
      if |input| == 0 { return [], 0; }
      var parsed := ReadCommand(input, MAX_TOKENS, MAX_CLIENT_COMMAND_BYTES);
      match parsed
      case Malformed => return REQUEST_ERROR, |input|;
      case Incomplete =>
        if |input| >= MAX_CLIENT_COMMAND_BYTES { return REQUEST_ERROR, |input|; }
        return [], 0;
      case Complete(fields, size) =>
        if fields == [] || size > |input| { return [], 0; }
        reply := ExecuteFields(fields, save);
        consumed := size;
    }
  }
}
