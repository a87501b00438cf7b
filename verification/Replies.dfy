/** What clients are answered (kvs_execute_fields in src/kvstore.c), in terms of the four tables:
    every engine, every command, every refusal. */
module Replies {
  import opened Bytes
  import opened Codec
  import opened Store
  import opened Server
  import opened Aof
  import opened Reader

  /** The short reply lines, byte for byte. */
  lemma ReplyLines()
    ensures OK_REPLY == [43, 79, 75, 13, 10] && PONG_REPLY == [43, 80, 79, 78, 71, 13, 10]
    ensures ONE_REPLY == [58, 49, 13, 10] && ZERO_REPLY == [58, 48, 13, 10] && NIL_REPLY == [36, 45, 49, 13, 10]
  {
  }

  /** Commands and values on the wire, byte for byte: "*" and the number of fields, "$" and the
      length of a field, each line ended by a carriage return and a line feed. */
  lemma WireLines(fields: Fields, value: ByteString)
    ensures EncodeCommand(fields) == [42] + Decimal(|fields|) + [13, 10] + EncodeFields(fields)
    ensures fields != [] ==> EncodeFields(fields) == EncodeField(fields[0]) + EncodeFields(fields[1..])
    ensures EncodeField(value) == [36] + Decimal(|value|) + [13, 10] + value + [13, 10]
  {
  }

  /** The server answers more than PING. */
  predicate Serving(p: Process) {
    p.role.ReplicaRole? ==> p.online
  }

  /** It also takes writes. */
  predicate Writable(p: Process) {
    !p.role.ReplicaRole?
  }

  /** The state after a write that succeeded: one table is new, and the write is logged. */
  predicate Wrote(p: Process, q: Process, e: Engine, t: Table, fields: Fields) {
    && OnlyTable(p.stores, q.stores, e, t)
    && q == p.(stores := q.stores, aof := if p.mode.SnapshotMode? then p.aof else p.aof + EncodeCommand(fields))
  }

  /** A command name is neither PING nor SAVE, and the executor reaches its engine. */
  lemma ReachesEngine(p: Process, e: Engine, v: Verb, fields: Fields, save: Option<ByteString>)
    requires fields != [] && fields[0] == Name(e, v) && !HasNul(fields) && Serving(p)
    ensures Execute(p, fields, save) == ExecuteEngine(p, fields)
    ensures FindCommand(fields[0], 0) == CommandId(e, v)
  {
    hide FindCommand, ExecuteEngine, Name, CommandName, Ascii;
    NotCommands();
    NameIsText(e, v);
  }

  lemma TextPair(e: Engine, v: Verb, key: ByteString)
    requires NulFree(key)
    ensures !HasNul([Name(e, v), key])
  {
    hide NulFree, Name;
    NameIsText(e, v);
  }

  lemma TextTriple(e: Engine, v: Verb, key: ByteString, value: ByteString)
    requires NulFree(key) && NulFree(value)
    ensures !HasNul([Name(e, v), key, value])
  {
    hide NulFree, Name;
    NameIsText(e, v);
  }

  /** The engine's own step behind a command of the right length. */
  lemma EngineStep(p: Process, e: Engine, v: Verb, fields: Fields)
    requires |fields| == (if v.Set? || v.Mod? then 3 else 2) && !v.Get?
    requires FindCommand(fields[0], 0) == CommandId(e, v)
    ensures ExecuteEngine(p, fields)
            == if !Writable(p) && !v.Exist? then Executed(p, ReplyFor(v, Failure))
               else
                 var r := RunVerb(p.stores, CommandId(e, v), fields);
                 var logged := r.code == 0 && !v.Exist? && !p.mode.SnapshotMode?;
                 Executed(p.(stores := WithTable(p.stores, e, r.table),
                             aof := if logged then p.aof + EncodeCommand(fields) else p.aof),
                          ReplyFor(v, StatusOf(v, r.code)))
  {
    hide FindCommand, CommandName, EncodeCommand, RunVerb, ReplyFor, StatusOf, EncodeField, WithTable;
  }

  lemma VerbStep(s: Stores, e: Engine, v: Verb, fields: Fields)
    requires |fields| == (if v.Set? || v.Mod? then 3 else 2)
    ensures RunVerb(s, CommandId(e, v), fields)
            == match v
               case Set => RunSet(e, TableOf(s, e), fields[1], fields[2])
               case Get => EngineResult(TableOf(s, e), 0)
               case Del => RunDel(e, TableOf(s, e), fields[1])
               case Mod => RunMod(TableOf(s, e), fields[1], fields[2])
               case Exist => RunExist(TableOf(s, e), fields[1])
  {
    hide RunSet, RunDel, RunMod, RunExist;
  }

  // -------------------------------------------------------------------- commands

  /** GET answers the stored value as a bulk string, and nil exactly for an unbound key. */
  lemma GetReplies(p: Process, e: Engine, key: ByteString, save: Option<ByteString>)
    requires NulFree(key) && Serving(p)
    ensures var t := TableOf(p.stores, e);
            Execute(p, [Name(e, Get), key], save)
            == Executed(p, if key in t then [36] + Decimal(|t[key]|) + CRLF + t[key] + CRLF else NIL_REPLY)
  {
    hide FindCommand, Name, CommandName, Filter, Decimal;
    TextPair(e, Get, key);
    ReachesEngine(p, e, Get, [Name(e, Get), key], save);
  }

  /** SET answers +OK and binds the key; a Replica, and a full array for a new key, refuse it. */
  lemma SetReplies(p: Process, e: Engine, key: ByteString, value: ByteString, save: Option<ByteString>)
    requires NulFree(key) && NulFree(value) && Serving(p)
    ensures var fields := [Name(e, Set), key, value];
            var x := Execute(p, fields, save);
            if Writable(p) && !NoRoom(p.stores, e, key) then
              x.reply == OK_REPLY && Wrote(p, x.process, e, TableOf(p.stores, e)[key := value], fields)
            else x == Executed(p, SET_ERROR)
  {
    hide FindCommand, Name, CommandName, EncodeCommand, Ascii, Execute, ExecuteEngine, RunVerb, CommandId;
    TextTriple(e, Set, key, value);
    ReachesEngine(p, e, Set, [Name(e, Set), key, value], save);
    EngineStep(p, e, Set, [Name(e, Set), key, value]);
    VerbStep(p.stores, e, Set, [Name(e, Set), key, value]);
    SameTable(p.stores, e);
  }

  /** DEL answers whether the key was bound, and removes it; the hash engine calls a missing key
      an error. */
  lemma DelReplies(p: Process, e: Engine, key: ByteString, save: Option<ByteString>)
    requires NulFree(key) && Serving(p)
    ensures var fields := [Name(e, Del), key];
            var x := Execute(p, fields, save);
            var t := TableOf(p.stores, e);
            if Writable(p) && key in t then
              x.reply == ONE_REPLY && Wrote(p, x.process, e, map k | k in t && k != key :: t[k], fields)
            else if Writable(p) && !e.HashEngine? then x == Executed(p, ZERO_REPLY)
            else x == Executed(p, DEL_ERROR)
  {
    hide FindCommand, Name, CommandName, EncodeCommand, Ascii, Execute, ExecuteEngine, RunVerb, CommandId;
    TextPair(e, Del, key);
    ReachesEngine(p, e, Del, [Name(e, Del), key], save);
    EngineStep(p, e, Del, [Name(e, Del), key]);
    VerbStep(p.stores, e, Del, [Name(e, Del), key]);
    SameTable(p.stores, e);
    var t := TableOf(p.stores, e);
    assert t - {key} == map k | k in t && k != key :: t[k];
  }

  /** MOD answers +OK and changes a bound key; an unbound one is an error. */
  lemma ModReplies(p: Process, e: Engine, key: ByteString, value: ByteString, save: Option<ByteString>)
    requires NulFree(key) && NulFree(value) && Serving(p)
    ensures var fields := [Name(e, Mod), key, value];
            var x := Execute(p, fields, save);
            if Writable(p) && key in TableOf(p.stores, e) then
              x.reply == OK_REPLY && Wrote(p, x.process, e, TableOf(p.stores, e)[key := value], fields)
            else if Writable(p) then x == Executed(p, MISSING_ERROR)
            else x == Executed(p, MOD_ERROR)
  {
    hide FindCommand, Name, CommandName, EncodeCommand, Ascii, Execute, ExecuteEngine, RunVerb, CommandId;
    TextTriple(e, Mod, key, value);
    ReachesEngine(p, e, Mod, [Name(e, Mod), key, value], save);
    EngineStep(p, e, Mod, [Name(e, Mod), key, value]);
    VerbStep(p.stores, e, Mod, [Name(e, Mod), key, value]);
    SameTable(p.stores, e);
  }

  /** EXIST answers whether the key is bound. */
  lemma ExistReplies(p: Process, e: Engine, key: ByteString, save: Option<ByteString>)
    requires NulFree(key) && Serving(p)
    ensures Execute(p, [Name(e, Exist), key], save)
            == Executed(p, if key in TableOf(p.stores, e) then ONE_REPLY else ZERO_REPLY)
  {
    hide FindCommand, Name, CommandName, EncodeCommand, Ascii, Execute, ExecuteEngine, RunVerb, CommandId;
    TextPair(e, Exist, key);
    ReachesEngine(p, e, Exist, [Name(e, Exist), key], save);
    EngineStep(p, e, Exist, [Name(e, Exist), key]);
    VerbStep(p.stores, e, Exist, [Name(e, Exist), key]);
    SameTable(p.stores, e);
  }

  // -------------------------------------------------------------------- the rest

  /** SAVE answers +OK exactly when the saved file has replaced the snapshot. */
  lemma SaveReplies(p: Process, save: Option<ByteString>)
    requires Serving(p)
    ensures var x := Execute(p, [SAVE_NAME], save);
            if save.Some? && !p.mode.AofMode? then x == Executed(p.(snapshot := save), OK_REPLY)
            else x == Executed(p, SAVE_ERROR)
  {
    hide ExecuteEngine;
    assert SAVE_NAME[0] == 83 && PING_NAME[0] == 80;
    AsciiText("SAVE");
    hide Ascii;
    assert !HasNul([SAVE_NAME]);
  }

  /** PING is answered by every server, in every state. */
  lemma PingReplies(p: Process, save: Option<ByteString>)
    ensures Execute(p, [PING_NAME], save) == Executed(p, PONG_REPLY)
  {
    hide ExecuteEngine;
    AsciiText("PING");
    assert !HasNul([PING_NAME]);
  }

  /** What is refused, and that nothing changes then: NUL bytes, everything but PING on a Replica
      that is not online, a wrong number of fields, and a name that is no command. */
  lemma NulReplies(p: Process, fields: Fields, save: Option<ByteString>)
    requires fields != [] && HasNul(fields)
    ensures Execute(p, fields, save) == Executed(p, NUL_ERROR)
  {
    hide ExecuteEngine, HasNul, Ascii;
  }

  lemma LoadingReplies(p: Process, fields: Fields, save: Option<ByteString>)
    requires fields != [] && !HasNul(fields) && fields[0] != PING_NAME && !Serving(p)
    ensures Execute(p, fields, save)
            == Executed(p, LOADING_REPLY)
  {
    hide ExecuteEngine, HasNul, Ascii;
  }

  lemma PingArityReplies(p: Process, fields: Fields, save: Option<ByteString>)
    requires |fields| > 1 && !HasNul(fields) && fields[0] == PING_NAME
    ensures Execute(p, fields, save) == Executed(p, PING_ARITY_ERROR)
  {
    hide ExecuteEngine, HasNul, Ascii;
  }

  lemma SaveArityReplies(p: Process, fields: Fields, save: Option<ByteString>)
    requires |fields| > 1 && !HasNul(fields) && fields[0] == SAVE_NAME && Serving(p)
    ensures Execute(p, fields, save) == Executed(p, SAVE_ARITY_ERROR)
  {
    hide ExecuteEngine, HasNul;
    assert SAVE_NAME[0] == 83 && PING_NAME[0] == 80;
    hide Ascii;
  }

  lemma EngineRefuses(p: Process, fields: Fields)
    requires fields != []
    ensures var id := FindCommand(fields[0], 0);
            && (id == COMMAND_COUNT ==> ExecuteEngine(p, fields) == Executed(p, UNKNOWN_ERROR))
            && (id < COMMAND_COUNT && |fields| != Arity(id) ==>
                  ExecuteEngine(p, fields) == Executed(p, ARITY_ERROR + fields[0] + CRLF))
  {
    hide FindCommand, CommandName, Filter, EncodeField, Ascii;
  }

  lemma ArityReplies(p: Process, e: Engine, v: Verb, fields: Fields, save: Option<ByteString>)
    requires fields != [] && !HasNul(fields) && Serving(p)
    requires fields[0] == Name(e, v) && |fields| != (if v.Set? || v.Mod? then 3 else 2)
    ensures Execute(p, fields, save) == Executed(p, ARITY_ERROR + fields[0] + CRLF)
  {
    hide FindCommand, Name, CommandName, Ascii, HasNul, Execute, ExecuteEngine;
    ReachesEngine(p, e, v, fields, save);
    EngineRefuses(p, fields);
  }

  lemma FoundName(name: ByteString)
    ensures FindCommand(name, 0) < COMMAND_COUNT ==> exists e, v :: name == Name(e, v)
  {
    hide Name, CommandName;
    var id := FindCommand(name, 0);
    if id < COMMAND_COUNT {
      NameOf(id);
      assert name == Name(EngineOf(id), VerbOf(id));
    }
  }

  lemma UnknownReplies(p: Process, fields: Fields, save: Option<ByteString>)
    requires fields != [] && !HasNul(fields) && Serving(p)
    requires fields[0] != PING_NAME && fields[0] != SAVE_NAME && forall e, v :: fields[0] != Name(e, v)
    ensures Execute(p, fields, save) == Executed(p, UNKNOWN_ERROR)
  {
    hide FindCommand, Name, CommandName, Ascii, HasNul, ExecuteEngine;
    FoundName(fields[0]);
    EngineRefuses(p, fields);
  }

  // ------------------------------------------------------------- on the wire

  /** A canonical command within the limits is executed, whatever follows it. */
  lemma CommandServed(p: Process, fields: Fields, rest: ByteString, save: Saver)
    requires 0 < |fields| <= MAX_TOKENS && |EncodeCommand(fields)| <= MAX_CLIENT_COMMAND_BYTES
    ensures var x := Execute(p, fields, save(p));
            var s := Serve(x.process, rest, save);
            Serve(p, EncodeCommand(fields) + rest, save) == Served(s.process, x.reply + s.replies, s.rest, s.rejected)
  {
    hide EncodeCommand, ParseCommand, Execute;
    RoundTrip(fields, rest, MAX_TOKENS, MAX_CLIENT_COMMAND_BYTES);
    EncodedNonEmpty(fields);
    ServeStep(p, EncodeCommand(fields) + rest, save);
  }

  /** A value that was set is the value that a later GET is answered. */
  lemma SetThenGet(p: Process, e: Engine, key: ByteString, value: ByteString, save: Saver)
    requires NulFree(key) && NulFree(value) && Writable(p) && !NoRoom(p.stores, e, key)
    requires |EncodeCommand([Name(e, Set), key, value])| <= MAX_CLIENT_COMMAND_BYTES
    requires |EncodeCommand([Name(e, Get), key])| <= MAX_CLIENT_COMMAND_BYTES
    ensures var input := EncodeCommand([Name(e, Set), key, value]) + EncodeCommand([Name(e, Get), key]);
            var s := Serve(p, input, save);
            && s.replies == OK_REPLY + ([36] + Decimal(|value|) + CRLF + value + CRLF)
            && s.rest == [] && !s.rejected
  {
    hide EncodeCommand, Execute, Name, Ascii, Decimal, Serve;
    var write, read := [Name(e, Set), key, value], [Name(e, Get), key];
    SetReplies(p, e, key, value, save(p));
    CommandServed(p, write, EncodeCommand(read), save);
    var q := Execute(p, write, save(p)).process;
    GetReplies(q, e, key, save(q));
    CommandServed(q, read, [], save);
    assert EncodeCommand(read) + [] == EncodeCommand(read);
    ServeStep(q, [], save);
    assert Execute(q, read, save(q)).reply + [] == Execute(q, read, save(q)).reply;
  }

  /** Input that cannot become a command is answered by one error and dropped as a whole; a
      command that has not arrived completely is waited for. */
  lemma RequestErrors(p: Process, input: ByteString, save: Option<ByteString>)
    requires input != []
    ensures var v := ParseCommand(input, MAX_TOKENS, MAX_CLIENT_COMMAND_BYTES);
            && (v.Malformed? || (v.Incomplete? && |input| >= 1024 * 1024) ==>
                  HandleInput(p, input, save)
                  == Server.Handled(p, REQUEST_ERROR, |input|))
            && (v.Incomplete? && |input| < 1024 * 1024 ==> HandleInput(p, input, save) == Server.Handled(p, [], 0))
  {
    hide ParseCommand, Execute;
  }
}
