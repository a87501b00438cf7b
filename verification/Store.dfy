/** The four storage engines behind their common command table (src/kvstore.c,
    src/engines/): each engine is a finite map, and every command is deterministic. */
module Store {
  import opened Bytes

  /** No key, value or command name contains a NUL byte: fields become C strings. */
  predicate NulFree(s: ByteString) {
    forall i :: 0 <= i < |s| ==> s[i] != 0
  }

  function Ascii(s: string): (b: ByteString)
    requires forall i :: 0 <= i < |s| ==> s[i] < 128 as char
    ensures |b| == |s|
  {
    seq(|s|, i requires 0 <= i < |s| => s[i] as int)
  }

  type Table = map<ByteString, ByteString>

  datatype Engine = ArrayEngine | TreeEngine | HashEngine | SkipEngine
  datatype Verb = Set | Get | Del | Mod | Exist
  datatype Stores = Stores(arrayTable: Table, treeTable: Table, hashTable: Table, skipTable: Table)

  const EMPTY: Stores := Stores(map[], map[], map[], map[])

  /** Capacity of the array engine. */
  const ARRAY_SIZE: nat := 1024

  function TableOf(s: Stores, e: Engine): Table {
    match e
    case ArrayEngine => s.arrayTable
    case TreeEngine => s.treeTable
    case HashEngine => s.hashTable
    case SkipEngine => s.skipTable
  }

  function WithTable(s: Stores, e: Engine, t: Table): (s': Stores)
    ensures TableOf(s', e) == t
    ensures forall e' :: e' != e ==> TableOf(s', e') == TableOf(s, e')
  {
    match e
    case ArrayEngine => s.(arrayTable := t)
    case TreeEngine => s.(treeTable := t)
    case HashEngine => s.(hashTable := t)
    case SkipEngine => s.(skipTable := t)
  }

  // ------------------------------------------------------- the command table

  const COMMAND_COUNT: nat := 20

  function EngineOf(id: nat): Engine
    requires id < COMMAND_COUNT
  {
    if id / 5 == 0 then ArrayEngine
    else if id / 5 == 1 then TreeEngine
    else if id / 5 == 2 then HashEngine
    else SkipEngine
  }

  function VerbOf(id: nat): Verb
    requires id < COMMAND_COUNT
  {
    if id % 5 == 0 then Set
    else if id % 5 == 1 then Get
    else if id % 5 == 2 then Del
    else if id % 5 == 3 then Mod
    else Exist
  }

  function CommandName(id: nat): ByteString
    requires id < COMMAND_COUNT
  {
    var prefix := match EngineOf(id)
                  case ArrayEngine => []
                  case TreeEngine => Ascii("R")
                  case HashEngine => Ascii("H")
                  case SkipEngine => Ascii("S");
    var verb := match VerbOf(id)
                case Set => Ascii("SET")
                case Get => Ascii("GET")
                case Del => Ascii("DEL")
                case Mod => Ascii("MOD")
                case Exist => Ascii("EXIST");
    prefix + verb
  }

  /** The search through the name table; `COMMAND_COUNT` when the name is unknown. */
  function FindCommand(name: ByteString, from: nat): (id: nat)
    requires from <= COMMAND_COUNT
    ensures from <= id <= COMMAND_COUNT
    ensures id < COMMAND_COUNT ==> CommandName(id) == name
    decreases COMMAND_COUNT - from
  {
    if from == COMMAND_COUNT || CommandName(from) == name then from else FindCommand(name, from + 1)
  }

  predicate IsWrite(id: nat)
    requires id < COMMAND_COUNT
  {
    VerbOf(id).Set? || VerbOf(id).Del? || VerbOf(id).Mod?
  }

  function Arity(id: nat): nat
    requires id < COMMAND_COUNT
  {
    if VerbOf(id).Set? || VerbOf(id).Mod? then 3 else 2
  }

  // ----------------------------------------------------------- engine results

  /** Return codes of the engines: negative is an error, 0 success, positive a refusal. */
  datatype EngineResult = EngineResult(table: Table, code: int)

  function RunSet(e: Engine, t: Table, key: ByteString, value: ByteString): EngineResult {
    if key in t then EngineResult(t[key := value], 0)
    else if e.ArrayEngine? && |t| >= ARRAY_SIZE then EngineResult(t, -1)
    else EngineResult(t[key := value], 0)
  }

  /** Only the hash engine reports a missing key as an error. */
  function RunDel(e: Engine, t: Table, key: ByteString): EngineResult {
    if key in t then EngineResult(t - {key}, 0)
    else EngineResult(t, if e.HashEngine? then -1 else 1)
  }

  function RunMod(t: Table, key: ByteString, value: ByteString): EngineResult {
    if key in t then EngineResult(t[key := value], 0) else EngineResult(t, 1)
  }

  function RunExist(t: Table, key: ByteString): EngineResult {
    EngineResult(t, if key in t then 0 else 1)
  }

  function RunVerb(s: Stores, id: nat, fields: seq<ByteString>): EngineResult
    requires id < COMMAND_COUNT && |fields| == Arity(id)
  {
    var e := EngineOf(id);
    var t := TableOf(s, e);
    match VerbOf(id)
    case Set => RunSet(e, t, fields[1], fields[2])
    case Get => EngineResult(t, 0)
    case Del => RunDel(e, t, fields[1])
    case Mod => RunMod(t, fields[1], fields[2])
    case Exist => RunExist(t, fields[1])
  }

  // ------------------------------------------------- the effect of one command

  datatype Option<+T> = None | Some(value: T)

  predicate WellFormed(fields: seq<ByteString>) {
    && |fields| > 0
    && (forall i :: 0 <= i < |fields| ==> NulFree(fields[i]))
    && var id := FindCommand(fields[0], 0);
       id < COMMAND_COUNT && IsWrite(id) && |fields| == Arity(id)
  }

  /** The stores after a write command that succeeded; None when it is no write command or
      does not succeed. Exactly the commands with a result enter the log. */
  function Apply(s: Stores, fields: seq<ByteString>): (r: Option<Stores>)
    ensures r.Some? ==> 2 <= |fields| <= 3
  {
    if !WellFormed(fields) then None
    else
      var id := FindCommand(fields[0], 0);
      var r := RunVerb(s, id, fields);
      if r.code == 0 then Some(WithTable(s, EngineOf(id), r.table)) else None
  }

  /** A log of commands applied in order, all of which must succeed. */
  function ApplyAll(s: Stores, log: seq<seq<ByteString>>): Option<Stores>
  {
    if log == [] then Some(s)
    else
      match ApplyAll(s, log[..|log| - 1])
      case None => None
      case Some(s') => Apply(s', log[|log| - 1])
  }

  lemma {:induction false} ApplyAllAppend(s: Stores, a: seq<seq<ByteString>>, b: seq<seq<ByteString>>)
    requires ApplyAll(s, a).Some?
    ensures ApplyAll(s, a + b) == ApplyAll(ApplyAll(s, a).value, b)
    decreases |b|
  {
    if b == [] {
      assert a + b == a;
    } else {
      ApplyAllAppend(s, a, b[..|b| - 1]);
      assert (a + b)[..|a + b| - 1] == a + b[..|b| - 1];
    }
  }

  /** Every prefix of a log that succeeds also succeeds. */
  lemma {:induction false} ApplyAllPrefix(s: Stores, log: seq<seq<ByteString>>, k: nat)
    requires k <= |log| && ApplyAll(s, log).Some?
    ensures ApplyAll(s, log[..k]).Some?
    decreases |log| - k
  {
    if k < |log| {
      ApplyAllPrefix(s, log, k + 1);
      assert log[..k + 1][..k] == log[..k];
    } else {
      assert log[..k] == log;
    }
  }

  /** One more command of a successful log. */
  lemma ApplyAllNext(s: Stores, log: seq<seq<ByteString>>, k: nat)
    requires k < |log| && ApplyAll(s, log).Some?
    ensures ApplyAll(s, log[..k]).Some? && ApplyAll(s, log[..k + 1]).Some?
    ensures Apply(ApplyAll(s, log[..k]).value, log[k]) == ApplyAll(s, log[..k + 1])
  {
    ApplyAllPrefix(s, log, k);
    ApplyAllPrefix(s, log, k + 1);
    assert log[..k + 1][..k] == log[..k];
  }

  /** The array engine never outgrows its fixed table. */
  lemma {:induction false} ArrayBounded(s: Stores, log: seq<seq<ByteString>>)
    requires |s.arrayTable| <= ARRAY_SIZE && ApplyAll(s, log).Some?
    ensures |ApplyAll(s, log).value.arrayTable| <= ARRAY_SIZE
    decreases |log|
  {
    hide Apply;
    if log != [] {
      ArrayBounded(s, log[..|log| - 1]);
      OneMoreBounded(ApplyAll(s, log[..|log| - 1]).value, log[|log| - 1]);
    }
  }

  lemma OneMoreBounded(s: Stores, fields: seq<ByteString>)
    requires |s.arrayTable| <= ARRAY_SIZE && Apply(s, fields).Some?
    ensures |Apply(s, fields).value.arrayTable| <= ARRAY_SIZE
  {
    hide FindCommand, CommandName, NulFree;
    var t := s.arrayTable;
    if |fields| > 1 && fields[1] in t {
      assert (t - {fields[1]}).Keys == t.Keys - {fields[1]};
      assert |(t - {fields[1]}).Keys| == |t.Keys| - 1;
    }
  }

  // ------------------------------------------- what the commands of each engine do

  /** The place of a command in the table. */
  function CommandId(e: Engine, v: Verb): (id: nat)
    ensures id < COMMAND_COUNT && EngineOf(id) == e && VerbOf(id) == v
  {
    var row := match e case ArrayEngine => 0 case TreeEngine => 5 case HashEngine => 10 case SkipEngine => 15;
    var column := match v case Set => 0 case Get => 1 case Del => 2 case Mod => 3 case Exist => 4;
    row + column
  }

  lemma IdOfParts(id: nat)
    requires id < COMMAND_COUNT
    ensures CommandId(EngineOf(id), VerbOf(id)) == id
  {
  }

  /** The name as clients write it. */
  function Name(e: Engine, v: Verb): ByteString {
    CommandName(CommandId(e, v))
  }

  lemma Joined(a: string, b: string, c: string)
    requires forall i :: 0 <= i < |a| ==> a[i] < 128 as char
    requires forall i :: 0 <= i < |b| ==> b[i] < 128 as char
    requires c == a + b
    ensures Ascii(a) + Ascii(b) == Ascii(c)
  {
  }

  lemma ArrayNames()
    ensures Name(ArrayEngine, Set) == Ascii("SET") && Name(ArrayEngine, Get) == Ascii("GET")
    ensures Name(ArrayEngine, Del) == Ascii("DEL") && Name(ArrayEngine, Mod) == Ascii("MOD")
    ensures Name(ArrayEngine, Exist) == Ascii("EXIST")
  {
    hide Ascii;
    Unprefixed(Ascii("SET"));
    Unprefixed(Ascii("GET"));
    Unprefixed(Ascii("DEL"));
    Unprefixed(Ascii("MOD"));
    Unprefixed(Ascii("EXIST"));
  }

  lemma Unprefixed(s: ByteString)
    ensures [] + s == s
  {
  }

  lemma TreeNames()
    ensures Name(TreeEngine, Set) == Ascii("RSET")
    ensures Name(TreeEngine, Get) == Ascii("RGET")
    ensures Name(TreeEngine, Del) == Ascii("RDEL")
    ensures Name(TreeEngine, Mod) == Ascii("RMOD")
    ensures Name(TreeEngine, Exist) == Ascii("REXIST")
  {
    hide Ascii;
    Joined("R", "SET", "RSET");
    Joined("R", "GET", "RGET");
    Joined("R", "DEL", "RDEL");
    Joined("R", "MOD", "RMOD");
    Joined("R", "EXIST", "REXIST");
  }

  lemma HashNames()
    ensures Name(HashEngine, Set) == Ascii("HSET")
    ensures Name(HashEngine, Get) == Ascii("HGET")
    ensures Name(HashEngine, Del) == Ascii("HDEL")
    ensures Name(HashEngine, Mod) == Ascii("HMOD")
    ensures Name(HashEngine, Exist) == Ascii("HEXIST")
  {
    hide Ascii;
    Joined("H", "SET", "HSET");
    Joined("H", "GET", "HGET");
    Joined("H", "DEL", "HDEL");
    Joined("H", "MOD", "HMOD");
    Joined("H", "EXIST", "HEXIST");
  }

  lemma SkipNames()
    ensures Name(SkipEngine, Set) == Ascii("SSET")
    ensures Name(SkipEngine, Get) == Ascii("SGET")
    ensures Name(SkipEngine, Del) == Ascii("SDEL")
    ensures Name(SkipEngine, Mod) == Ascii("SMOD")
    ensures Name(SkipEngine, Exist) == Ascii("SEXIST")
  {
    hide Ascii;
    Joined("S", "SET", "SSET");
    Joined("S", "GET", "SGET");
    Joined("S", "DEL", "SDEL");
    Joined("S", "MOD", "SMOD");
    Joined("S", "EXIST", "SEXIST");
  }

  /** Length, engine letter and verb letter of a name. */
  lemma NameShape(id: nat)
    requires id < COMMAND_COUNT
    ensures var n, e, v := CommandName(id), EngineOf(id), VerbOf(id);
            var first: nat := if e.ArrayEngine? then 0 else 1;
            && |n| == first + (if v.Exist? then 5 else 3)
            && (e.TreeEngine? ==> n[0] == 82) && (e.HashEngine? ==> n[0] == 72) && (e.SkipEngine? ==> n[0] == 83)
            && n[first] == match v case Set => 83 case Get => 71 case Del => 68 case Mod => 77 case Exist => 69
  {
    assert Ascii("R")[0] == 82 && Ascii("H")[0] == 72 && Ascii("S")[0] == 83;
    assert Ascii("SET")[0] == 83 && Ascii("GET")[0] == 71 && Ascii("DEL")[0] == 68 && Ascii("MOD")[0] == 77;
    assert Ascii("EXIST")[0] == 69;
  }

  lemma NamesDiffer(i: nat, j: nat)
    requires i < COMMAND_COUNT && j < COMMAND_COUNT && CommandName(i) == CommandName(j)
    ensures i == j
  {
    hide CommandName;
    NameShape(i);
    NameShape(j);
    IdOfParts(i);
    IdOfParts(j);
  }

  /** The search through the table finds each command. */
  lemma {:induction false} NameFound(id: nat, from: nat)
    requires from <= id < COMMAND_COUNT
    ensures FindCommand(CommandName(id), from) == id
    decreases id - from
  {
    hide CommandName;
    if from < id {
      if CommandName(from) == CommandName(id) {
        NamesDiffer(from, id);
      }
      NameFound(id, from + 1);
    }
  }

  lemma AsciiText(s: string)
    requires forall i :: 0 <= i < |s| ==> 0 as char < s[i] < 128 as char
    ensures NulFree(Ascii(s))
  {
  }

  lemma NamesNulFree(id: nat)
    requires id < COMMAND_COUNT
    ensures NulFree(CommandName(id))
  {
    AsciiText("R");
    AsciiText("H");
    AsciiText("S");
    AsciiText("SET");
    AsciiText("GET");
    AsciiText("DEL");
    AsciiText("MOD");
    AsciiText("EXIST");
    hide Ascii;
  }

  lemma NameIsText(e: Engine, v: Verb)
    ensures NulFree(Name(e, v)) && FindCommand(Name(e, v), 0) == CommandId(e, v) && Name(e, v) != []
  {
    NameFound(CommandId(e, v), 0);
    NameShape(CommandId(e, v));
    NamesNulFree(CommandId(e, v));
    hide FindCommand, CommandName, NulFree;
  }

  /** Nothing but the table of one engine changed. */
  predicate OnlyTable(before: Stores, after: Stores, e: Engine, t: Table) {
    TableOf(after, e) == t && forall e' :: e' != e ==> TableOf(after, e') == TableOf(before, e')
  }

  /** The array engine is full and would need one more place. */
  predicate NoRoom(s: Stores, e: Engine, key: ByteString) {
    e.ArrayEngine? && key !in s.arrayTable && |s.arrayTable| >= ARRAY_SIZE
  }

  /** SET binds the key in its own engine, new or not; it fails exactly for a new key in a full
      array. */
  lemma SetBinds(s: Stores, e: Engine, key: ByteString, value: ByteString)
    requires NulFree(key) && NulFree(value)
    ensures var r := Apply(s, [Name(e, Set), key, value]);
            && (r.None? <==> NoRoom(s, e, key))
            && (r.Some? ==> OnlyTable(s, r.value, e, TableOf(s, e)[key := value]))
  {
    hide FindCommand, Name, CommandName;
    NameIsText(e, Set);
  }

  /** DEL removes exactly the key; without it, it does not succeed. */
  lemma DelRemoves(s: Stores, e: Engine, key: ByteString)
    requires NulFree(key)
    ensures var r := Apply(s, [Name(e, Del), key]);
            && (r.Some? <==> key in TableOf(s, e))
            && (r.Some? ==> OnlyTable(s, r.value, e, map k | k in TableOf(s, e) && k != key :: TableOf(s, e)[k]))
  {
    hide FindCommand, Name, CommandName;
    NameIsText(e, Del);
    var t := TableOf(s, e);
    assert t - {key} == map k | k in t && k != key :: t[k];
  }

  /** MOD changes an existing key and nothing else. */
  lemma ModChanges(s: Stores, e: Engine, key: ByteString, value: ByteString)
    requires NulFree(key) && NulFree(value)
    ensures var r := Apply(s, [Name(e, Mod), key, value]);
            && (r.Some? <==> key in TableOf(s, e))
            && (r.Some? ==> OnlyTable(s, r.value, e, TableOf(s, e)[key := value]))
  {
    hide FindCommand, Name, CommandName;
    NameIsText(e, Mod);
  }

  /** GET and EXIST are no writes, and neither is any other name: they never enter the log. */
  lemma OnlyWritesApply(s: Stores, fields: seq<ByteString>)
    ensures Apply(s, fields).Some? ==>
              && |fields| > 0
              && exists e :: fields[0] == Name(e, Set) || fields[0] == Name(e, Del) || fields[0] == Name(e, Mod)
  {
    hide Name;
    if Apply(s, fields).Some? {
      var id := FindCommand(fields[0], 0);
      IdOfParts(id);
      NameOf(id);
      hide FindCommand;
      assert IsWrite(id);
    }
  }

  lemma NameOf(id: nat)
    requires id < COMMAND_COUNT
    ensures CommandName(id) == Name(EngineOf(id), VerbOf(id))
  {
    hide CommandName;
    IdOfParts(id);
  }
}
