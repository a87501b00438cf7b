/** The connection loop of a client (server_reader in src/network/ntyco.c): receive, execute
    every complete command, send the replies, receive again. */
module Reader {
  import opened Bytes
  import opened Codec
  import opened Store
  import opened Server
  import opened Buffers

  const REPLY_BATCH_THRESHOLD: nat := 64 * 1024

  /** What a SAVE writes in a given state, None when it fails. */
  type Saver = Process -> Option<ByteString>

  // ------------------------------------------------------ serving a byte stream

  datatype Served = Served(process: Process, replies: ByteString, rest: ByteString, rejected: bool)

  /** The input is refused as a whole: malformed, or too long to become a command. */
  predicate Rejected(input: ByteString) {
    var v := ParseCommand(input, MAX_TOKENS, MAX_CLIENT_COMMAND_BYTES);
    v.Malformed? || (v.Incomplete? && |input| >= MAX_CLIENT_COMMAND_BYTES)
  }

  /** Executing everything that is complete. */
  function Serve(p: Process, input: ByteString, save: Saver): Served
    decreases |input|
  {
    var h := HandleInput(p, input, save(p));
    if h.consumed == 0 then Served(p, [], input, false)
    else
      var r := Serve(h.process, input[h.consumed..], save);
      Served(r.process, h.reply + r.replies, r.rest, Rejected(input) || r.rejected)
  }

  lemma HandleStable(p: Process, a: ByteString, b: ByteString, save: Option<ByteString>)
    requires ParseCommand(a, MAX_TOKENS, MAX_CLIENT_COMMAND_BYTES).Complete?
    ensures var n := HandleInput(p, a, save).consumed;
            && 0 < n <= |a| && HandleInput(p, a + b, save) == HandleInput(p, a, save) && (a + b)[n..] == a[n..] + b
            && !Rejected(a) && !Rejected(a + b)
  {
    hide ParseCommand, Execute;
    VerdictStable(a, b, MAX_TOKENS, MAX_CLIENT_COMMAND_BYTES);
    CompleteBounds(a);
  }

  lemma CompleteBounds(a: ByteString)
    requires ParseCommand(a, MAX_TOKENS, MAX_CLIENT_COMMAND_BYTES).Complete?
    ensures var v := ParseCommand(a, MAX_TOKENS, MAX_CLIENT_COMMAND_BYTES);
            0 < v.next <= |a| && v.value != [] && a != []
  {
    var count, nums := AcceptedIsWire(a, MAX_TOKENS, MAX_CLIENT_COMMAND_BYTES);
  }

  lemma RejectedStays(a: ByteString, b: ByteString)
    requires a != [] && Rejected(a)
    ensures Rejected(a + b)
  {
    hide ParseCommand;
    if ParseCommand(a, MAX_TOKENS, MAX_CLIENT_COMMAND_BYTES).Malformed? {
      VerdictStable(a, b, MAX_TOKENS, MAX_CLIENT_COMMAND_BYTES);
    } else {
      FullBufferNeverCompletes(a, b, MAX_TOKENS, MAX_CLIENT_COMMAND_BYTES);
    }
  }

  lemma HandleWaits(p: Process, a: ByteString, save: Option<ByteString>)
    requires !ParseCommand(a, MAX_TOKENS, MAX_CLIENT_COMMAND_BYTES).Complete? && (a == [] || !Rejected(a))
    ensures HandleInput(p, a, save) == Handled(p, [], 0)
  {
    hide ParseCommand, Execute;
  }

  lemma ServeRejected(p: Process, input: ByteString, save: Saver)
    requires input != [] && Rejected(input)
    ensures Serve(p, input, save).rejected
  {
    hide ParseCommand;
  }

  /** Serving in two pieces is serving at once, wherever the stream is cut: as long as nothing
      in it is refused. */
  lemma {:induction false} ServeSplit(p: Process, a: ByteString, b: ByteString, save: Saver)
    requires !Serve(p, a + b, save).rejected
    ensures var first := Serve(p, a, save);
            var second := Serve(first.process, first.rest + b, save);
            && !first.rejected && !second.rejected
            && Serve(p, a + b, save) == Served(second.process, first.replies + second.replies, second.rest, false)
    decreases |a|
  {
    hide ParseCommand, Execute, HandleInput, Rejected, Serve;
    ServeStep(p, a, save);
    ServeStep(p, a + b, save);
    if ParseCommand(a, MAX_TOKENS, MAX_CLIENT_COMMAND_BYTES).Complete? {
      HandleStable(p, a, b, save(p));
      CompleteBounds(a);
      var h := HandleInput(p, a, save(p));
      ServeSplit(h.process, a[h.consumed..], b, save);
      var more := Serve(h.process, a[h.consumed..], save);
      var second := Serve(more.process, more.rest + b, save);
      assert h.reply + (more.replies + second.replies) == h.reply + more.replies + second.replies;
    } else {
      if a != [] && Rejected(a) {
        RejectedStays(a, b);
        ServeRejected(p, a + b, save);
      } else {
        HandleWaits(p, a, save(p));
        assert [] + Serve(p, a + b, save).replies == Serve(p, a + b, save).replies;
      }
    }
  }

  // ----------------------------------------------------- one command at a time

  /** A command as a client may write it: any numerals, within the two limits. */
  datatype Wire = Wire(count: ByteString, nums: seq<ByteString>, fields: Fields)

  predicate WithinLimits(w: Wire) {
    && NumeralsFit(w.count, w.nums, w.fields) && w.fields != [] && |w.fields| <= MAX_TOKENS
    && |CommandWire(w.count, w.nums, w.fields)| <= MAX_CLIENT_COMMAND_BYTES
  }

  function WireBytes(w: Wire): ByteString {
    if NumeralsFit(w.count, w.nums, w.fields) then CommandWire(w.count, w.nums, w.fields) else []
  }

  function StreamBytes(ws: seq<Wire>): ByteString {
    if ws == [] then [] else WireBytes(ws[0]) + StreamBytes(ws[1..])
  }

  /** Executing the commands one after the other. */
  function OneByOne(p: Process, ws: seq<Wire>, save: Saver): Executed
    requires forall i :: 0 <= i < |ws| ==> ws[i].fields != []
    decreases |ws|
  {
    if ws == [] then Executed(p, [])
    else
      var e := Execute(p, ws[0].fields, save(p));
      var rest := OneByOne(e.process, ws[1..], save);
      Executed(rest.process, e.reply + rest.reply)
  }

  /** A stream of commands within the limits: none is refused, all are executed in order, each
      on its own, and nothing is left over. */
  lemma {:induction false} ServeIsOneByOne(p: Process, ws: seq<Wire>, save: Saver)
    requires forall i :: 0 <= i < |ws| ==> WithinLimits(ws[i]) && ws[i].fields != []
    ensures var e := OneByOne(p, ws, save); Serve(p, StreamBytes(ws), save) == Served(e.process, e.reply, [], false)
    decreases |ws|
  {
    hide ParseCommand, Execute, WireBytes, NumeralsFit, CommandWire;
    if ws != [] {
      var w := ws[0];
      var rest := StreamBytes(ws[1..]);
      WireServed(p, w, rest, save);
      var e := Execute(p, w.fields, save(p));
      ServeIsOneByOne(e.process, ws[1..], save);
    }
  }

  lemma WireServed(p: Process, w: Wire, rest: ByteString, save: Saver)
    requires WithinLimits(w)
    ensures var input := WireBytes(w) + rest;
            && HandleInput(p, input, save(p))
              == Handled(Execute(p, w.fields, save(p)).process, Execute(p, w.fields, save(p)).reply, |WireBytes(w)|)
            && |WireBytes(w)| > 0 && input[|WireBytes(w)|..] == rest && !Rejected(input)
  {
    hide ParseCommand, Execute, IsNumeral;
    WireAccepted(w.count, w.nums, w.fields, rest, MAX_TOKENS, MAX_CLIENT_COMMAND_BYTES);
    CompleteBounds(WireBytes(w) + rest);
  }

  /** Any two ways of cutting the same commands into pieces give the same state and replies;
      in particular a command may be cut anywhere. */
  lemma CutAnywhere(p: Process, ws: seq<Wire>, cut: nat, save: Saver)
    requires (forall i :: 0 <= i < |ws| ==> WithinLimits(ws[i]) && ws[i].fields != []) && cut <= |StreamBytes(ws)|
    ensures var s := StreamBytes(ws);
            var e := OneByOne(p, ws, save);
            var first := Serve(p, s[..cut], save);
            var second := Serve(first.process, first.rest + s[cut..], save);
            e == Executed(second.process, first.replies + second.replies) && second.rest == []
  {
    hide Serve, OneByOne, NumeralsFit, CommandWire;
    var s := StreamBytes(ws);
    ServeIsOneByOne(p, ws, save);
    assert s[..cut] + s[cut..] == s;
    ServeSplit(p, s[..cut], s[cut..], save);
  }

  // ----------------------------------------------------------------- lengths

  /** A reply carrying a value of this length still fits behind the largest unsent output. */
  const VALUE_LIMIT: nat := INT_MAX - REPLY_BATCH_THRESHOLD - 64

  predicate TableFits(t: Table) {
    forall k :: k in t ==> |t[k]| <= VALUE_LIMIT
  }

  predicate ValuesFit(s: Stores) {
    TableFits(s.arrayTable) && TableFits(s.treeTable) && TableFits(s.hashTable) && TableFits(s.skipTable)
  }

  /** The reply fits an output buffer below its flush threshold. */
  predicate ReplyFits(reply: ByteString) {
    |reply| + REPLY_BATCH_THRESHOLD <= INT_MAX
  }

  lemma FilterFits(p: Process, fields: Fields)
    requires fields != [] && ValuesFit(p.stores) && forall i :: 0 <= i < |fields| ==> |fields[i]| <= VALUE_LIMIT
    requires FindCommand(fields[0], 0) < COMMAND_COUNT && |fields| == Arity(FindCommand(fields[0], 0))
    ensures ValuesFit(Filter(p, Client, fields).process.stores)
  {
    hide FindCommand, EncodeCommand, CommandName;
  }

  lemma FieldReplyFits(value: ByteString)
    requires |value| <= VALUE_LIMIT
    ensures ReplyFits(EncodeField(value))
  {
    assert PowerOfTen(9) == 1_000_000_000;
    assert PowerOfTen(10) > INT_MAX;
    DecimalWidth(|value|, 10);
  }

  lemma FixedReplies()
    ensures |PONG_REPLY| <= 40 && |OK_REPLY| <= 40 && |ONE_REPLY| <= 40 && |ZERO_REPLY| <= 40 && |NIL_REPLY| <= 40
    ensures |NUL_ERROR| <= 40 && |PING_ARITY_ERROR| <= 60 && |SAVE_ARITY_ERROR| <= 60 && |ARITY_ERROR| <= 40
    ensures |SAVE_ERROR| <= 40 && |UNKNOWN_ERROR| <= 40 && |EXISTS_ERROR| <= 40 && |SET_ERROR| <= 40
    ensures |DEL_ERROR| <= 40 && |MISSING_ERROR| <= 40 && |MOD_ERROR| <= 40 && |EXIST_ERROR| <= 40
    ensures |REQUEST_ERROR| <= 60 && |LOADING_REPLY| <= 60
  {
  }

  lemma EngineFits(p: Process, fields: Fields)
    requires fields != [] && ValuesFit(p.stores) && forall i :: 0 <= i < |fields| ==>
               |fields[i]| <= MAX_CLIENT_COMMAND_BYTES
    ensures var e := ExecuteEngine(p, fields); ValuesFit(e.process.stores) && ReplyFits(e.reply)
  {
    hide FindCommand, EncodeCommand, EncodeField, Filter, CommandName, ValuesFit, Ascii;
    FixedReplies();
    if FindCommand(fields[0], 0) < COMMAND_COUNT && |fields| == Arity(FindCommand(fields[0], 0)) {
      FilterFits(p, fields);
      StoredFits(p.stores, EngineOf(FindCommand(fields[0], 0)), fields[1]);
    }
  }

  /** Commands of clients are short, so they store only values that fit, and what they answer
      is a stored value or a short line. */
  lemma ExecuteFits(p: Process, fields: Fields, save: Option<ByteString>)
    requires fields != [] && ValuesFit(p.stores) && forall i :: 0 <= i < |fields| ==>
               |fields[i]| <= MAX_CLIENT_COMMAND_BYTES
    ensures var e := Execute(p, fields, save); ValuesFit(e.process.stores) && ReplyFits(e.reply)
  {
    hide ExecuteEngine, ValuesFit, Ascii;
    FixedReplies();
    EngineFits(p, fields);
  }

  lemma StoredFits(s: Stores, e: Engine, key: ByteString)
    requires ValuesFit(s)
    ensures key in TableOf(s, e) ==> ReplyFits(EncodeField(TableOf(s, e)[key]))
  {
    hide EncodeField, ReplyFits;
    if key in TableOf(s, e) {
      FieldReplyFits(TableOf(s, e)[key]);
    }
  }

  lemma {:induction false} FieldsShort(nums: seq<ByteString>, fields: Fields, i: nat)
    requires |nums| == |fields| && i < |fields|
    ensures |fields[i]| <= |FieldsWire(nums, fields)|
  {
    if i > 0 {
      FieldsShort(nums[1..], fields[1..], i - 1);
    }
  }

  lemma HandleFits(p: Process, input: ByteString, save: Option<ByteString>)
    requires ValuesFit(p.stores)
    ensures var h := HandleInput(p, input, save); ValuesFit(h.process.stores) && ReplyFits(h.reply)
  {
    hide ParseCommand, Execute, ValuesFit, IsNumeral;
    FixedReplies();
    if ParseCommand(input, MAX_TOKENS, MAX_CLIENT_COMMAND_BYTES).Complete? {
      var count, nums := AcceptedIsWire(input, MAX_TOKENS, MAX_CLIENT_COMMAND_BYTES);
      var fields := ParseCommand(input, MAX_TOKENS, MAX_CLIENT_COMMAND_BYTES).value;
      forall i | 0 <= i < |fields| ensures |fields[i]| <= MAX_CLIENT_COMMAND_BYTES {
        FieldsShort(nums, fields, i);
      }
      ExecuteFits(p, fields, save);
    }
  }

  /** Input that is not taken is shorter than a command may be. */
  lemma WaitingShort(p: Process, input: ByteString, save: Option<ByteString>)
    requires HandleInput(p, input, save).consumed == 0
    ensures |input| < MAX_CLIENT_COMMAND_BYTES
  {
    hide ParseCommand, Execute;
    if ParseCommand(input, MAX_TOKENS, MAX_CLIENT_COMMAND_BYTES).Complete? {
      CompleteBounds(input);
    }
  }

  // --------------------------------------------------------------- the coroutine

  datatype Event = Received(bytes: ByteString) | Sent(bytes: ByteString)

  function ReceivedBytes(trace: seq<Event>): ByteString {
    if trace == [] then []
    else
      ReceivedBytes(trace[..|trace| - 1]) + (match trace[|trace| - 1] case Received(b) => b case Sent(_) => [])
  }

  function SentBytes(trace: seq<Event>): ByteString {
    if trace == [] then []
    else
      SentBytes(trace[..|trace| - 1]) + (match trace[|trace| - 1] case Received(_) => [] case Sent(b) => b)
  }

  lemma TraceMore(trace: seq<Event>, e: Event)
    ensures ReceivedBytes(trace + [e]) == ReceivedBytes(trace) + (match e case Received(b) => b case Sent(_) => [])
    ensures SentBytes(trace + [e]) == SentBytes(trace) + (match e case Received(_) => [] case Sent(b) => b)
  {
    assert (trace + [e])[..|trace|] == trace;
  }

  /** At every receive, the replies to everything received before have been sent. */
  ghost predicate FlushedBeforeReceive(p: Process, trace: seq<Event>, save: Saver) {
    forall i :: 0 <= i < |trace| && trace[i].Received? ==>
      SentBytes(trace[..i]) == Serve(p, ReceivedBytes(trace[..i]), save).replies
  }

  lemma FlushedMore(p: Process, trace: seq<Event>, e: Event, save: Saver)
    requires FlushedBeforeReceive(p, trace, save)
    requires e.Received? ==> SentBytes(trace) == Serve(p, ReceivedBytes(trace), save).replies
    ensures FlushedBeforeReceive(p, trace + [e], save)
  {
    hide Serve, SentBytes, ReceivedBytes;
    var more := trace + [e];
    forall i | 0 <= i < |more| && more[i].Received?
      ensures SentBytes(more[..i]) == Serve(p, ReceivedBytes(more[..i]), save).replies {
      assert more[..i] == trace[..i];
    }
  }

  /** One pass of the inner loop: at most one command, its reply behind the earlier ones, and a
      flush when enough have accumulated. */
  method RunCommand(server: CommandServer, input: ByteBuffer, output: ByteBuffer, save: Saver)
    returns (ok: bool, consumed: nat, sent: ByteString)
    requires input.Valid() && output.Valid() && input != output && input.data != output.data
    modifies server`stores, server`aof, server`snapshot, input, output, input.data, output.data
    ensures input.Valid() && output.Valid() && input.data != output.data && input.data == old(input.data)
    ensures fresh(output.data) || output.data == old(output.data)
    ensures var h := HandleInput(old(server.View()), old(input.Contents()), save(old(server.View())));
            ok <==>
              |old(output.Contents())| + BUFFER_LENGTH <= INT_MAX && |old(output.Contents())| + |h.reply| <= INT_MAX
    ensures ok ==> |output.Contents()| < REPLY_BATCH_THRESHOLD
    ensures ok ==>
              var h := HandleInput(old(server.View()), old(input.Contents()), save(old(server.View())));
              && server.View() == h.process && consumed == h.consumed
              && input.Contents() == old(input.Contents())[h.consumed..]
              && sent + output.Contents() == old(output.Contents()) + h.reply
  {
    hide HandleInput;
    sent, consumed := [], 0;
    var space := output.EnsureSpace(BUFFER_LENGTH);
    if !space { return false, 0, []; }
    var reply;
    reply, consumed := server.HandleMessage(input.data[..input.length], save(server.View()));
    if |reply| > 0 {
      space := output.EnsureSpace(|reply|);
      if !space { return false, consumed, []; }
    }
    output.Put(reply);
    var taken := input.Consume(consumed);
    if !taken { return false, consumed, []; }
    if output.length >= REPLY_BATCH_THRESHOLD {
      sent := output.data[..output.length];
      output.Clear();
    }
    return true, consumed, sent;
  }

  /** The inner loop of `server_reader`. */
  method RunCommands(server: CommandServer, input: ByteBuffer, output: ByteBuffer, save: Saver)
    returns (ok: bool, sent: ByteString)
    requires input.Valid() && output.Valid() && input != output && input.data != output.data && input.length > 0
    modifies server`stores, server`aof, server`snapshot, input, output, input.data, output.data
    ensures input.Valid() && output.Valid() && input.data != output.data && input.data == old(input.data)
    ensures fresh(output.data) || output.data == old(output.data)
    ensures ok ==>
              var served := Serve(old(server.View()), old(input.Contents()), save);
              && server.View() == served.process && input.Contents() == served.rest
              && sent + output.Contents() == old(output.Contents()) + served.replies
    ensures ok ==> |input.Contents()| < MAX_CLIENT_COMMAND_BYTES
    ensures |old(output.Contents())| < REPLY_BATCH_THRESHOLD && ValuesFit(old(server.View()).stores) ==>
              ok && |output.Contents()| < REPLY_BATCH_THRESHOLD && ValuesFit(server.View().stores)
  {
    hide HandleInput, Serve, Rejected, ValuesFit;
    sent := [];
    ghost var p0, input0, output0 := server.View(), input.Contents(), output.Contents();
    ghost var replies: ByteString := [];
    ServeNothing(p0, input0, save);
    var consumed: nat := 1;
    ok := true;
    while input.length > 0 && consumed > 0
      invariant input.Valid() && output.Valid() && input.data != output.data && input.data == old(input.data)
      invariant fresh(output.data) || output.data == old(output.data)
      invariant sent + output.Contents() == output0 + replies
      invariant Serve(p0, input0, save)
                == Behind(replies, Serve(server.View(), input.Contents(), save), Serve(p0, input0, save).rejected)
      invariant consumed == 0 ==>
                  Serve(server.View(), input.Contents(), save) == Served(server.View(), [], input.Contents(), false)
      invariant consumed == 0 ==> |input.Contents()| < MAX_CLIENT_COMMAND_BYTES
      invariant ok
      invariant |output0| < REPLY_BATCH_THRESHOLD && ValuesFit(p0.stores) ==>
                  |output.Contents()| < REPLY_BATCH_THRESHOLD && ValuesFit(server.View().stores)
      decreases input.length, consumed
    {
      ghost var p1, in1, out1, sent1 := server.View(), input.Contents(), output.Contents(), sent;
      if ValuesFit(p1.stores) {
        HandleFits(p1, in1, save(p1));
      }
      var now;
      ok, consumed, now := RunCommand(server, input, output, save);
      if !ok { return; }
      sent := sent + now;
      ServeStep(p1, in1, save);
      ghost var reply := HandleInput(p1, in1, save(p1)).reply;
      Regrouped(sent1, now, output.Contents(), out1, output0, replies, reply);
      BehindMore(replies, reply, Serve(server.View(), input.Contents(), save), Serve(p0, input0, save).rejected);
      replies := replies + reply;
      if consumed == 0 {
        WaitingShort(p1, in1, save(p1));
        assert in1[0..] == in1;
        assert replies + [] == replies;
      }
    }
    ServeStep(server.View(), input.Contents(), save);
    assert replies + [] == replies;
  }

  /** A served result with earlier replies in front. */
  function Behind(replies: ByteString, s: Served, rejected: bool): Served {
    Served(s.process, replies + s.replies, s.rest, rejected)
  }

  lemma BehindMore(replies: ByteString, reply: ByteString, s: Served, rejected: bool)
    ensures Behind(replies + reply, s, rejected) == Served(s.process, replies + (reply + s.replies), s.rest, rejected)
  {
    assert replies + reply + s.replies == replies + (reply + s.replies);
  }

  lemma Regrouped(sent: ByteString, now: ByteString, out: ByteString, out1: ByteString, out0: ByteString,
                  replies: ByteString, reply: ByteString)
    requires sent + out1 == out0 + replies && now + out == out1 + reply
    ensures sent + now + out == out0 + (replies + reply)
  {
    assert sent + now + out == sent + (now + out);
    assert sent + (out1 + reply) == sent + out1 + reply;
    assert out0 + (replies + reply) == out0 + replies + reply;
  }

  lemma ServeNothing(p: Process, input: ByteString, save: Saver)
    ensures Serve(p, input, save) == Behind([], Serve(p, input, save), Serve(p, input, save).rejected)
  {
    hide Serve;
    assert [] + Serve(p, input, save).replies == Serve(p, input, save).replies;
  }

  lemma ServeStep(p: Process, input: ByteString, save: Saver)
    ensures var h := HandleInput(p, input, save(p));
            if h.consumed == 0 then h == Handled(p, [], 0) && Serve(p, input, save) == Served(p, [], input, false)
            else
              var r := Serve(h.process, input[h.consumed..], save);
              Serve(p, input, save) == Served(r.process, h.reply + r.replies, r.rest, Rejected(input) || r.rejected)
  {
    hide ParseCommand, Execute, Rejected;
    if ParseCommand(input, MAX_TOKENS, MAX_CLIENT_COMMAND_BYTES).Complete? && input != [] {
      CompleteBounds(input);
    }
  }

  /** `flush_output` after the batches already sent: the output buffer is emptied to the peer. */
  method FlushOutput(before: seq<Event>, sent: ByteString, output: ByteBuffer, save: Saver, ghost p0: Process)
    returns (trace: seq<Event>)
    requires output.Valid()
    modifies output`length
    ensures output.Valid() && output.Contents() == []
    ensures ReceivedBytes(trace) == ReceivedBytes(before)
    ensures SentBytes(trace) == SentBytes(before) + (sent + old(output.Contents()))
    ensures FlushedBeforeReceive(p0, before, save) ==> FlushedBeforeReceive(p0, trace, save)
  {
    hide SentBytes, ReceivedBytes, FlushedBeforeReceive, Flushed;
    ghost var out := output.Contents();
    FlushedKeeps(before, sent, p0, save);
    trace := Flushed(before, sent);
    FlushedKeeps(trace, out, p0, save);
    trace := Flushed(trace, output.data[..output.length]);
    output.Clear();
    assert SentBytes(before) + sent + out == SentBytes(before) + (sent + out);
  }

  /** One receive and everything that follows from it, up to the next receive. */
  method ReceiveRound(server: CommandServer, input: ByteBuffer, output: ByteBuffer, stream: ByteString, at: nat,
                      save: Saver,
                      before: seq<Event>, ghost p0: Process)
    returns (ok: bool, next: nat, trace: seq<Event>)
    requires at < |stream| && input.Valid() && output.Valid() && input.data != output.data && input != output
    requires output.Contents() == [] && ReceivedBytes(before) == stream[..at]
    requires Good(p0, stream, save) ==>
               && Reached(p0, stream[..at], save, server.View(), input.Contents(), SentBytes(before))
               && FlushedBeforeReceive(p0, before, save)
    modifies server`stores, server`aof, server`snapshot, input, output, input.data, output.data
    ensures input.Valid() && output.Valid() && input.data != output.data
    ensures fresh(input.data) || input.data == old(input.data)
    ensures fresh(output.data) || output.data == old(output.data)
    ensures ok ==> at < next <= |stream| && output.Contents() == [] && ReceivedBytes(trace) == stream[..next]
    ensures ok && Good(p0, stream, save) ==>
              && Reached(p0, stream[..next], save, server.View(), input.Contents(), SentBytes(trace))
              && FlushedBeforeReceive(p0, trace, save)
    ensures ValuesFit(old(server.View()).stores) && |old(input.Contents())| < MAX_CLIENT_COMMAND_BYTES ==>
              ok && ValuesFit(server.View().stores) && |input.Contents()| < MAX_CLIENT_COMMAND_BYTES
  {
    hide Serve, HandleInput, Rejected, SentBytes, ReceivedBytes, FlushedBeforeReceive, Reached, Good, Flushed,
         ValuesFit;
    next, trace := at, before;
    var space := input.EnsureSpace(1);
    if !space { return false, at, before; }
    var available := input.data.Length - input.length;
    var count: nat :| 0 < count <= available && at + count <= |stream|;
    var piece := stream[at..at + count];
    ghost var rest, p1 := input.Contents(), server.View();
    input.Put(piece);
    ReceiveMore(p0, stream, at, count, save, before);
    ReachedReplies(p0, stream[..at], save, p1, rest, SentBytes(before));
    next := at + count;
    var run, sent := RunCommands(server, input, output, save);
    if !run { return false, at, before; }
    ghost var out := output.Contents();
    CommandsRun(p0, stream, at, next, save, p1, rest, server.View(), input.Contents(), SentBytes(before), sent + out);
    trace := FlushOutput(before + [Received(piece)], sent, output, save, p0);
    ok := true;
  }

  /** `server_reader`: the peer's bytes arrive in pieces of any size that fits the free space;
      `trace` records what was received and sent, in order. */
  method ServerReader(server: CommandServer, stream: ByteString, save: Saver) returns (ok: bool, trace: seq<Event>)
    modifies server`stores, server`aof, server`snapshot
    ensures ValuesFit(old(server.View()).stores) ==> ok
    ensures ok && !Serve(old(server.View()), stream, save).rejected ==>
              && ReceivedBytes(trace) == stream
              && SentBytes(trace) == Serve(old(server.View()), stream, save).replies
              && server.View() == Serve(old(server.View()), stream, save).process
              && FlushedBeforeReceive(old(server.View()), trace, save)
  {
    hide Serve, HandleInput, Rejected, SentBytes, ReceivedBytes, FlushedBeforeReceive, ValuesFit;
    var input := new ByteBuffer();
    var output := new ByteBuffer();
    ghost var p0 := server.View();
    ok, trace := true, [];
    NoTrace(p0, save);
    var at: nat := 0;
    assert stream[..0] == [];
    while at < |stream|
      invariant at <= |stream| && input.Valid() && output.Valid() && input.data != output.data && input != output
      invariant fresh(input) && fresh(output) && fresh(input.data) && fresh(output.data)
      invariant output.Contents() == [] && ReceivedBytes(trace) == stream[..at]
      invariant Good(p0, stream, save) ==>
                  && Reached(p0, stream[..at], save, server.View(), input.Contents(), SentBytes(trace))
                  && FlushedBeforeReceive(p0, trace, save)
      invariant ok
      invariant ValuesFit(p0.stores) ==>
                  ValuesFit(server.View().stores) && |input.Contents()| < MAX_CLIENT_COMMAND_BYTES
    {
      ok, at, trace := ReceiveRound(server, input, output, stream, at, save, trace, p0);
      if !ok { return; }
    }
    assert stream[..at] == stream;
  }

  lemma ReachedReplies(p: Process, got: ByteString, save: Saver, now: Process, rest: ByteString, sent: ByteString)
    ensures Reached(p, got, save, now, rest, sent) ==> sent == Serve(p, got, save).replies
  {
    hide Serve;
  }

  predicate Good(p: Process, stream: ByteString, save: Saver) {
    !Serve(p, stream, save).rejected
  }

  /** The server has executed exactly what is complete in `got`, and answered all of it. */
  predicate Reached(p: Process, got: ByteString, save: Saver, now: Process, rest: ByteString, sent: ByteString) {
    var s := Serve(p, got, save);
    !s.rejected && now == s.process && rest == s.rest && sent == s.replies
  }

  lemma NoTrace(p: Process, save: Saver)
    ensures ReceivedBytes([]) == [] && SentBytes([]) == [] && FlushedBeforeReceive(p, [], save)
    ensures Reached(p, [], save, p, [], [])
  {
    ServeStep(p, [], save);
  }

  /** Recording what was sent. */
  function Flushed(trace: seq<Event>, bytes: ByteString): seq<Event> {
    if bytes == [] then trace else trace + [Sent(bytes)]
  }

  lemma FlushedKeeps(trace: seq<Event>, bytes: ByteString, p: Process, save: Saver)
    ensures var r := Flushed(trace, bytes);
            && ReceivedBytes(r) == ReceivedBytes(trace) && SentBytes(r) == SentBytes(trace) + bytes
            && (FlushedBeforeReceive(p, trace, save) ==> FlushedBeforeReceive(p, r, save))
  {
    hide ReceivedBytes, SentBytes, FlushedBeforeReceive;
    TraceMore(trace, Sent(bytes));
    assert SentBytes(trace) + [] == SentBytes(trace) && ReceivedBytes(trace) + [] == ReceivedBytes(trace);
    if FlushedBeforeReceive(p, trace, save) {
      FlushedMore(p, trace, Sent(bytes), save);
    }
  }

  lemma ReceiveMore(p: Process, stream: ByteString, at: nat, count: nat, save: Saver, trace: seq<Event>)
    requires at + count <= |stream| && ReceivedBytes(trace) == stream[..at]
    ensures var next := trace + [Received(stream[at..at + count])];
            && ReceivedBytes(next) == stream[..at + count] && SentBytes(next) == SentBytes(trace)
            && (FlushedBeforeReceive(p, trace, save) && SentBytes(trace) == Serve(p, stream[..at], save).replies ==>
                FlushedBeforeReceive(p, next, save))
  {
    hide Serve;
    TraceMore(trace, Received(stream[at..at + count]));
    assert stream[..at] + stream[at..at + count] == stream[..at + count];
    assert SentBytes(trace) + [] == SentBytes(trace);
    if FlushedBeforeReceive(p, trace, save) && SentBytes(trace) == Serve(p, stream[..at], save).replies {
      FlushedMore(p, trace, Received(stream[at..at + count]), save);
    }
  }

  lemma CommandsRun(p0: Process, stream: ByteString, from: nat, to: nat, save: Saver, p1: Process, rest: ByteString,
                    now: Process, left: ByteString, sent: ByteString, replies: ByteString)
    requires from <= to <= |stream|
    requires var s := Serve(p1, rest + stream[from..to], save);
             now == s.process && left == s.rest && replies == s.replies
    ensures Good(p0, stream, save) && Reached(p0, stream[..from], save, p1, rest, sent) ==>
              Reached(p0, stream[..to], save, now, left, sent + replies)
  {
    hide Serve;
    if Good(p0, stream, save) && Reached(p0, stream[..from], save, p1, rest, sent) {
      assert stream[..to] + stream[to..] == stream;
      ServeSplit(p0, stream[..to], stream[to..], save);
      assert stream[..from] + stream[from..to] == stream[..to];
      ServeSplit(p0, stream[..from], stream[from..to], save);
    }
  }
}
