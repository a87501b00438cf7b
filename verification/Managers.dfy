/** The replication manager of src/replication/replication.c as it is: fields that callbacks
    change in place. Every callback is proved to compute the corresponding step function, so
    what is proved about the joint state machine is proved about these callbacks. */
module Managers {
  import opened Bytes
  import opened Codec
  import opened Store
  import opened Aof
  import opened Snapshot
  import opened Rdma
  import opened ControlLines
  import opened Replication

  /** `kvs_replication_rdma_sync_t`. */
  class RdmaSync {
    var connection: Connection?
    var established: bool
    var snapshotBytes: nat
    var acknowledgedBytes: nat
    var sendPending: bool
    var disconnectPending: bool

    constructor ()
      ensures View() == NO_SYNC && connection == null
    {
      connection := null;
      established, sendPending, disconnectPending := false, false, false;
      snapshotBytes, acknowledgedBytes := 0, 0;
    }

    function Footprint(): set<object>
      reads this
    {
      if connection == null then {this} else {this, connection}
    }

    function View(): Sync
      reads Footprint()
    {
      Sync(if connection == null then None else Some(connection.View()),
           established, snapshotBytes, acknowledgedBytes, sendPending, disconnectPending)
    }

    method Close()
      modifies this
      ensures View() == NO_SYNC && connection == null
    {
      connection := null;
      established, sendPending, disconnectPending := false, false, false;
      snapshotBytes, acknowledgedBytes := 0, 0;
    }
  }

  // ================================================================= Primary

  class PrimaryManager {
    var stores: Stores
    var aof: ByteString
    var phase: Phase
    var session: Option<nat>
    var syncId: Option<ByteString>
    var offset: nat
    var size: nat
    var reader: SnapshotReader
    var aofReader: AofReader
    const sync: RdmaSync

    constructor (stores: Stores, aof: ByteString)
      ensures View() == Primary(stores, aof, Offline, None, None, |aof|, 0, ReaderClosed, AofClosed, NO_SYNC)
      ensures fresh(sync)
    {
      this.stores, this.aof := stores, aof;
      phase, session, syncId, offset, size := Offline, None, None, |aof|, 0;
      reader, aofReader := ReaderClosed, AofClosed;
      sync := new RdmaSync();
    }

    function Footprint(): set<object>
      reads this, sync
    {
      {this as object} + sync.Footprint()
    }

    function View(): Primary
      reads this, sync, sync.Footprint()
    {
      Primary(stores, aof, phase, session, syncId, offset, size, reader, aofReader, sync.View())
    }

    /** `kvs_replication_rdma_send_snapshot_chunk`. */
    method SendSnapshotChunk(k: nat) returns (result: Result)
      modifies Footprint()
      ensures PrimaryStep(View(), result) == SendChunk(old(View()), k)
      ensures sync.connection == old(sync.connection)
      ensures session == old(session) && stores == old(stores) && aof == old(aof)
    {
      if sync.sendPending { return Wait; }
      if reader.ReaderClosed? || sync.connection == null { return Failed; }
      if !ReadSize(k, BUFFER_CAPACITY, reader.remaining) || reader.pos + k > |reader.file| { return Failed; }
      var sent := sync.connection.Submit(reader.file[reader.pos..reader.pos + k]);
      if !sent { return Failed; }
      reader := Reader(reader.file, reader.pos + k, reader.remaining - k);
      sync.sendPending := true;
      sync.snapshotBytes := sync.snapshotBytes + k;
      return Wait;
    }

    /** The RECV branch: an exact acknowledgement, or the READY that starts the transfer. */
    method TakeMessage(data: ByteString, k: nat) returns (result: Result)
      requires sync.connection != null
      modifies Footprint()
      ensures PrimaryStep(View(), result) == PrimaryReceive(old(View()), old(sync.connection.View()), data, k)
      ensures sync.connection == old(sync.connection)
      ensures session == old(session) && stores == old(stores) && aof == old(aof)
    {
      if sync.snapshotBytes > 0 {
        if sync.acknowledgedBytes >= sync.snapshotBytes || data != AckLine(sync.snapshotBytes) { return Failed; }
        var armed := sync.connection.Receive();
        if !armed { return Failed; }
        sync.acknowledgedBytes := sync.snapshotBytes;
        return Wait;
      }
      if syncId.None? || data != ReadyLine(syncId.value) { return Failed; }
      var armed := sync.connection.Receive();
      if !armed { return Failed; }
      result := SendSnapshotChunk(k);
    }

    /** The part of `kvs_replication_stream` that follows the connection event. */
    method FullSyncRound(completion: Completion, k: nat) returns (result: Result)
      modifies Footprint()
      ensures var step := PrimaryFullSync(old(View()), completion, k);
              && result == step.result
              && View() == step.state.(sync := View().sync)
              && (!result.Failed? ==> View() == step.state)
      ensures sync.connection == old(sync.connection)
      ensures session == old(session) && stores == old(stores) && aof == old(aof)
    {
      hide AckLine, ReadyLine, SendChunk;
      if sync.disconnectPending || !sync.established { return Wait; }
      if sync.connection == null { return Failed; }
      if !sync.sendPending && sync.snapshotBytes > 0 && sync.acknowledgedBytes == sync.snapshotBytes && reader.Reader? {
        if reader.remaining > 0 {
          result := SendSnapshotChunk(k);
          return;
        }
        sync.disconnectPending := true;
        reader := ReaderClosed;
        return Wait;
      }
      var ok, data := sync.connection.Poll(completion);
      if !ok { return Failed; }
      match completion
      case NoCompletion => return Wait;
      case SendCompletion =>
        sync.sendPending := false;
        return Wait;
      case RecvCompletion =>
        result := TakeMessage(data, k);
    }

    /** `kvs_replication_primary_start_catch_up`. */
    method StartAofCatchUp() returns (ok: bool)
      modifies this
      ensures ok <==> StartCatchUp(old(View())).Some?
      ensures ok ==> View() == StartCatchUp(old(View())).value
      ensures !ok ==> View() == old(View()).(reader := ReaderClosed)
    {
      reader := ReaderClosed;
      if |aof| < offset { return false; }
      aofReader := AofOpen(offset, |aof| - offset);
      phase := CatchUp;
      return true;
    }

    /** `kvs_aof_reader_read`: 0 bytes at the end of the range, a failure, or the next block. */
    method ReadAofBlock(k: nat) returns (result: Result)
      requires aofReader.AofOpen?
      modifies this
      ensures old(aofReader).remaining == 0 ==> result.Idle? && View() == old(View())
      ensures old(aofReader).remaining > 0 ==> PrimaryStep(View(), result) == ReadAof(old(View()), k) && !result.Idle?
      ensures session == old(session) && stores == old(stores) && aof == old(aof)
    {
      if aofReader.remaining == 0 { return Idle; }
      if !ReadSize(k, STREAM_CAPACITY, aofReader.remaining) || aofReader.offset + k > |aof| {
        aofReader := AofClosed;
        return Failed;
      }
      result := Emit(aof[aofReader.offset..aofReader.offset + k]);
      aofReader := AofOpen(aofReader.offset + k, aofReader.remaining - k);
    }

    /** The AOF part of `kvs_replication_stream`: the loop over reader rounds, then ONLINE. */
    method AofRounds(k: nat) returns (result: Result)
      modifies this
      ensures PrimaryStep(View(), result) == PrimaryAof(old(View()), k)
      ensures session == old(session) && stores == old(stores) && aof == old(aof)
    {
      hide OnlineFrame, ReadAof;
      while aofReader.AofOpen?
        invariant PrimaryAof(View(), k) == PrimaryAof(old(View()), k)
        invariant session == old(session) && stores == old(stores) && aof == old(aof)
        decreases if aofReader.AofOpen? && aofReader.remaining == 0 then 1 else 0
      {
        result := ReadAofBlock(k);
        if !result.Idle? { return; }
        var sent := aofReader.offset;
        aofReader := AofClosed;
        if |aof| < sent { return Failed; }
        if |aof| > sent {
          aofReader := AofOpen(sent, |aof| - sent);
          continue;
        }
        offset := sent;
        if phase.Online? { return Wait; }
        phase := Online;
        return Emit(OnlineFrame(sent) + CRLF);
      }
      if phase.Online? {
        if |aof| < offset { return Failed; }
        if |aof| == offset { return Wait; }
        aofReader := AofOpen(offset, |aof| - offset);
        result := ReadAofBlock(k);
        return;
      }
      return Idle;
    }

    /** `kvs_replication_stream`. */
    method Stream(conn: nat, event: CmEvent, completion: Completion, k: nat) returns (result: Result)
      modifies Footprint()
      ensures var step := PrimaryStream(old(View()), conn, event, completion, k);
              && result == step.result
              && (!result.Failed? ==> View() == step.state)
              && PrimaryDisconnected(View(), conn) == PrimaryDisconnected(step.state, conn)
      ensures session == old(session) && stores == old(stores) && aof == old(aof)
    {
      hide PrimaryFullSync, PrimaryAof;
      if session != Some(conn) { return Idle; }
      if !phase.FullSync? {
        result := AofRounds(k);
        return;
      }
      match event
      case CmFailure => return Failed;
      case RouteResolved => return Failed;
      case Disconnected =>
        if sync.connection == null { return Failed; }
        if !sync.disconnectPending || sync.sendPending || sync.snapshotBytes != size
           || sync.acknowledgedBytes != sync.snapshotBytes {
          return Failed;
        }
        sync.Close();
        var ok := StartAofCatchUp();
        if !ok { return Failed; }
        result := AofRounds(k);
      case Established =>
        if sync.connection == null { return Failed; }
        sync.established := true;
        result := FullSyncRound(completion, k);
      case Accepting(link) =>
        if sync.connection == null {
          var connection := new Connection(link);
          var armed := connection.Receive();
          sync.connection := connection;
        }
        result := FullSyncRound(completion, k);
      case NoEvent =>
        result := FullSyncRound(completion, k);
    }

    /** `kvs_replication_on_replica_disconnected`. */
    method OnReplicaDisconnected(conn: nat)
      modifies this, sync
      ensures View() == PrimaryDisconnected(old(View()), conn)
    {
      if session != Some(conn) { return; }
      sync.Close();
      syncId := None;
      reader, aofReader := ReaderClosed, AofClosed;
      session, size, phase := None, 0, Offline;
    }

    /** `kvs_replication_frame_protocol`; a response must stay below `capacity`. */
    method HandleFrame(conn: nat, frame: ByteString, capacity: nat, input: PsyncInput)
      returns (ok: bool, response: ByteString)
      modifies this
      ensures var step := PrimaryFrame(old(View()), conn, frame, capacity, input);
              && View() == step.state
              && (ok <==> step.FrameStep?)
              && (ok ==> response == step.response)
    {
      hide ResyncFrame;
      response := [];
      if frame == [] || capacity == 0 { return false, []; }
      if frame == PING {
        response := PONG + CRLF;
      } else if frame == PSYNC {
        ok, response := StartSession(conn, input);
        if !ok { return; }
      } else {
        response := Ascii("ERROR unknown replication command\r\n");
      }
      return |response| < capacity, response;
    }

    /** Its PSYNC branch. */
    method StartSession(conn: nat, input: PsyncInput) returns (ok: bool, response: ByteString)
      modifies this
      ensures var step := Psync(old(View()), conn, input);
              && View() == step.state
              && (ok <==> step.FrameStep?)
              && (ok ==> response == step.response)
    {
      hide ResyncFrame;
      if session.Some? || sync.connection != null { return false, []; }
      if |input.file| == 0 { return false, []; }
      reader, aofReader := Reader(input.file, 0, |input.file|), AofClosed;
      syncId := Some(input.syncId);
      offset, size := |aof|, |input.file|;
      session, phase := Some(conn), FullSync;
      return true, ResyncFrame(Resync(input.replicationId, offset, size, input.port, input.syncId)) + CRLF;
    }

    /** `kvs_replication_network_protocol`: the loop over the complete lines of the input. */
    method HandleLines(conn: nat, msg: ByteString, capacity: nat, input: PsyncInput)
      returns (ok: bool, response: ByteString, consumed: nat)
      modifies this
      ensures consumed <= |msg|
      ensures var batch := PrimaryBatch(old(View()), conn, msg, capacity, input);
              && View() == batch.state
              && (ok <==> batch.Batch?)
              && (ok ==> batch == Batch(View(), response, msg[consumed..]) && |response| <= capacity)
    {
      hide PrimaryFrame, FirstLine;
      response, consumed := [], 0;
      var found, end, delimiter := FindLineEnd(msg);
      ghost var start := View();
      assert msg[0..] == msg;
      while found
        invariant consumed <= |msg| && |response| <= capacity
        invariant found <==> FirstLine(msg[consumed..]).Line?
        invariant found ==>
                    consumed + end + delimiter <= |msg|
                    && FirstLine(msg[consumed..]) == Line(msg[consumed..][..end], end + delimiter)
        invariant PrimaryBatch(start, conn, msg, capacity, input)
                  == After(response, PrimaryBatch(View(), conn, msg[consumed..], capacity - |response|, input))
        decreases |msg| - consumed
      {
        FrameFits(View(), conn, msg[consumed..][..end], capacity - |response|, input);
        var accepted, line := HandleFrame(conn, msg[consumed..][..end], capacity - |response|, input);
        if !accepted { return false, response, consumed; }
        consumed := consumed + end + delimiter;
        assert msg[consumed - end - delimiter..][end + delimiter..] == msg[consumed..];
        AfterAfter(response, line, PrimaryBatch(View(), conn, msg[consumed..], capacity - |response + line|, input));
        response := response + line;
        found, end, delimiter := FindLineEnd(msg[consumed..]);
      }
      assert response + [] == response;
      return true, response, consumed;
    }
  }

  /** An accepted response stays below its capacity. */
  lemma FrameFits(p: Primary, conn: nat, frame: ByteString, capacity: nat, input: PsyncInput)
    ensures var step := PrimaryFrame(p, conn, frame, capacity, input); step.FrameStep? ==> |step.response| < capacity
  {
    hide ResyncFrame, Psync;
  }

  /** A batch whose earlier lines were already answered. */
  function After(response: ByteString, rest: Batch): Batch {
    match rest
    case BatchFailed(p) => BatchFailed(p)
    case Batch(p, more, unconsumed) => Batch(p, response + more, unconsumed)
  }

  lemma AfterAfter(a: ByteString, b: ByteString, rest: Batch)
    ensures After(a, After(b, rest)) == After(a + b, rest)
  {
    if rest.Batch? {
      assert a + (b + rest.response) == a + b + rest.response;
    }
  }

  // ================================================================= Replica

  /** Handling a block does not depend on the endpoint it was polled from. */
  lemma ReceiveIgnoresEndpoint(r: Replica, q: Replica, e: Endpoint, data: ByteString)
    requires q == r.(sync := r.sync.(endpoint := q.sync.endpoint))
    ensures var a, b := ReplicaReceive(r, e, data), ReplicaReceive(q, e, data);
            && a.result == b.result && (!a.result.Failed? ==> a.state == b.state)
            && b.state == a.state.(sync := b.state.sync)
  {
    hide Load, Truncate;
  }

  class ReplicaManager {
    var stores: Stores
    var aof: ByteString
    var phase: Phase
    var conn: Option<nat>
    var syncId: Option<ByteString>
    var offset: nat
    var size: nat
    var writer: SnapshotWriter
    var installed: Option<ByteString>
    var input: ByteString
    const sync: RdmaSync

    constructor (aof: ByteString, installed: Option<ByteString>)
      ensures View() == Replica(EMPTY, aof, Offline, None, None, |aof|, 0, WriterClosed, installed, NO_SYNC, [])
      ensures fresh(sync)
    {
      this.aof, this.installed := aof, installed;
      stores, phase, conn, syncId, offset, size := EMPTY, Offline, None, None, |aof|, 0;
      writer, input := WriterClosed, [];
      sync := new RdmaSync();
    }

    function Footprint(): set<object>
      reads this, sync
    {
      {this as object} + sync.Footprint()
    }

    function View(): Replica
      reads this, sync, sync.Footprint()
    {
      Replica(stores, aof, phase, conn, syncId, offset, size, writer, installed, sync.View(), input)
    }

    /** `kvs_replication_on_primary_connected`. */
    method OnPrimaryConnected(c: nat) returns (greeting: ByteString)
      modifies this
      ensures View() == ReplicaConnected(old(View()), c) && greeting == PING + CRLF
    {
      conn, phase, input := Some(c), Handshake, [];
      return PING + CRLF;
    }

    /** `kvs_replication_on_primary_disconnected` for the current connection. */
    method OnPrimaryDisconnected()
      modifies this, sync
      ensures View() == ReplicaDisconnected(old(View()))
    {
      sync.Close();
      syncId, writer := None, WriterClosed;
      conn, phase, input := None, Offline, [];
    }

    /** `kvs_install_replication_snapshot`. */
    method InstallSnapshot(file: ByteString) returns (ok: bool)
      modifies this
      ensures ok <==> Install(old(View()), file).Some?
      ensures View() == if ok then Install(old(View()), file).value else old(View()).(stores := EMPTY)
    {
      stores := EMPTY;
      match Load(file)
      case LoadFailed => return false;
      case Loaded(loaded, checkpoint) =>
        if checkpoint != Some(offset) { return false; }
        stores := loaded;
        aof := Truncate(aof, offset);
        return true;
    }

    /** `kvs_replication_finish_full_sync`. */
    method FinishSync() returns (ok: bool)
      requires writer.Writer?
      modifies this
      ensures View() == FinishFullSync(old(View()))
      ensures ok ==> phase.CatchUp?
      ensures !ok ==> phase == old(phase)
    {
      installed := Some(writer.file);
      ghost var received := writer.file;
      writer := WriterClosed;
      ok := InstallSnapshot(installed.value);
      if ok { phase := CatchUp; }
    }

    /** `kvs_replication_receive_snapshot_data`. */
    method ReceiveSnapshotData(data: ByteString) returns (result: Result)
      requires writer.Writer? && |data| <= writer.remaining && phase.FullSync?
      modifies this
      ensures ReplicaStep(View(), result) == ReceiveData(old(View()), data)
    {
      writer := Writer(writer.file + data, writer.remaining - |data|);
      if writer.remaining == 0 {
        var ok := FinishSync();
        return if ok then Wait else Failed;
      }
      return Wait;
    }

    /** The cumulative acknowledgement. */
    method Acknowledge() returns (result: Result)
      modifies Footprint()
      ensures ReplicaStep(View(), result) == SubmitAck(old(View()))
      ensures sync.connection == old(sync.connection)
    {
      if sync.connection != null && !sync.sendPending && sync.snapshotBytes > sync.acknowledgedBytes {
        var sent := sync.connection.Submit(AckLine(sync.snapshotBytes));
        if !sent { return Failed; }
        sync.sendPending := true;
        sync.acknowledgedBytes := sync.snapshotBytes;
      }
      return Wait;
    }

    /** The RECV branch: a block that fits goes to the temporary file. */
    method TakeBlock(data: ByteString) returns (result: Result)
      requires sync.connection != null
      modifies Footprint()
      ensures ReplicaStep(View(), result) == ReplicaReceive(old(View()), old(sync.connection.View()), data)
      ensures sync.connection == old(sync.connection)
    {
      if !phase.FullSync? || writer.WriterClosed? { return Failed; }
      if |data| == 0 || |data| > BUFFER_CAPACITY || |data| > writer.remaining { return Failed; }
      result := ReceiveSnapshotData(data);
      if result.Failed? { return; }
      var armed := sync.connection.Receive();
      if !armed { return Failed; }
      sync.snapshotBytes := sync.snapshotBytes + |data|;
    }

    /** The part of `kvs_replication_upstream_stream` that follows the connection event. */
    method TransferRound(completion: Completion) returns (result: Result)
      modifies Footprint()
      ensures var step := ReplicaTransfer(old(View()), completion);
              && result == step.result
              && View() == step.state.(sync := View().sync)
              && (!result.Failed? ==> View() == step.state)
      ensures sync.connection == old(sync.connection)
    {
      hide ReplicaReceive, AckLine;
      if !sync.established { return Wait; }
      result := Acknowledge();
      if result.Failed? || sync.connection == null { return Failed; }
      if phase.CatchUp? && sync.snapshotBytes == size && sync.acknowledgedBytes == sync.snapshotBytes { return Wait; }
      var ok, data := sync.connection.Poll(completion);
      if !ok { return Failed; }
      match completion
      case NoCompletion => return Wait;
      case SendCompletion =>
        sync.sendPending := false;
        return Wait;
      case RecvCompletion =>
        ReceiveIgnoresEndpoint(SubmitAck(old(View())).state, View(), sync.connection.View(), data);
        result := TakeBlock(data);
    }

    /** `kvs_replication_upstream_stream`. */
    method UpstreamStream(event: CmEvent, completion: Completion) returns (result: Result)
      modifies Footprint()
      ensures var step := ReplicaStream(old(View()), event, completion);
              && result == step.result
              && (!result.Failed? ==> View() == step.state)
              && ReplicaDisconnected(View()) == ReplicaDisconnected(step.state)
    {
      hide ReplicaTransfer, ReadyLine;
      if sync.connection == null { return Idle; }
      match event
      case CmFailure => return Failed;
      case Accepting(_) => return Failed;
      case Disconnected =>
        if !phase.CatchUp? || sync.snapshotBytes != size
           || sync.acknowledgedBytes != sync.snapshotBytes { return Failed; }
        sync.Close();
        return Idle;
      case RouteResolved =>
        var armed := sync.connection.Receive();
        if !armed { return Failed; }
        result := TransferRound(completion);
      case Established =>
        sync.established := true;
        if syncId.None? { return Failed; }
        var sent := sync.connection.Submit(ReadyLine(syncId.value));
        if !sent { return Failed; }
        sync.sendPending := true;
        result := TransferRound(completion);
      case NoEvent =>
        result := TransferRound(completion);
    }

    /** `kvs_replication_upstream_frame_protocol`. */
    method HandleHandshakeFrame(frame: ByteString, length: nat, link: nat) returns (ok: bool, response: ByteString)
      modifies this, sync
      ensures HandshakeFrame(old(View()), frame, length, link) == if ok then Handled(View(), response, length)
              else HandleFailed(View())
    {
      hide ParseResync;
      if frame == PONG { return true, PSYNC + CRLF; }
      if |frame| < 16 || frame[..16] != RESYNC_WORD { return false, []; }
      match ParseResync(frame)
      case None => return false, [];
      case Some(m) =>
        if m.offset > INT64_MAX || m.size > INT64_MAX { return false, []; }
        writer := Writer([], m.size);
        syncId := Some(m.syncId);
        offset, size := m.offset, m.size;
        if sync.connection != null { return false, []; }
        var connection := new Connection(link);
        sync.connection := connection;
        phase := FullSync;
        return true, [];
    }

    /** `kvs_replication_online_control_frame_protocol`. */
    method HandleOnlineFrame(frame: ByteString, length: nat) returns (ok: bool)
      modifies this
      ensures OnlineControl(old(View()), frame, length) == if ok then Handled(View(), [], length)
              else HandleFailed(View())
    {
      match ParseOnline(frame)
      case None => return false;
      case Some(announced) =>
        if announced > INT64_MAX || |aof| != announced { return false; }
        offset := |aof|;
        phase := Online;
        return true;
    }

    /** `kvs_replication_catch_up_command_protocol`. */
    method ExecuteReplicated(fields: Fields, length: nat) returns (ok: bool)
      modifies this
      ensures CatchUpCommand(old(View()), fields, length) == if ok then Handled(View(), [], length)
              else HandleFailed(View())
    {
      match Apply(stores, fields)
      case None => return false;
      case Some(after) =>
        stores := after;
        if |aof + EncodeCommand(fields)| > INT64_MAX { return false; }
        aof := aof + EncodeCommand(fields);
        offset := |aof|;
        return true;
    }

    /** `kvs_replication_control_line_protocol`. */
    method HandleControlLine(msg: ByteString, link: nat) returns (ok: bool, response: ByteString, consumed: nat)
      modifies this, sync
      ensures ControlLine(old(View()), msg, link) == if ok then Handled(View(), response, consumed)
              else HandleFailed(View())
    {
      hide HandshakeFrame, OnlineControl;
      var found, end, delimiter := FindLineEnd(msg);
      if !found { return true, [], 0; }
      if end == 0 { return false, [], 0; }
      consumed := end + delimiter;
      if phase.Handshake? {
        ok, response := HandleHandshakeFrame(msg[..end], consumed, link);
      } else {
        ok := HandleOnlineFrame(msg[..end], consumed);
        response := [];
      }
    }

    /** `kvs_replication_upstream_network_protocol`. */
    method HandleUpstream(msg: ByteString, link: nat) returns (ok: bool, response: ByteString, consumed: nat)
      requires msg != []
      modifies this, sync
      ensures UpstreamProtocol(old(View()), msg, link) == if ok then Handled(View(), response, consumed)
              else HandleFailed(View())
    {
      hide ControlLine, CatchUpCommand, ParseCommand;
      response, consumed := [], 0;
      match phase
      case Handshake =>
        ok, response, consumed := HandleControlLine(msg, link);
      case FullSync => return false, [], 0;
      case Offline => return false, [], 0;
      case _ =>
        if msg[0] == STAR {
          var parsed := ReadCommand(msg, 3, SIZE_MAX);
          match parsed
          case Incomplete => return true, [], 0;
          case Malformed => return false, [], 0;
          case Complete(fields, length) =>
            ok := ExecuteReplicated(fields, length);
            return ok, [], length;
        } else {
          ok, response, consumed := HandleControlLine(msg, link);
        }
    }
  }
}
