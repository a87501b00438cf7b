/** The handlers of src/replication/replication.c as functions from a manager state and the
    environment's choices (connection event, completion, read size) to the next state. The two
    roles use disjoint fields of the C manager, so each has its own state type here. */
module Replication {
  import opened Bytes
  import opened Codec
  import opened Store
  import opened Aof
  import opened Snapshot
  import opened Rdma
  import opened ControlLines

  datatype Phase = Offline | Handshake | FullSync | CatchUp | Online

  /** `kvs_replication_rdma_sync_t`. */
  datatype Sync = Sync(
    endpoint: Option<Endpoint>,
    established: bool,
    snapshotBytes: nat,
    acknowledgedBytes: nat,
    sendPending: bool,
    disconnectPending: bool)

  const NO_SYNC: Sync := Sync(None, false, 0, 0, false, false)

  /** How a stream or message callback ends: -1, KVS_STREAM_WAIT, 0, or bytes for TCP. */
  datatype Result = Failed | Wait | Idle | Emit(bytes: ByteString)

  // ================================================================= Primary

  datatype SnapshotReader = ReaderClosed | Reader(file: ByteString, pos: nat, remaining: nat)
  datatype AofReader = AofClosed | AofOpen(offset: nat, remaining: nat)

  datatype Primary = Primary(
    stores: Stores,
    aof: ByteString,
    phase: Phase,
    session: Option<nat>,
    syncId: Option<ByteString>,
    offset: nat,
    size: nat,
    reader: SnapshotReader,
    aofReader: AofReader,
    sync: Sync)

  datatype PrimaryStep = PrimaryStep(state: Primary, result: Result)

  /** Block size of the TCP stream callback. */
  const STREAM_CAPACITY: nat := 1024

  /** Successful read sizes: at least one byte, never past the capacity or the end. */
  predicate ReadSize(k: nat, capacity: nat, remaining: nat) {
    0 < k <= capacity && k <= remaining
  }

  /** `kvs_replication_rdma_send_snapshot_chunk`; `k` is what the file read returned. */
  function SendChunk(p: Primary, k: nat): PrimaryStep {
    if p.sync.sendPending then PrimaryStep(p, Wait)
    else if p.reader.ReaderClosed? || p.sync.endpoint.None? then PrimaryStep(p, Failed)
    else if !ReadSize(k, BUFFER_CAPACITY, p.reader.remaining)
            || p.reader.pos + k > |p.reader.file| then PrimaryStep(p, Failed)
    else
      var r := p.reader;
      match Send(p.sync.endpoint.value, r.file[r.pos..r.pos + k])
      case None => PrimaryStep(p, Failed)
      case Some(e) =>
        PrimaryStep(p.(reader := Reader(r.file, r.pos + k, r.remaining - k),
                       sync := p.sync.(endpoint := Some(e), sendPending := true,
                                       snapshotBytes := p.sync.snapshotBytes + k)),
                    Wait)
  }

  /** The message the Primary expects next, given how much it has sent. */
  function ExpectedMessage(p: Primary): ByteString {
    if p.sync.snapshotBytes > 0 then AckLine(p.sync.snapshotBytes)
    else if p.syncId.Some? then ReadyLine(p.syncId.value) else []
  }

  /** A received RDMA message: READY starts the transfer, an exact ACK releases the next block. */
  function PrimaryReceive(p: Primary, e: Endpoint, data: ByteString, k: nat): PrimaryStep {
    if data != ExpectedMessage(p) || data == [] then PrimaryStep(p, Failed)
    else if p.sync.snapshotBytes > 0 && p.sync.acknowledgedBytes >= p.sync.snapshotBytes then PrimaryStep(p, Failed)
    else
      match PostRecv(e)
      case None => PrimaryStep(p, Failed)
      case Some(e') =>
        var p' := p.(sync := p.sync.(endpoint := Some(e')));
        if p.sync.snapshotBytes > 0 then
          PrimaryStep(p'.(sync := p'.sync.(acknowledgedBytes := p.sync.snapshotBytes)), Wait)
        else SendChunk(p', k)
  }

  /** The FULL_SYNC part of `kvs_replication_stream` after the connection event. */
  function PrimaryFullSync(p: Primary, completion: Completion, k: nat): PrimaryStep {
    var s := p.sync;
    if s.disconnectPending || !s.established then PrimaryStep(p, Wait)
    else if s.endpoint.None? then PrimaryStep(p, Failed)
    else if !s.sendPending && s.snapshotBytes > 0 && s.acknowledgedBytes == s.snapshotBytes && p.reader.Reader? then
      if p.reader.remaining > 0 then SendChunk(p, k)
      else PrimaryStep(p.(sync := s.(disconnectPending := true), reader := ReaderClosed), Wait)
    else
      match completion
      case NoCompletion => PrimaryStep(p, Wait)
      case SendCompletion =>
        (match PollSend(s.endpoint.value)
         case None => PrimaryStep(p, Failed)
         case Some(e) => PrimaryStep(p.(sync := s.(endpoint := Some(e), sendPending := false)), Wait))
      case RecvCompletion =>
        match PollRecv(s.endpoint.value)
        case None => PrimaryStep(p, Failed)
        case Some(e) => PrimaryReceive(p, e, s.endpoint.value.inbox.value, k)
  }

  /** `kvs_replication_primary_start_catch_up`. */
  function StartCatchUp(p: Primary): Option<Primary> {
    if |p.aof| < p.offset then None
    else Some(p.(reader := ReaderClosed, aofReader := AofOpen(p.offset, |p.aof| - p.offset), phase := CatchUp))
  }

  /** Reading the next AOF block of the open range. */
  function ReadAof(p: Primary, k: nat): PrimaryStep
    requires p.aofReader.AofOpen?
  {
    var r := p.aofReader;
    if !ReadSize(k, STREAM_CAPACITY, r.remaining)
       || r.offset + k > |p.aof| then PrimaryStep(p.(aofReader := AofClosed), Failed)
    else PrimaryStep(p.(aofReader := AofOpen(r.offset + k, r.remaining - k)), Emit(p.aof[r.offset..r.offset + k]))
  }

  /** The catch-up and online part of `kvs_replication_stream`: finish the open range, then
      open the next one, announce ONLINE once, or wait. */
  function PrimaryAof(p: Primary, k: nat): PrimaryStep {
    match p.aofReader
    case AofOpen(offset, remaining) =>
      if remaining > 0 then ReadAof(p, k)
      else if |p.aof| < offset then PrimaryStep(p.(aofReader := AofClosed), Failed)
      else if |p.aof| > offset then ReadAof(p.(aofReader := AofOpen(offset, |p.aof| - offset)), k)
      else
        var p' := p.(aofReader := AofClosed, offset := offset);
        if p.phase.Online? then PrimaryStep(p', Wait)
        else PrimaryStep(p'.(phase := Online), Emit(OnlineFrame(offset) + CRLF))
    case AofClosed =>
      if !p.phase.Online? then PrimaryStep(p, Idle)
      else if |p.aof| < p.offset then PrimaryStep(p, Failed)
      else if |p.aof| == p.offset then PrimaryStep(p, Wait)
      else ReadAof(p.(aofReader := AofOpen(p.offset, |p.aof| - p.offset)), k)
  }

  /** A regular end of the RDMA connection: everything sent, acknowledged and completed. */
  predicate PrimaryTransferDone(p: Primary) {
    && p.sync.disconnectPending && !p.sync.sendPending
    && p.sync.snapshotBytes == p.size && p.sync.acknowledgedBytes == p.sync.snapshotBytes
  }

  /** `kvs_replication_stream` for the connection `conn`. */
  function PrimaryStream(p: Primary, conn: nat, event: CmEvent, completion: Completion, k: nat): PrimaryStep {
    if p.session != Some(conn) then PrimaryStep(p, Idle)
    else if !p.phase.FullSync? then PrimaryAof(p, k)
    else
      match event
      case CmFailure => PrimaryStep(p, Failed)
      case RouteResolved => PrimaryStep(p, Failed)
      case Disconnected =>
        if p.sync.endpoint.None? || !PrimaryTransferDone(p) then PrimaryStep(p, Failed)
        else
          (match StartCatchUp(p.(sync := NO_SYNC))
           case None => PrimaryStep(p.(sync := NO_SYNC), Failed)
           case Some(p') => PrimaryAof(p', k))
      case Established =>
        if p.sync.endpoint.None? then PrimaryStep(p, Failed)
        else PrimaryFullSync(p.(sync := p.sync.(established := true)), completion, k)
      case Accepting(link) =>
        if p.sync.endpoint.None? then
          PrimaryFullSync(p.(sync := p.sync.(endpoint := Some(NewEndpoint(link).(recvPending := true)))), completion, k)
        else PrimaryFullSync(p, completion, k)
      case NoEvent => PrimaryFullSync(p, completion, k)
  }

  /** `kvs_replication_on_replica_disconnected`. */
  function PrimaryDisconnected(p: Primary, conn: nat): Primary {
    if p.session != Some(conn) then p
    else p.(sync := NO_SYNC, syncId := None, reader := ReaderClosed, aofReader := AofClosed,
            session := None, size := 0, phase := Offline)
  }

  /** What the environment supplies to a PSYNC: the bytes the snapshot save wrote, a fresh
      identifier, this Primary's own identifier and its RDMA port. */
  datatype PsyncInput = PsyncInput(file: ByteString, syncId: ByteString, replicationId: ByteString, port: nat)

  /** The answer to one line. A refusal may come after the state has changed: a notification
      that does not fit the response buffer leaves the new session behind. */
  datatype FrameStep = FrameFailed(state: Primary) | FrameStep(state: Primary, response: ByteString)

  /** The PSYNC branch of `kvs_replication_frame_protocol`. */
  function Psync(p: Primary, conn: nat, input: PsyncInput): FrameStep {
    if p.session.Some? || p.sync.endpoint.Some? || |input.file| == 0 then FrameFailed(p)
    else
      var p' := p.(reader := Reader(input.file, 0, |input.file|), aofReader := AofClosed, syncId := Some(input.syncId),
                   offset := |p.aof|, size := |input.file|, session := Some(conn), phase := FullSync);
      FrameStep(p', ResyncFrame(Resync(input.replicationId, |p.aof|, |input.file|, input.port, input.syncId)) + CRLF)
  }

  /** `kvs_replication_frame_protocol` with `capacity` bytes left for the response, which
      must stay below that. */
  function PrimaryFrame(p: Primary, conn: nat, frame: ByteString, capacity: nat, input: PsyncInput): FrameStep {
    if frame == [] || capacity == 0 then FrameFailed(p)
    else
      var answer :=
        if frame == PING then FrameStep(p, PONG + CRLF)
        else if frame == PSYNC then Psync(p, conn, input)
        else FrameStep(p, Ascii("ERROR unknown replication command\r\n"));
      if answer.FrameStep? && |answer.response| >= capacity then FrameFailed(answer.state) else answer
  }

  /** `kvs_line_batch_protocol` with that handler: all complete lines, their responses
      together, and the unconsumed rest. */
  datatype Batch = BatchFailed(state: Primary) | Batch(state: Primary, response: ByteString, rest: ByteString)

  function PrimaryBatch(p: Primary, conn: nat, input: ByteString, capacity: nat, psync: PsyncInput): Batch
    decreases |input|
  {
    match FirstLine(input)
    case NoLine => Batch(p, [], input)
    case Line(frame, size) =>
      match PrimaryFrame(p, conn, frame, capacity, psync)
      case FrameFailed(p') => BatchFailed(p')
      case FrameStep(p', response) =>
        var left := if |response| <= capacity then capacity - |response| else 0;
        match PrimaryBatch(p', conn, input[size..], left, psync)
        case BatchFailed(p'') => BatchFailed(p'')
        case Batch(p'', responses, rest) => Batch(p'', response + responses, rest)
  }

  // ================================================================= Replica

  datatype SnapshotWriter = WriterClosed | Writer(file: ByteString, remaining: nat)

  /** `installed` is the file at the final snapshot path. */
  datatype Replica = Replica(
    stores: Stores,
    aof: ByteString,
    phase: Phase,
    conn: Option<nat>,
    syncId: Option<ByteString>,
    offset: nat,
    size: nat,
    writer: SnapshotWriter,
    installed: Option<ByteString>,
    sync: Sync,
    input: ByteString)

  datatype ReplicaStep = ReplicaStep(state: Replica, result: Result)

  /** `kvs_replication_on_primary_connected`. */
  function ReplicaConnected(r: Replica, conn: nat): Replica {
    r.(conn := Some(conn), phase := Handshake, input := [])
  }

  /** `kvs_replication_on_primary_disconnected`. */
  function ReplicaDisconnected(r: Replica): Replica {
    r.(sync := NO_SYNC, syncId := None, writer := WriterClosed, conn := None, phase := Offline, input := [])
  }

  /** `kvs_replication_is_online`. */
  predicate IsOnline(r: Replica) {
    r.conn.Some? && r.phase.Online?
  }

  /** A handled piece of TCP input: what it answers and how much it consumed. A refusal may come
      after the state has changed. */
  datatype Handled = HandleFailed(state: Replica) | Handled(state: Replica, response: ByteString, consumed: nat)

  /** `kvs_replication_upstream_frame_protocol` in the handshake; `link` names the RDMA
      connection that a notification starts. */
  function HandshakeFrame(r: Replica, frame: ByteString, size: nat, link: nat): Handled {
    if frame == PONG then Handled(r, PSYNC + CRLF, size)
    else if |frame| >= 16 && frame[..16] == RESYNC_WORD then
      (match ParseResync(frame)
       case None => HandleFailed(r)
       case Some(m) =>
         if m.offset > INT64_MAX || m.size > INT64_MAX then HandleFailed(r)
         else
           var r' := r.(writer := Writer([], m.size), syncId := Some(m.syncId), offset := m.offset, size := m.size);
           if r.sync.endpoint.Some? then HandleFailed(r')
           else Handled(r'.(sync := r.sync.(endpoint := Some(NewEndpoint(link))), phase := FullSync), [], size))
    else HandleFailed(r)
  }

  /** `kvs_replication_online_control_frame_protocol`. */
  function OnlineControl(r: Replica, frame: ByteString, size: nat): Handled {
    match ParseOnline(frame)
    case None => HandleFailed(r)
    case Some(offset) =>
      if offset > INT64_MAX || |r.aof| != offset then HandleFailed(r)
      else Handled(r.(offset := |r.aof|, phase := Online), [], size)
  }

  /** One complete control line at the front of the input, if there is one. */
  function ControlLine(r: Replica, input: ByteString, link: nat): Handled {
    match FirstLine(input)
    case NoLine => Handled(r, [], 0)
    case Line(frame, size) =>
      if frame == [] then HandleFailed(r)
      else if r.phase.Handshake? then HandshakeFrame(r, frame, size, link)
      else OnlineControl(r, frame, size)
  }

  /** `kvs_replication_catch_up_command_protocol`: a replicated write must succeed, and is
      re-encoded into the Replica's own AOF. */
  function CatchUpCommand(r: Replica, fields: Fields, size: nat): Handled {
    match Apply(r.stores, fields)
    case None => HandleFailed(r)
    case Some(stores) =>
      var aof := r.aof + EncodeCommand(fields);
      if |aof| > INT64_MAX then HandleFailed(r.(stores := stores))
      else Handled(r.(stores := stores, aof := aof, offset := |aof|), [], size)
  }

  /** `kvs_replication_upstream_network_protocol` on non-empty input. */
  function UpstreamProtocol(r: Replica, input: ByteString, link: nat): Handled
    requires input != []
  {
    match r.phase
    case Handshake => ControlLine(r, input, link)
    case FullSync => HandleFailed(r)
    case Offline => HandleFailed(r)
    case _ =>
      if input[0] == STAR then
        match ParseCommand(input, 3, SIZE_MAX)
        case Incomplete => Handled(r, [], 0)
        case Malformed => HandleFailed(r)
        case Complete(fields, size) => CatchUpCommand(r, fields, size)
      else ControlLine(r, input, link)
  }

  /** `kvs_install_replication_snapshot`: the checkpoint must be the announced boundary. On a
      mismatch the engines are left empty. */
  function Install(r: Replica, file: ByteString): Option<Replica> {
    match Load(file)
    case LoadFailed => None
    case Loaded(stores, checkpoint) =>
      if checkpoint != Some(r.offset) then None
      else Some(r.(stores := stores, aof := Truncate(r.aof, r.offset)))
  }

  /** `kvs_replication_finish_full_sync`: commit (rename), install, enter CATCH_UP. */
  function FinishFullSync(r: Replica): Replica
    requires r.writer.Writer?
  {
    var committed := r.(writer := WriterClosed, installed := Some(r.writer.file));
    match Install(committed, r.writer.file)
    case None => committed.(stores := EMPTY)
    case Some(r') => r'.(phase := CatchUp)
  }

  /** `kvs_replication_receive_snapshot_data` for a block that fits the remaining length. */
  function ReceiveData(r: Replica, data: ByteString): ReplicaStep
    requires r.writer.Writer? && |data| <= r.writer.remaining
  {
    var r' := r.(writer := Writer(r.writer.file + data, r.writer.remaining - |data|));
    if r'.writer.remaining > 0 then ReplicaStep(r', Wait)
    else
      var done := FinishFullSync(r');
      ReplicaStep(done, if done.phase.CatchUp? then Wait else Failed)
  }

  /** Submitting the cumulative acknowledgement when there is something new and the send
      buffer is free. */
  function SubmitAck(r: Replica): ReplicaStep {
    var s := r.sync;
    if s.endpoint.Some? && !s.sendPending && s.snapshotBytes > s.acknowledgedBytes then
      match Send(s.endpoint.value, AckLine(s.snapshotBytes))
      case None => ReplicaStep(r, Failed)
      case Some(e) =>
        ReplicaStep(r.(sync := s.(endpoint := Some(e), sendPending := true, acknowledgedBytes := s.snapshotBytes)),
                    Wait)
    else ReplicaStep(r, Wait)
  }

  /** Snapshot complete, installed and acknowledged. */
  predicate ReplicaTransferDone(r: Replica) {
    && r.phase.CatchUp? && r.sync.snapshotBytes == r.size
    && r.sync.acknowledgedBytes == r.sync.snapshotBytes
  }

  function ReplicaReceive(r: Replica, e: Endpoint, data: ByteString): ReplicaStep {
    if !r.phase.FullSync? || r.writer.WriterClosed? || |data| == 0 || |data| > BUFFER_CAPACITY
       || |data| > r.writer.remaining
    then ReplicaStep(r, Failed)
    else
      var step := ReceiveData(r, data);
      if step.result.Failed? then step
      else
        match PostRecv(e)
        case None => ReplicaStep(step.state, Failed)
        case Some(e') =>
          var s := step.state.sync;
          ReplicaStep(step.state.(sync := s.(endpoint := Some(e'), snapshotBytes := s.snapshotBytes + |data|)), Wait)
  }

  /** `kvs_replication_upstream_stream` after the connection event. */
  function ReplicaTransfer(r0: Replica, completion: Completion): ReplicaStep {
    if !r0.sync.established then ReplicaStep(r0, Wait)
    else
      var acked := SubmitAck(r0);
      var r := acked.state;
      if acked.result.Failed? || r.sync.endpoint.None? then ReplicaStep(r, Failed)
      else if ReplicaTransferDone(r) then ReplicaStep(r, Wait)
      else
        var e := r.sync.endpoint.value;
        match completion
        case NoCompletion => ReplicaStep(r, Wait)
        case SendCompletion =>
          (match PollSend(e)
           case None => ReplicaStep(r, Failed)
           case Some(e') => ReplicaStep(r.(sync := r.sync.(endpoint := Some(e'), sendPending := false)), Wait))
        case RecvCompletion =>
          match PollRecv(e)
          case None => ReplicaStep(r, Failed)
          case Some(e') => ReplicaReceive(r, e', e.inbox.value)
  }

  /** The READY message that a newly established connection starts with. */
  function SendReady(r: Replica): ReplicaStep
    requires r.sync.endpoint.Some?
  {
    if r.syncId.None? then ReplicaStep(r, Failed)
    else
      match Send(r.sync.endpoint.value, ReadyLine(r.syncId.value))
      case None => ReplicaStep(r, Failed)
      case Some(e) => ReplicaStep(r.(sync := r.sync.(endpoint := Some(e), established := true, sendPending := true)),
                                  Wait)
  }

  /** `kvs_replication_upstream_stream`. */
  function ReplicaStream(r: Replica, event: CmEvent, completion: Completion): ReplicaStep {
    if r.sync.endpoint.None? then ReplicaStep(r, Idle)
    else
      match event
      case CmFailure => ReplicaStep(r, Failed)
      case Accepting(_) => ReplicaStep(r, Failed)
      case Disconnected =>
        if ReplicaTransferDone(r) then ReplicaStep(r.(sync := NO_SYNC), Idle) else ReplicaStep(r, Failed)
      case RouteResolved =>
        (match PostRecv(r.sync.endpoint.value)
         case None => ReplicaStep(r, Failed)
         case Some(e) => ReplicaTransfer(r.(sync := r.sync.(endpoint := Some(e))), completion))
      case Established =>
        var ready := SendReady(r);
        if ready.result.Failed? then ready else ReplicaTransfer(ready.state, completion)
      case NoEvent => ReplicaTransfer(r, completion)
  }
}
