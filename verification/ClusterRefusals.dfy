/** What each side refuses, in any state: connection events out of order, messages that are not
    exactly the expected ones, snapshots that do not fit, and lines it does not know. A refusal
    closes the connection and ends the synchronisation. */
module ClusterRefusals {
  import opened Bytes
  import opened Codec
  import opened Store
  import opened Aof
  import opened Snapshot
  import opened Rdma
  import opened ControlLines
  import opened ControlForms
  import opened Replication
  import opened Cluster

  /** The Primary's session on `c` is over, and with it the connection. */
  predicate SessionEnded(s: System, t: System, c: nat) {
    && t.p.session.None? && t.p.phase.Offline? && t.p.syncId.None? && t.p.sync == NO_SYNC && t.p.reader.ReaderClosed?
    && c !in t.received && t.p.stores == s.p.stores && t.p.aof == s.p.aof
  }

  /** The Replica has dropped its connection; the files stay. */
  predicate Dropped(s: System, t: System) {
    && t.r.conn.None? && t.r.phase.Offline? && t.r.syncId.None? && t.r.sync == NO_SYNC && t.r.writer.WriterClosed?
    && t.r.aof == s.r.aof && t.r.installed == s.r.installed && t.r.stores == s.r.stores
  }

  // --------------------------------------------------------------------- the Primary

  /** During a full synchronisation a failed connection, an event of the other side, and an end
      before everything is acknowledged end the session. */
  lemma PrimaryEventRefused(s: System, event: CmEvent, completion: Completion, k: nat)
    requires s.p.session.Some? && s.p.syncId.Some? && s.p.phase.FullSync?
    requires event.CmFailure? || event.RouteResolved? || (event.Disconnected? && !PrimaryTransferDone(s.p))
    ensures SessionEnded(s, Next(s, PrimaryPoll(event, completion, k)), s.p.session.value)
  {
    EventFails(s.p, s.p.session.value, event, completion, k);
    hide PrimaryTransferDone, PrimaryStream;
  }

  lemma EventFails(p: Primary, conn: nat, event: CmEvent, completion: Completion, k: nat)
    requires p.session == Some(conn) && p.phase.FullSync?
    requires event.CmFailure? || event.RouteResolved? || (event.Disconnected? && !PrimaryTransferDone(p))
    ensures PrimaryStream(p, conn, event, completion, k) == PrimaryStep(p, Failed)
  {
    hide PrimaryTransferDone, PrimaryFullSync, PrimaryAof;
  }

  /** A received message is the READY of this synchronisation before the first block, and the
      acknowledgement of exactly the bytes sent afterwards; anything else ends the session. */
  lemma PrimaryMessageRefused(s: System, data: ByteString, k: nat)
    requires s.p.session.Some? && s.p.syncId.Some? && s.p.phase.FullSync?
    requires s.p.sync.established && !s.p.sync.disconnectPending
    requires s.p.sync.endpoint.Some? && s.p.sync.endpoint.value.inbox == Some(data)
    requires s.p.sync.acknowledgedBytes < s.p.sync.snapshotBytes || s.p.sync.snapshotBytes == 0
    requires data != if s.p.sync.snapshotBytes == 0 then ReadyLine(s.p.syncId.value)
                     else AckLine(s.p.sync.snapshotBytes)
    ensures SessionEnded(s, Next(s, PrimaryPoll(NoEvent, RecvCompletion, k)), s.p.session.value)
  {
    hide ReadyLine, AckLine, SendChunk, PostRecv;
    MessageRefused(s.p, data, k);
    PollEnds(s, RecvCompletion, k);
  }

  lemma MessageRefused(p: Primary, data: ByteString, k: nat)
    requires p.syncId.Some? && p.sync.established && !p.sync.disconnectPending
    requires p.sync.endpoint.Some? && p.sync.endpoint.value.inbox == Some(data)
    requires p.sync.acknowledgedBytes < p.sync.snapshotBytes || p.sync.snapshotBytes == 0
    requires data != if p.sync.snapshotBytes == 0 then ReadyLine(p.syncId.value) else AckLine(p.sync.snapshotBytes)
    ensures PrimaryFullSync(p, RecvCompletion, k) == PrimaryStep(p, Failed)
  {
    hide ReadyLine, AckLine, SendChunk, PostRecv;
  }

  lemma PollEnds(s: System, completion: Completion, k: nat)
    requires s.p.session.Some? && s.p.syncId.Some? && s.p.phase.FullSync?
    requires PrimaryFullSync(s.p, completion, k) == PrimaryStep(s.p, Failed)
    ensures SessionEnded(s, Next(s, PrimaryPoll(NoEvent, completion, k)), s.p.session.value)
  {
    hide PrimaryFullSync, PrimaryAof;
  }

  /** A second PSYNC, from whatever connection, is refused and changes nothing. */
  lemma SecondPsyncRefused(p: Primary, conn: nat, capacity: nat, psync: PsyncInput)
    requires p.session.Some? || p.sync.endpoint.Some?
    ensures PrimaryFrame(p, conn, PSYNC, capacity, psync) == FrameFailed(p)
  {
    HandshakeLines();
    hide ResyncFrame;
  }

  /** A line that is neither PING nor PSYNC is answered by an error, and the connection stays. */
  lemma UnknownLineAnswered(p: Primary, conn: nat, frame: ByteString, capacity: nat, psync: PsyncInput)
    requires frame != [] && frame != PING && frame != PSYNC && capacity > 64
    ensures PrimaryFrame(p, conn, frame, capacity, psync)
            == FrameStep(p, Ascii("ERROR unknown replication command\r\n"))
  {
    hide ResyncFrame;
  }

  // --------------------------------------------------------------------- the Replica

  /** The same for the Replica's end of the connection. */
  lemma ReplicaEventRefused(s: System, event: CmEvent, completion: Completion)
    requires s.r.conn.Some? && s.r.syncId.Some? && s.r.sync.endpoint.Some?
    requires event.CmFailure? || event.Accepting? || (event.Disconnected? && !ReplicaTransferDone(s.r))
    ensures Dropped(s, Next(s, ReplicaPoll(event, completion)))
  {
    hide ReplicaTransferDone, ReplicaTransfer;
  }

  /** A block that is empty, larger than a buffer or longer than the rest of the snapshot, or one
      that arrives after the last, is refused. */
  lemma BlockRefused(r: Replica, e: Endpoint, data: ByteString)
    requires !r.phase.FullSync? || r.writer.WriterClosed? || data == [] || |data| > 1024 * 1024
             || |data| > r.writer.remaining
    ensures ReplicaReceive(r, e, data) == ReplicaStep(r, Failed)
  {
  }

  /** The state `q` has installed the snapshot of `r`'s synchronisation: its contents are those
      of a file with the announced boundary as checkpoint, and its AOF ends there. */
  predicate InstalledAtBoundary(r: Replica, q: Replica) {
    && q.installed.Some? && Load(q.installed.value) == Loaded(q.stores, Some(r.offset))
    && q.aof == Truncate(r.aof, r.offset)
  }

  lemma ReceiveEnters(r: Replica, e: Endpoint, data: ByteString)
    requires r.phase.FullSync?
    ensures ReplicaReceive(r, e, data).state.phase.CatchUp? ==>
              InstalledAtBoundary(r, ReplicaReceive(r, e, data).state)
  {
    hide Load, Truncate, PostRecv;
  }

  lemma TransferEnters(r: Replica, completion: Completion)
    requires r.phase.FullSync?
    ensures ReplicaTransfer(r, completion).state.phase.CatchUp? ==>
              InstalledAtBoundary(r, ReplicaTransfer(r, completion).state)
  {
    hide ReplicaReceive, AckLine, Truncate, Load, Send;
    var acked := SubmitAck(r).state;
    assert acked.phase.FullSync?;
    if completion.RecvCompletion? && acked.sync.endpoint.Some? && PollRecv(acked.sync.endpoint.value).Some? {
      var e := acked.sync.endpoint.value;
      if e.inbox.Some? {
        ReceiveEnters(acked, PollRecv(e).value, e.inbox.value);
      }
    }
  }

  /** A complete snapshot is installed only if it loads with the announced boundary as its
      checkpoint; then the engines are its contents and the AOF ends at the boundary. */
  lemma InstalledOnlyAtBoundary(s: System, event: CmEvent, completion: Completion)
    ensures var t := Next(s, ReplicaPoll(event, completion));
            s.r.phase.FullSync? && t.r.phase.CatchUp? ==> InstalledAtBoundary(s.r, t.r)
  {
    hide ReplicaStream, InstalledAtBoundary;
    if s.r.phase.FullSync? {
      StreamEnters(s.r, event, completion);
    }
  }

  lemma StreamEnters(r: Replica, event: CmEvent, completion: Completion)
    requires r.phase.FullSync?
    ensures ReplicaStream(r, event, completion).state.phase.CatchUp? ==>
              InstalledAtBoundary(r, ReplicaStream(r, event, completion).state)
  {
    hide ReplicaTransfer, ReadyLine, PostRecv, Send, Load, Truncate;
    if r.sync.endpoint.Some? {
      match event
      case NoEvent => TransferEnters(r, completion);
      case Established =>
        if SendReady(r).result.Wait? {
          TransferEnters(SendReady(r).state, completion);
        }
      case RouteResolved =>
        if PostRecv(r.sync.endpoint.value).Some? {
          TransferEnters(r.(sync := r.sync.(endpoint := PostRecv(r.sync.endpoint.value))), completion);
        }
      case _ =>
    }
  }

  /** Otherwise the last block is refused: the file is committed, but the engines are left empty
      and the synchronisation is over. */
  lemma WrongSnapshotRefused(r: Replica, data: ByteString)
    requires r.writer.Writer? && r.phase.FullSync? && |data| == r.writer.remaining
    requires match Load(r.writer.file + data)
             case LoadFailed => true
             case Loaded(_, checkpoint) => checkpoint != Some(r.offset)
    ensures var step := ReceiveData(r, data);
            && step.result.Failed? && step.state.stores == EMPTY && step.state.aof == r.aof
            && step.state.installed == Some(r.writer.file + data)
  {
    hide Load;
  }

  /** In the handshake only PONG and the notification are understood; a full synchronisation
      takes nothing from TCP. */
  lemma LineRefused(r: Replica, frame: ByteString, size: nat, link: nat)
    requires frame != PONG && (|frame| < 16 || frame[..16] != RESYNC_WORD || ParseResync(frame).None?)
    ensures HandshakeFrame(r, frame, size, link) == HandleFailed(r)
  {
    hide ParseResync;
  }

  /** An ONLINE line is accepted exactly when it names the Replica's own AOF length. */
  lemma OnlineExactly(r: Replica, frame: ByteString, size: nat)
    requires |r.aof| <= INT64_MAX
    ensures OnlineControl(r, frame, size)
            == if exists ds :: OnlineForm(frame, ds, |r.aof|)
               then Handled(r.(offset := |r.aof|, phase := Online), [], size) else HandleFailed(r)
  {
    hide ParseOnline;
    OnlineParsedExactly(frame, |r.aof|);
  }

  lemma SilenceInFullSync(r: Replica, input: ByteString, link: nat)
    requires input != [] && (r.phase.FullSync? || r.phase.Offline?)
    ensures UpstreamProtocol(r, input, link) == HandleFailed(r)
  {
  }

  /** A replicated command that does not succeed is refused. */
  lemma CommandRefused(r: Replica, fields: Fields, size: nat)
    requires Apply(r.stores, fields).None?
    ensures CatchUpCommand(r, fields, size) == HandleFailed(r)
  {
    hide Apply, EncodeCommand;
  }
}
