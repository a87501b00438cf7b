/** Only the surroundings can end a connection: while reads, completions and connection events are
    what they should be and nobody closes anything, no callback and no handler ever fails. */
module ClusterUndisturbed {
  import opened Bytes
  import opened Codec
  import opened Store
  import opened Aof
  import opened Snapshot
  import opened Rdma
  import opened ControlLines
  import opened Replication
  import opened Cluster
  import opened ClusterInvariant
  import opened ClusterNetwork
  import opened ClusterPrimary
  import opened ClusterReplica
  import opened ClusterCatchUp
  import opened ClusterHandshake
  import opened ClusterPsync
  import opened ClusterTheorems
  import opened ClusterFiles
  import opened ClusterProgress
  import opened ClusterCalm
  import opened ClusterSync
  import opened ClusterStart
  import opened ClusterConverge

  // ------------------------------------------------- what the surroundings have to do

  /** A completion that really is in the completion queue. */
  predicate Ready(sync: Sync, completion: Completion) {
    match completion
    case NoCompletion => true
    case SendCompletion => sync.endpoint.Some? && sync.endpoint.value.sendDone
    case RecvCompletion => sync.endpoint.Some? && sync.endpoint.value.inbox.Some?
  }

  /** What this callback can still read: the rest of the snapshot, or the rest of the AOF. */
  function Readable(p: Primary, event: CmEvent): nat {
    if p.phase.FullSync? && !event.Disconnected? then if p.reader.Reader? then p.reader.remaining else 0
    else
      var from := if p.phase.FullSync? || p.aofReader.AofClosed? then p.offset else p.aofReader.offset;
      if !p.phase.FullSync? && p.aofReader.AofOpen? && p.aofReader.remaining > 0 then p.aofReader.remaining
      else if from <= |p.aof| then |p.aof| - from else 0
  }

  /** A read that succeeds: some bytes, at most one block of 1 MiB of the snapshot or 1024 bytes
      of the AOF, whenever there are any. */
  predicate ReadSucceeds(p: Primary, event: CmEvent, k: nat) {
    Readable(p, event) > 0 ==>
      0 < k <= Readable(p, event) && k <= if p.phase.FullSync? && !event.Disconnected? then 0x10_0000 else 1024
  }

  /** Nobody closes or restarts anything; reads succeed; completions are real; a connection event
      is the request of the Replica's connection, its establishment, or its end after the Primary
      has asked for it; lines meet enough room for the answer, and a PSYNC meets a snapshot. */
  ghost predicate Undisturbed(s: System, step: Step) {
    match step
    case PrimaryClose(_) => false
    case ReplicaClose => false
    case ReplicaRestart => false
    case PrimaryHandle(_, capacity, psync) => capacity >= 1024 && PsyncInputOk(s, psync)
    case PrimaryPoll(event, completion, k) =>
      && Ready(s.p.sync, completion) && ReadSucceeds(s.p, event, k) && CleanEvent(s, step)
      && !event.CmFailure? && !event.RouteResolved? && (event.Established? ==> s.p.sync.endpoint.Some?)
    case ReplicaPoll(event, completion) =>
      && Ready(s.r.sync, completion) && CleanEvent(s, step)
      && !event.CmFailure? && !event.Accepting?
      && (event.RouteResolved? ==> s.r.sync.endpoint.Some? && !s.r.sync.endpoint.value.recvPending)
    case _ => true
  }

  // ----------------------------------------------------------- the Primary's callback

  lemma RoundSucceeds(p: Primary, r: Replica, file: ByteString, nextLink: nat, accepted: set<nat>,
                      completion: Completion, k: nat)
    requires Linked(p, r, file, nextLink, accepted) && Ready(p.sync, completion)
    requires p.reader.Reader? && p.reader.remaining > 0 ==> 0 < k <= p.reader.remaining && k <= 0x10_0000
    ensures !PrimaryFullSync(p, completion, k).result.Failed?
  {
    hide ReadyLine, AckLine, NextPart, IsId;
    MessageSizes(p.syncId.value, p.sync.snapshotBytes);
  }

  lemma SnapshotRoundSucceeds(s: System, p: Primary, completion: Completion, k: nat)
    requires Inv(s) && Clean(s) && s.p.session.Some? && s.p.phase.FullSync?
    requires p == s.p || (p == s.p.(sync := s.p.sync.(established := true)) && s.p.sync.endpoint.Some?)
    requires Ready(p.sync, completion) && ReadSucceeds(s.p, NoEvent, k)
    ensures !PrimaryFullSync(p, completion, k).result.Failed?
  {
    hide Inv, Clean, Linked, PrimaryFullSync, Matched, ReplicaTransferDone;
    Stages(s);
    EndFacts(s);
    if Transferring(s) {
      LinkedHolds(s);
      var file := s.sessions[s.p.syncId.value].file;
      if p.sync.established && !s.p.sync.established {
        EstablishedLinked(s.p, s.r, file, s.nextLink, s.accepted);
      }
      RoundSucceeds(p, s.r, file, s.nextLink, s.accepted, completion, k);
    } else {
      IdleRound(p, completion, k);
    }
  }

  lemma IdleRound(p: Primary, completion: Completion, k: nat)
    requires p.sync.disconnectPending || !p.sync.established
    ensures PrimaryFullSync(p, completion, k) == PrimaryStep(p, Wait)
  {
  }

  lemma AofSucceeds(p: Primary, k: nat)
    requires PastSync2(p) && AofReady(p) && ReadSucceeds(p, NoEvent, k)
    ensures !PrimaryAof(p, k).result.Failed?
  {
  }

  lemma LeaveSucceeds(p: Primary, conn: nat, completion: Completion, k: nat)
    requires p.session == Some(conn) && p.phase.FullSync? && p.sync.endpoint.Some? && PrimaryTransferDone(p)
    requires p.offset <= |p.aof| && ReadSucceeds(p, Disconnected, k)
    ensures !PrimaryStream(p, conn, Disconnected, completion, k).result.Failed?
  {
  }

  lemma StreamSucceeds(s: System, event: CmEvent, completion: Completion, k: nat)
    requires Inv(s) && Clean(s) && s.p.session.Some? && Undisturbed(s, PrimaryPoll(event, completion, k))
    ensures !PrimaryStream(s.p, s.p.session.value, event, completion, k).result.Failed?
  {
    hide Inv, Clean, PrimaryFullSync, PrimaryAof, PrimaryTransferDone, ReplicaTransferDone, AofReady;
    Stages(s);
    EndFacts(s);
    if PastSync2(s.p) {
      AofReadyHolds(s);
      AofSucceeds(s.p, k);
    } else if event.Disconnected? {
      OffsetInside(s);
      LeaveSucceeds(s.p, s.p.session.value, completion, k);
    } else if event.Accepting? && s.p.sync.endpoint.None? {
      var p := s.p.(sync := s.p.sync.(endpoint := Some(NewEndpoint(event.link).(recvPending := true))));
      IdleRound(p, completion, k);
    } else {
      var p := if event.Established? then s.p.(sync := s.p.sync.(established := true)) else s.p;
      SnapshotRoundSucceeds(s, p, completion, k);
    }
  }

  // ----------------------------------------------------------- the Replica's callback

  /** A round on the shared connection; without an established one, or after the last
      acknowledgement, the Replica only waits. */
  lemma TransferSucceeds(s: System, completion: Completion)
    requires Inv(s) && Clean(s) && s.p.session.Some? && s.r.sync.endpoint.Some? && Ready(s.r.sync, completion)
    ensures !ReplicaTransfer(s.r, completion).result.Failed?
  {
    hide Inv, Clean, Linked, Matched, ReplicaTransfer, ReplicaTransferDone, PrimaryTransferDone;
    Stages(s);
    EndFacts(s);
    if Transferring(s) {
      LinkedHolds(s);
      var file := s.sessions[s.p.syncId.value].file;
      if s.r.sync.established && s.r.sync.endpoint.value.inbox.Some? && completion.RecvCompletion? {
        ReplicaReceives(s, file);
      } else {
        NoBlockSucceeds(s.p, s.r, file, s.nextLink, s.accepted, completion);
      }
    } else {
      IdleTransfer(s.r, completion);
    }
  }

  lemma NoBlockSucceeds(p: Primary, r: Replica, file: ByteString, nextLink: nat, accepted: set<nat>,
                        completion: Completion)
    requires Linked(p, r, file, nextLink, accepted) && Ready(r.sync, completion)
    requires completion.RecvCompletion? ==> !r.sync.established || r.sync.endpoint.value.inbox.None?
    ensures !ReplicaTransfer(r, completion).result.Failed?
  {
    hide ReadyLine, AckLine, NextPart, IsId, Matched, ReplicaReceive;
    MessageSizes(p.syncId.value, r.sync.snapshotBytes);
  }

  lemma IdleTransfer(r: Replica, completion: Completion)
    requires r.sync.endpoint.Some? && (!r.sync.established || ReplicaTransferDone(r))
    ensures ReplicaTransfer(r, completion) == ReplicaStep(r, Wait)
  {
    hide AckLine, ReplicaReceive;
  }

  lemma UpstreamSucceeds(s: System, event: CmEvent, completion: Completion)
    requires Inv(s) && Clean(s) && OneOwner(s) && Attached(s)
    requires s.r.conn.Some? && s.r.syncId.Some? && ReplicaEventOk(s, event)
    requires Undisturbed(s, ReplicaPoll(event, completion))
    ensures !ReplicaStream(s.r, event, completion).result.Failed?
  {
    hide Inv, Clean, OneOwner, ReplicaTransfer, PrimaryTransferDone, SendReady;
    EndFacts(s);
    if s.r.sync.endpoint.Some? {
      SessionIsThere(s);
      Stages(s);
      match event
      case NoEvent => TransferSucceeds(s, completion);
      case Disconnected => EndIsRegular(s);
      case RouteResolved =>
        if Transferring(s) {
          SharedReceives(s);
        }
        IdleTransfer(s.r.(sync := s.r.sync.(endpoint := PostRecv(s.r.sync.endpoint.value))), completion);
      case Established => EstablishSucceeds(s, completion);
      case _ =>
    }
  }

  /** The session of a Replica with an RDMA connection is the Primary's. */
  lemma SessionIsThere(s: System)
    requires Inv(s) && OneOwner(s) && Attached(s) && s.r.sync.endpoint.Some?
    ensures s.p.session.Some?
  {
    EndFacts(s);
    hide LogOk, SessionsOk, PrimaryOk, LinkOk, ReplicaFullSyncOk, ReplicaCaughtUpOk, ReplicaSyncOk, PositionsOk,
         HandshakeOk;
  }

  lemma EndIsRegular(s: System)
    requires Inv(s) && Clean(s) && s.p.session.Some? && s.r.sync.endpoint.Some? && PrimaryEnded(s)
    ensures ReplicaTransferDone(s.r)
  {
    hide Inv, Clean, PrimaryTransferDone;
    Stages(s);
    EndFacts(s);
    if Transferring(s) {
      EndingFacts(s);
    }
  }

  lemma EstablishSucceeds(s: System, completion: Completion)
    requires Inv(s) && Clean(s) && s.p.session.Some? && s.r.sync.endpoint.Some? && Ready(s.r.sync, completion)
    requires ReplicaEventOk(s, Established)
    ensures !ReplicaStream(s.r, Established, completion).result.Failed?
  {
    hide Inv, Clean, Linked, Matched, ReplicaTransfer, SendReady, PrimaryTransferDone;
    Stages(s);
    EndFacts(s);
    LinkedHolds(s);
    var file := s.sessions[s.p.syncId.value].file;
    ReadyLinked(s.p, s.r, file, s.nextLink, s.accepted);
    NothingReady(s.p, s.r, file, s.nextLink, s.accepted, completion);
    ReplicaWaits(s.r);
  }

  lemma NothingReady(p: Primary, r: Replica, file: ByteString, nextLink: nat, accepted: set<nat>,
                     completion: Completion)
    requires Linked(p, r, file, nextLink, accepted) && !r.sync.established && Ready(r.sync, completion)
    ensures completion.NoCompletion?
  {
    hide Matched, IsId;
  }

  // --------------------------------------------------------------- the lines of both sides

  lemma LinesSucceed(s: System, c: nat, capacity: nat, psync: PsyncInput)
    requires Inv(s) && Clean(s) && capacity >= 1024 && PsyncInputOk(s, psync)
    requires c in s.received && s.received[c] != []
    ensures PrimaryBatch(s.p, c, s.received[c], capacity, psync).Batch?
  {
    hide Inv, PrimaryLinkClean, ReplicaLinkClean, PhasesClean, PrimaryBatch, PING, PONG, PSYNC, PsyncInputOk,
         ResyncFrame, Notification;
    OwnConnection(s, c);
    HandshakeLines();
    var input, rest := s.received[c], s.toPrimary[c];
    var frame := if input + rest == PING + CRLF then PING else PSYNC;
    if |input| < |frame + CRLF| {
      CutBatch(s.p, c, capacity, psync, frame, input, rest);
    } else {
      LineInput(input, rest, frame);
      assert input + [] == input;
      if s.p.session.Some? {
        Stages(s);
      }
      NoEndpoint(s);
      LogOf(s);
      SnapshotLoads(s, psync);
      NotificationFits(s, psync);
      PingBatch(s.p, c, capacity, psync);
      PsyncBatch(s.p, c, capacity, psync);
    }
  }

  lemma InputSucceeds(s: System)
    requires Inv(s) && ReplicaReadsTcp(s) && s.r.input != []
    ensures UpstreamProtocol(s.r, s.r.input, s.nextLink).Handled?
  {
    hide Inv, UpstreamProtocol, Notified;
    ReadingPhase(s);
    if s.r.phase.Handshake? {
      HandshakeInput(s);
      if id :| id in s.sessions && Notified(s, s.r.conn.value, id) {
        NoticeSucceeds(s, id);
      } else {
        PongSucceeds(s);
      }
    } else {
      ReplicatedInputAccepted(s);
    }
  }

  lemma NoticeSucceeds(s: System, id: ByteString)
    requires Inv(s) && ReplicaReadsTcp(s) && s.r.input != [] && s.r.phase.Handshake?
    requires id in s.sessions && Notified(s, s.r.conn.value, id)
    ensures UpstreamProtocol(s.r, s.r.input, s.nextLink).Handled?
  {
    hide Inv, Replication.HandshakeFrame, FirstLine, ResyncFrame, Untouched;
    var c := s.r.conn.value;
    if s.toReplica[c] == [] {
      NotifiedHandled(s, id);
    } else {
      var x := s.sessions[id];
      var m := Resync(x.replicationId, x.sent, |x.file|, x.port, id);
      NoticeNumbers(s, id);
      ResyncRoundTrip(m);
      LineInput(s.r.input, s.toReplica[c], ResyncFrame(m));
      assert |s.r.input + s.toReplica[c]| > |s.r.input|;
    }
  }

  lemma NoticeNumbers(s: System, id: ByteString)
    requires Inv(s) && id in s.sessions
    ensures var x := s.sessions[id]; ResyncOk(Resync(x.replicationId, x.sent, |x.file|, x.port, id))
  {
    hide LogOk, PrimaryOk, ReplicaOk, LinkOk, PositionsOk, Load, StoresAt, Stream, IsId;
    assert SessionOk(s.base, s.log, s.p.aof, s.nextConn, id, s.sessions[id]);
  }

  lemma PongSucceeds(s: System)
    requires ReplicaReadsTcp(s) && s.r.input != [] && s.r.phase.Handshake?
    requires s.r.input + s.toReplica[s.r.conn.value] == PONG + CRLF
    ensures UpstreamProtocol(s.r, s.r.input, s.nextLink).Handled?
  {
    hide FirstLine, PONG, PSYNC;
    HandshakeLines();
    LineInput(s.r.input, s.toReplica[s.r.conn.value], PONG);
  }

  // --------------------------------------------------------------------- every step

  lemma HandleKeeps(s: System, c: nat, capacity: nat, psync: PsyncInput)
    requires Inv(s) && Clean(s) && Undisturbed(s, PrimaryHandle(c, capacity, psync))
    ensures KeepsConnections(s, DoPrimaryHandle(s, c, capacity, psync))
  {
    hide Inv, Clean, PrimaryBatch, PsyncInputOk, NewSession, Push;
    if c in s.received && s.received[c] != [] {
      LinesSucceed(s, c, capacity, psync);
    }
  }

  lemma PrimaryKeeps(s: System, event: CmEvent, completion: Completion, k: nat)
    requires Inv(s) && Clean(s) && Undisturbed(s, PrimaryPoll(event, completion, k))
    ensures KeepsConnections(s, DoPrimaryPoll(s, event, completion, k))
  {
    hide Inv, Clean, Undisturbed, PrimaryStream, Recorded, Push, PrimaryEventOk;
    if s.p.session.Some? {
      StreamSucceeds(s, event, completion, k);
    }
  }

  lemma ReplicaKeeps(s: System, event: CmEvent, completion: Completion)
    requires Inv(s) && Clean(s) && OneOwner(s) && Attached(s) && Undisturbed(s, ReplicaPoll(event, completion))
    ensures KeepsConnections(s, DoReplicaPoll(s, event, completion))
  {
    hide Inv, Clean, OneOwner, Attached, Undisturbed, ReplicaStream, ReplicaEventOk;
    if s.r.conn.Some? && s.r.syncId.Some? && ReplicaEventOk(s, event) {
      UpstreamSucceeds(s, event, completion);
      StreamPhases(s.r, event, completion);
    }
  }

  lemma InputKeeps(s: System)
    requires Inv(s)
    ensures KeepsConnections(s, DoReplicaHandle(s))
  {
    hide Inv, UpstreamProtocol, Push;
    if ReplicaReadsTcp(s) && s.r.input != [] {
      InputSucceeds(s);
      HandlerKeepsConnection(s.r, s.r.input, s.nextLink);
    }
  }

  lemma HandlerKeepsConnection(r: Replica, input: ByteString, link: nat)
    requires input != []
    ensures var h := UpstreamProtocol(r, input, link);
            h.Handled? ==> h.state.conn == r.conn && h.consumed <= |input|
  {
    hide EncodeCommand, Apply, ParseResync, ParseOnline;
    ParsedInside(input);
  }

  lemma ParsedInside(input: ByteString)
    ensures var v := ParseCommand(input, 3, SIZE_MAX); v.Complete? ==> v.next <= |input|
  {
    if ParseCommand(input, 3, SIZE_MAX).Complete? {
      var count, nums := AcceptedIsWire(input, 3, SIZE_MAX);
    }
  }

  /** Steps that call nobody. */
  lemma QuietKeeps(s: System, step: Step)
    requires Undisturbed(s, step) && !step.PrimaryHandle? && !step.PrimaryPoll? && !step.ReplicaPoll?
             && !step.ReplicaHandle?
    ensures KeepsConnections(s, Next(s, step))
  {
    hide Apply, EncodeCommand, Loggable, IsSnapshotOf, DoDeliverToReplica, DoDeliverToPrimary, SendFinished,
         PsyncInputOk;
    match step
    case DeliverToReplica => ToReplicaKeeps(s);
    case DeliverToPrimary => ToPrimaryKeeps(s);
    case _ =>
  }

  /** No step that is undisturbed closes a connection. */
  lemma NothingFails(s: System, step: Step)
    requires Inv(s) && Clean(s) && OneOwner(s) && Attached(s) && Undisturbed(s, step)
    ensures FailureFree(s, step)
  {
    hide Inv, Clean, OneOwner, Attached, DoClientWrite, DoConnect, DoPrimaryRecv, DoPrimaryHandle, DoPrimaryPoll,
         DoDeliverToReplica, DoReplicaRecv, DoDeliverToPrimary, DoReplicaPoll, DoReplicaHandle, DoReplicaSave,
         SendFinished, KeepsConnections, Ready, ReadSucceeds, PsyncInputOk;
    match step
    case PrimaryHandle(c, capacity, psync) => HandleKeeps(s, c, capacity, psync);
    case PrimaryPoll(event, completion, k) => PrimaryKeeps(s, event, completion, k);
    case ReplicaPoll(event, completion) => ReplicaKeeps(s, event, completion);
    case ReplicaHandle => InputKeeps(s);
    case _ => QuietKeeps(s, step);
  }

  ghost predicate UndisturbedRun(s: System, steps: seq<Step>)
    decreases |steps|
  {
    steps == [] || (Undisturbed(s, steps[0]) && UndisturbedRun(Next(s, steps[0]), steps[1..]))
  }

  lemma {:induction false} UndisturbedIsCalm(s: System, steps: seq<Step>)
    requires Inv(s) && Clean(s) && OneOwner(s) && Attached(s) && UndisturbedRun(s, steps)
    ensures CalmRun(s, steps)
    decreases |steps|
  {
    hide Inv, Clean, OneOwner, Attached, Next, Undisturbed, FailureFree;
    if steps != [] {
      NothingFails(s, steps[0]);
      StepOk(s, steps[0]);
      CleanStep(s, steps[0]);
      OwnerStep(s, steps[0]);
      AttachedStep(s, steps[0]);
      UndisturbedIsCalm(Next(s, steps[0]), steps[1..]);
    }
  }

  /** An undisturbed run from the start is one without failures, with all that is proved of those. */
  lemma UndisturbedRunsAreCalm(s: System, steps: seq<Step>)
    requires Initial(s) && UndisturbedRun(s, steps)
    ensures CalmRun(s, steps)
  {
    hide Inv, Clean, OneOwner, Attached, Initial, UndisturbedRun, CalmRun;
    InitialOk(s);
    CleanInitially(s);
    NoSessions(s);
    UndisturbedIsCalm(s, steps);
  }
}
