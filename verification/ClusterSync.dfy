/** A full synchronisation from its notification to the moment both sides have left it: in runs
    without failures it goes through fixed stages, every step that changes anything lowers a
    measure, and some such step is always possible. */
module ClusterSync {
  import opened Bytes
  import opened Codec
  import opened Store
  import opened Aof
  import opened Snapshot
  import opened Rdma
  import opened ControlLines
  import opened Replication
  import opened Cluster
  import opened ClusterInvariant
  import opened ClusterNetwork
  import opened ClusterHandshake
  import opened ClusterPsync
  import opened ClusterTheorems
  import opened ClusterFiles
  import opened ClusterProgress
  import opened ClusterCalm

  // --------------------------------------------------------------------- the stages

  /** The notification is on its way. */
  predicate NoticeStage(p: Primary, r: Replica) {
    && p.phase.FullSync? && p.sync == NO_SYNC
    && r.phase.Handshake? && r.sync == NO_SYNC && r.syncId.None?
  }

  /** The Replica has started its RDMA connection; the Primary has not accepted it. */
  predicate RequestStage(p: Primary, r: Replica, accepted: set<nat>) {
    && p.phase.FullSync? && p.sync == NO_SYNC && p.syncId.Some? && p.syncId == r.syncId
    && r.phase.FullSync? && r.sync.endpoint.Some? && !r.sync.established && !r.sync.sendPending
    && r.sync.endpoint.value.link !in accepted
  }

  /** Only the Primary still holds the connection. */
  predicate ReplicaLeft(p: Primary, r: Replica) {
    && p.phase.FullSync? && p.sync.endpoint.Some? && p.sync.established && PrimaryTransferDone(p)
    && PastSync(r) && r.sync == NO_SYNC && p.syncId.Some? && p.syncId == r.syncId
  }

  /** Only the Replica still holds the connection. */
  predicate PrimaryLeft(p: Primary, r: Replica) {
    && PastSync2(p) && p.sync == NO_SYNC
    && r.sync.endpoint.Some? && r.sync.established && r.sync.endpoint.value.recvPending && ReplicaTransferDone(r)
    && p.syncId.Some? && p.syncId == r.syncId
  }

  /** Both sides are out of the full synchronisation, without an RDMA connection. */
  predicate SyncDone(p: Primary, r: Replica) {
    && PastSync2(p) && p.sync == NO_SYNC && PastSync(r) && r.sync == NO_SYNC
    && p.syncId.Some? && p.syncId == r.syncId && p.session.Some? && r.conn == p.session
  }

  lemma Stages(s: System)
    requires Inv(s) && Clean(s) && s.p.session.Some?
    ensures s.r.conn == s.p.session && s.p.session.value in s.toReplica && s.p.session.value in s.received
    ensures NoticeStage(s.p, s.r) || RequestStage(s.p, s.r, s.accepted) || Transferring(s) || ReplicaLeft(s.p, s.r)
            || PrimaryLeft(s.p, s.r)
            || SyncDone(s.p, s.r)
    ensures s.p.sync.disconnectPending && s.p.sync.endpoint.Some? ==> PrimaryTransferDone(s.p) && s.p.sync.established
  {
    hide Inv, ReplicaTransferDone, PrimaryTransferDone, PrimaryLinkClean, ReplicaLinkClean, SameLink;
    EndFacts(s);
    StageFacts(s);
    SharedIds(s);
    if s.r.sync.endpoint.Some? {
      EstablishedAccepted(s);
    }
    StageCases(s.p, s.r, s.accepted);
  }

  /** More of what the invariant says about an active session. */
  lemma StageFacts(s: System)
    requires Inv(s) && s.p.session.Some? && s.r.conn == s.p.session
    ensures s.p.session.value in s.toReplica
    ensures s.r.phase.Handshake? || s.r.phase.FullSync? || PastSync(s.r)
    ensures !s.r.phase.Handshake? ==> s.r.syncId == s.p.syncId
    ensures s.r.phase.Handshake? ==> s.p.phase.FullSync?
    ensures PastSync2(s.p) ==> PastSync(s.r)
    ensures s.r.sync.endpoint.Some? && !s.r.sync.established ==> !s.r.sync.sendPending
    ensures s.r.sync.endpoint.Some? && s.r.sync.endpoint.value.link in s.accepted ==>
              s.r.sync.endpoint.value.recvPending
    ensures PastSync(s.r) && s.r.sync.endpoint.Some? ==> s.r.sync.established
    ensures s.p.sync.endpoint.Some? && s.p.sync.disconnectPending ==> PrimaryTransferDone(s.p) && s.p.sync.established
  {
    hide LogOk, SessionsOk, LinkOk, PrimaryReaderOk, Untouched, CopyOk, StreamOk, PositionsOk, Outstanding, ResyncFrame;
  }

  lemma StageCases(p: Primary, r: Replica, accepted: set<nat>)
    requires PrimaryLinkClean(p, r) && ReplicaLinkClean(p, r, accepted) && PhasesClean(p, r)
    requires p.session.Some? && r.conn == p.session && p.syncId.Some? && (p.phase.FullSync? || PastSync2(p))
    requires p.sync.endpoint.None? ==> p.sync == NO_SYNC
    requires p.sync.endpoint.Some? ==> p.phase.FullSync? && p.sync.endpoint.value.link in accepted
    requires r.sync.endpoint.None? ==> r.sync == NO_SYNC
    requires r.phase.Handshake? || r.phase.FullSync? || PastSync(r)
    requires r.phase.Handshake? ==> r.sync == NO_SYNC && r.syncId.None?
    requires r.phase.FullSync? ==> r.sync.endpoint.Some?
    requires !r.phase.Handshake? ==> r.syncId == p.syncId
    requires r.sync.endpoint.Some? && !r.sync.established ==> !r.sync.sendPending
    requires r.sync.endpoint.Some? && r.sync.established ==> r.sync.endpoint.value.link in accepted
    requires r.sync.endpoint.Some? && r.sync.endpoint.value.link in accepted ==> r.sync.endpoint.value.recvPending
    requires PastSync(r) && r.sync.endpoint.Some? ==> r.sync.established
    requires p.sync.endpoint.Some? && p.sync.disconnectPending ==> PrimaryTransferDone(p) && p.sync.established
    requires r.phase.Handshake? ==> p.phase.FullSync?
    requires PastSync2(p) ==> PastSync(r)
    ensures NoticeStage(p, r) || RequestStage(p, r, accepted) || (SameLink(p.sync, r.sync) && p.syncId == r.syncId)
            || ReplicaLeft(p, r) || PrimaryLeft(p, r) || SyncDone(p, r)
  {
    hide PrimaryTransferDone;
  }

  // --------------------------------------------------------------------- the measure

  /** Distance to the end, by stages; `notice` is what is still unread of the notification. */
  function Weight(p: Primary, r: Replica, notice: nat): int {
    if r.phase.Handshake? then 40 * p.size + 62 + notice
    else if p.phase.FullSync? && p.sync.endpoint.None? then
      40 * p.size + (if r.sync.endpoint.Some? && !r.sync.endpoint.value.recvPending then 61 else 60)
    else if SameLink(p.sync, r.sync) then Measure(p.size, p.sync, r.sync) + 3
    else (if p.sync.endpoint.Some? then 1 else 0) + (if r.sync.endpoint.Some? then 1 + SendWeight(r.sync) else 0)
  }

  function Unread(s: System): nat {
    if s.p.session.Some? && s.p.session.value in s.toReplica then |s.toReplica[s.p.session.value]| else 0
  }

  function SyncMeasure(s: System): int {
    Weight(s.p, s.r, Unread(s))
  }

  /** The step did not touch the synchronisation. */
  predicate Waited(s: System, t: System) {
    && t.p.sync == s.p.sync && t.r.sync == s.r.sync && SyncMeasure(t) == SyncMeasure(s)
    && (t.p.phase.FullSync? <==> s.p.phase.FullSync?) && (t.r.phase.Handshake? <==> s.r.phase.Handshake?)
  }

  predicate Progressed(s: System, t: System) {
    t.p.session == s.p.session && (SyncMeasure(t) < SyncMeasure(s) || Waited(s, t))
  }

  lemma WaitedFrame(s: System, t: System)
    requires t.p.sync == s.p.sync && t.r.sync == s.r.sync && t.p.session == s.p.session && t.p.size == s.p.size
    requires (t.p.phase.FullSync? <==> s.p.phase.FullSync?) && (t.r.phase.Handshake? <==> s.r.phase.Handshake?)
    requires s.r.phase.Handshake? ==> Unread(t) == Unread(s)
    ensures Progressed(s, t)
  {
    hide Measure;
  }

  /** The stages in the order of the measure. */
  lemma StageWeights(s: System)
    requires Inv(s) && Clean(s) && s.p.session.Some?
    ensures SyncMeasure(s) >= 0
    ensures SyncMeasure(s) == 0 <==> SyncDone(s.p, s.r)
    ensures Transferring(s) ==> 3 <= SyncMeasure(s) == SystemMeasure(s) + 3 < 40 * s.p.size + 60
    ensures NoticeStage(s.p, s.r) ==> SyncMeasure(s) == 40 * s.p.size + 62 + Unread(s)
    ensures RequestStage(s.p, s.r, s.accepted) ==>
              SyncMeasure(s) == 40 * s.p.size + (if s.r.sync.endpoint.value.recvPending then 60 else 61)
    ensures ReplicaLeft(s.p, s.r) ==> SyncMeasure(s) == 1
    ensures PrimaryLeft(s.p, s.r) ==> SyncMeasure(s) == 1 + SendWeight(s.r.sync)
  {
    hide Inv, Measure, Clean, ReplicaTransferDone, PrimaryTransferDone;
    Stages(s);
    EndFacts(s);
    if Transferring(s) {
      SharedLinkPhase(s);
      MeasurePositive(s);
      MeasureBound(s);
    }
  }

  lemma MeasureBound(s: System)
    requires Inv(s) && Transferring(s)
    ensures SystemMeasure(s) < 40 * s.p.size + 57
  {
    hide Inv;
    LinkedHolds(s);
  }

  // -------------------------------------------------- every step of a calm run lowers it

  /** Clients, other lines, and bytes the handshake does not wait for. */
  lemma QuietProgress(s: System, step: Step)
    requires Inv(s) && Clean(s) && s.p.session.Some? && FailureFree(s, step)
    requires step.ClientWrite? || step.Connect? || step.PrimaryRecv? || step.PrimaryClose? || step.ReplicaSave?
             || step.ReplicaClose?
    ensures Progressed(s, Next(s, step))
  {
    hide Inv, Clean, Weight, DoClientWrite, DoPrimaryRecv, DoReplicaSave, DoConnect;
    Stages(s);
    match step {
      case ClientWrite(fields) => WriteQuiet(s, fields);
      case PrimaryRecv(c, k) => RecvQuiet(s, c, k);
      case ReplicaSave(file) => SaveQuiet(s, file);
      case Connect => ConnectQuiet(s);
      case _ =>
    }
    WaitedFrame(s, Next(s, step));
  }

  lemma WriteQuiet(s: System, fields: Fields)
    ensures var t := DoClientWrite(s, fields);
            t.p == s.p.(stores := t.p.stores, aof := t.p.aof) && t.r == s.r && t.toReplica == s.toReplica
  {
    hide EncodeCommand, Apply, Loggable;
  }

  lemma RecvQuiet(s: System, c: nat, k: nat)
    ensures var t := DoPrimaryRecv(s, c, k); t.p == s.p && t.r == s.r && t.toReplica == s.toReplica
  {
  }

  lemma SaveQuiet(s: System, file: ByteString)
    ensures var t := DoReplicaSave(s, file);
            t.p == s.p && t.r == s.r.(installed := t.r.installed) && t.toReplica == s.toReplica
  {
    hide IsSnapshotOf;
  }

  lemma ConnectQuiet(s: System)
    requires s.r.conn.Some?
    ensures DoConnect(s) == s
  {
  }

  lemma LinesProgress(s: System, c: nat, capacity: nat, psync: PsyncInput)
    requires Inv(s) && Clean(s) && s.p.session.Some? && FailureFree(s, PrimaryHandle(c, capacity, psync))
    ensures Progressed(s, DoPrimaryHandle(s, c, capacity, psync))
  {
    hide Inv, Weight, PrimaryBatch, NewSession, IsSnapshotOf, Push, PrimaryLinkClean, ReplicaLinkClean;
    Stages(s);
    if c in s.received && s.received[c] != [] {
      ActiveSessionUndisturbed(s.p, c, s.received[c], capacity, psync);
      OwnConnection(s, c);
    } else {
      WaitedFrame(s, s);
    }
  }

  lemma NetworkProgress(s: System, step: Step)
    requires Inv(s) && Clean(s) && s.p.session.Some?
    requires step.PrimaryCompletesSend? || step.ReplicaCompletesSend? || step.DeliverToReplica?
             || step.DeliverToPrimary?
    ensures Progressed(s, Next(s, step))
  {
    hide Inv, Clean, Measure, Weight, DoDeliverToReplica, DoDeliverToPrimary, SendFinished, ReplicaTransferDone,
         PrimaryTransferDone;
    Stages(s);
    if Transferring(s) {
      NetworkFalls(s, step);
      NetworkKeeps(s, step);
      SharedLinkPhase(s);
      if Next(s, step) != s {
        TransferWeights(s, Next(s, step));
      } else {
        WaitedFrame(s, s);
      }
    } else {
      LonelyNetwork(s, step);
    }
  }

  lemma NetworkKeeps(s: System, step: Step)
    requires step.PrimaryCompletesSend? || step.ReplicaCompletesSend? || step.DeliverToReplica?
             || step.DeliverToPrimary?
    ensures var t := Next(s, step);
            && t.p == s.p.(sync := t.p.sync) && t.r == s.r.(sync := t.r.sync)
            && t.toReplica == s.toReplica && t.received == s.received
  {
    hide DoDeliverToReplica, DoDeliverToPrimary, SendFinished;
    match step
    case DeliverToReplica => ToReplicaKeeps(s);
    case DeliverToPrimary => ToPrimaryKeeps(s);
    case _ =>
  }

  lemma ToReplicaKeeps(s: System)
    ensures var t := DoDeliverToReplica(s);
            && t.p == s.p.(sync := t.p.sync) && t.r == s.r.(sync := t.r.sync)
            && t.toReplica == s.toReplica && t.received == s.received
  {
    hide Deliver;
  }

  lemma ToPrimaryKeeps(s: System)
    ensures var t := DoDeliverToPrimary(s);
            && t.p == s.p.(sync := t.p.sync) && t.r == s.r.(sync := t.r.sync)
            && t.toReplica == s.toReplica && t.received == s.received
  {
    hide Deliver;
  }

  /** Two moments of one transfer. */
  lemma TransferWeights(s: System, t: System)
    requires Transferring(s) && Advances(s, t)
    requires s.p.phase.FullSync? && t.p.phase.FullSync? && !s.r.phase.Handshake? && !t.r.phase.Handshake?
             && t.p.session == s.p.session
    ensures Progressed(s, t) && SyncMeasure(t) < SyncMeasure(s)
  {
    hide Measure;
  }

  /** Without a shared connection the network has nothing to do but finish an old send. */
  lemma LonelyNetwork(s: System, step: Step)
    requires Inv(s) && Clean(s) && s.p.session.Some? && !Transferring(s)
    requires step.PrimaryCompletesSend? || step.ReplicaCompletesSend? || step.DeliverToReplica?
             || step.DeliverToPrimary?
    ensures Progressed(s, Next(s, step))
  {
    hide Inv, Clean, Measure;
    Stages(s);
    EndFacts(s);
    LonelyFacts(s);
    NoSharedLink(s);
  }

  lemma NoSharedLink(s: System)
    requires Inv(s) && Clean(s) && s.p.session.Some? && !Transferring(s)
    ensures !SameLink(s.p.sync, s.r.sync)
  {
    hide Inv, Clean;
    SharedIds(s);
  }

  lemma LonelyFacts(s: System)
    requires Inv(s) && s.p.session.Some?
    ensures s.p.sync.endpoint.Some? ==> (s.p.sync.endpoint.value.sendPending <==> s.p.sync.sendPending)
    ensures s.r.sync.endpoint.Some? ==> (s.r.sync.endpoint.value.sendPending <==> s.r.sync.sendPending)
  {
    hide LogOk, SessionsOk, LinkOk, PrimaryReaderOk, Untouched, CopyOk, StreamOk, PositionsOk, Outstanding, ResyncFrame;
  }

  lemma ReceiveProgress(s: System, k: nat)
    requires Inv(s) && Clean(s) && s.p.session.Some?
    ensures Progressed(s, DoReplicaRecv(s, k))
  {
    hide Inv, Clean, Measure;
    Stages(s);
  }

  lemma HandleProgress(s: System)
    requires Inv(s) && Clean(s) && s.p.session.Some? && FailureFree(s, ReplicaHandle)
    ensures Progressed(s, DoReplicaHandle(s))
  {
    hide Inv, Clean, Weight, UpstreamProtocol, DoReplicaHandle, FailureFree;
    if ReplicaReadsTcp(s) && s.r.input != [] {
      EndFacts(s);
      HandleSurvives(s);
      HandlerLink(s.r, s.r.input, s.nextLink);
      ProtocolPhases(s.r, s.r.input, s.nextLink);
      if s.r.phase.Handshake? && UpstreamProtocol(s.r, s.r.input, s.nextLink).state.phase.FullSync? {
        NoticeHandled(s, UpstreamProtocol(s.r, s.r.input, s.nextLink).state, DoReplicaHandle(s));
      } else {
        WaitedFrame(s, DoReplicaHandle(s));
      }
    } else {
      HandleIdle(s);
      WaitedFrame(s, s);
    }
  }

  lemma HandleIdle(s: System)
    requires !ReplicaReadsTcp(s) || s.r.input == []
    ensures DoReplicaHandle(s) == s
  {
  }

  /** A handler that keeps the connection did not refuse its input. */
  lemma HandleSurvives(s: System)
    requires Inv(s) && FailureFree(s, ReplicaHandle) && ReplicaReadsTcp(s) && s.r.input != []
    ensures var h := UpstreamProtocol(s.r, s.r.input, s.nextLink);
            var t := DoReplicaHandle(s);
            && h.Handled? && h.consumed <= |s.r.input| && t.p == s.p
            && t.r == h.state.(input := s.r.input[h.consumed..])
            && t.toReplica == s.toReplica
  {
    hide Inv, UpstreamProtocol, Push;
    EndFacts(s);
  }

  /** Reading the notification: the request takes the place of the unread bytes. */
  lemma NoticeHandled(s: System, h: Replica, t: System)
    requires Inv(s) && Clean(s) && s.p.session.Some? && s.r.phase.Handshake?
    requires h.phase.FullSync? && h.sync == NO_SYNC.(endpoint := Some(NewEndpoint(s.nextLink)))
    requires t.p == s.p && t.r == h.(input := t.r.input)
    ensures Progressed(s, t)
  {
    hide Inv, Clean;
    Stages(s);
    EndFacts(s);
    StageWeights(s);
  }

  lemma ProtocolPhases(r: Replica, input: ByteString, link: nat)
    requires input != []
    ensures var h := UpstreamProtocol(r, input, link);
            h.Handled? && h.state.phase.Handshake? ==> r.phase.Handshake?
  {
    hide EncodeCommand, ParseCommand, Apply, ParseResync, ParseOnline, FirstLine;
  }

  // --------------------------------------------------------- the Primary's callback

  /** A callback that neither failed nor sent anything. */
  function Polled(s: System, q: Primary, accepted: set<nat>): System {
    s.(p := q, accepted := accepted)
  }

  lemma PollCases(s: System, event: CmEvent, completion: Completion, k: nat)
    requires Inv(s) && s.p.session.Some? && s.p.phase.FullSync? && PrimaryEventOk(s, event)
             && FailureFree(s, PrimaryPoll(event, completion, k))
    requires !event.Disconnected?
    ensures var step := PrimaryStream(s.p, s.p.session.value, event, completion, k);
            && !step.result.Failed? && !event.CmFailure? && !event.RouteResolved?
            && DoPrimaryPoll(s, event, completion, k)
               == Polled(s, step.state, if event.Accepting? then s.accepted + {event.link} else s.accepted)
  {
    hide Inv, PrimaryFullSync, PrimaryAof, Recorded, Push;
    EndFacts(s);
    PrimaryWaits(s.p, event, completion, k);
  }

  lemma PrimaryWaits(p: Primary, event: CmEvent, completion: Completion, k: nat)
    requires p.session.Some? && p.phase.FullSync? && !event.Disconnected?
    ensures var step := PrimaryStream(p, p.session.value, event, completion, k);
            step.result.Failed? || step.result.Wait?
  {
    hide PrimaryFullSync, PrimaryAof;
    FullSyncResult(p, completion, k);
    FullSyncResult(p.(sync := p.sync.(established := true)), completion, k);
    if event.Accepting? {
      FullSyncResult(p.(sync := p.sync.(endpoint := Some(NewEndpoint(event.link).(recvPending := true)))), completion,
                     k);
    }
  }

  lemma PollProgress(s: System, event: CmEvent, completion: Completion, k: nat)
    requires Inv(s) && Clean(s) && s.p.session.Some? && FailureFree(s, PrimaryPoll(event, completion, k))
    ensures Progressed(s, DoPrimaryPoll(s, event, completion, k))
  {
    hide Inv, Clean, Weight, Measure, DoPrimaryPoll, PrimaryTransferDone, ReplicaTransferDone, FailureFree,
         PrimaryEventOk;
    Stages(s);
    EndFacts(s);
    if s.p.syncId.None? || !PrimaryEventOk(s, event) {
      PollIgnored(s, event, completion, k);
      WaitedFrame(s, s);
    } else if !s.p.phase.FullSync? {
      AofProgress(s, event, completion, k);
    } else if event.Disconnected? {
      LeaveProgress(s, completion, k);
    } else if Transferring(s) {
      TransferPollProgress(s, event, completion, k);
    } else {
      LonelyPollProgress(s, event, completion, k);
    }
  }

  lemma PollIgnored(s: System, event: CmEvent, completion: Completion, k: nat)
    requires s.p.session.None? || s.p.syncId.None? || !PrimaryEventOk(s, event)
    ensures DoPrimaryPoll(s, event, completion, k) == s
  {
  }

  /** A callback that keeps the connection did not fail. */
  lemma PollSurvives(s: System, event: CmEvent, completion: Completion, k: nat)
    requires Inv(s) && s.p.session.Some? && PrimaryEventOk(s, event)
             && FailureFree(s, PrimaryPoll(event, completion, k))
    ensures var step := PrimaryStream(s.p, s.p.session.value, event, completion, k);
            var t := DoPrimaryPoll(s, event, completion, k);
            && !step.result.Failed? && t.p == step.state && t.r == s.r
  {
    hide Inv, PrimaryStream, Recorded, Push;
    EndFacts(s);
  }

  lemma AofProgress(s: System, event: CmEvent, completion: Completion, k: nat)
    requires Inv(s) && Clean(s) && s.p.session.Some? && FailureFree(s, PrimaryPoll(event, completion, k))
             && PastSync2(s.p)
    requires PrimaryEventOk(s, event)
    ensures Progressed(s, DoPrimaryPoll(s, event, completion, k))
  {
    hide Inv, Clean, Weight, PrimaryStream, DoPrimaryPoll, FailureFree;
    Stages(s);
    EndFacts(s);
    PollSurvives(s, event, completion, k);
    PrimaryStreamLink(s.p, s.p.session.value, event, completion, k);
    WaitedFrame(s, DoPrimaryPoll(s, event, completion, k));
  }

  /** The Primary leaves first or second. */
  lemma LeaveProgress(s: System, completion: Completion, k: nat)
    requires Inv(s) && Clean(s) && s.p.session.Some? && s.p.phase.FullSync?
             && FailureFree(s, PrimaryPoll(Disconnected, completion, k))
    ensures Progressed(s, DoPrimaryPoll(s, Disconnected, completion, k))
  {
    hide Inv, Clean, Measure, PrimaryStream, DoPrimaryPoll, PrimaryTransferDone, ReplicaTransferDone;
    Stages(s);
    EndFacts(s);
    StageWeights(s);
    PollSurvives(s, Disconnected, completion, k);
    PrimaryLeaves(s.p, s.p.session.value, completion, k);
    if Transferring(s) {
      EndingWeight(s);
    }
  }

  lemma PrimaryLeaves(p: Primary, conn: nat, completion: Completion, k: nat)
    requires p.session == Some(conn) && p.phase.FullSync?
    ensures var step := PrimaryStream(p, conn, Disconnected, completion, k);
            !step.result.Failed? ==>
              p.sync.endpoint.Some? && PastSync2(step.state) && step.state.sync == NO_SYNC
              && step.state.session == p.session
  {
    hide PrimaryAof;
    if StartCatchUp(p.(sync := NO_SYNC)).Some? {
      AofLink(StartCatchUp(p.(sync := NO_SYNC)).value, k);
    }
  }

  lemma EndingWeight(s: System)
    requires Inv(s) && Transferring(s) && s.p.sync.disconnectPending
    ensures SystemMeasure(s) == SendWeight(s.r.sync)
  {
    hide Inv, ReadyLine, AckLine, IsId;
    LinkedHolds(s);
  }

  lemma TransferPollProgress(s: System, event: CmEvent, completion: Completion, k: nat)
    requires Inv(s) && Transferring(s) && s.p.phase.FullSync? && s.p.session.Some? && Clean(s)
    requires PrimaryEventOk(s, event) && FailureFree(s, PrimaryPoll(event, completion, k)) && !event.Disconnected?
    ensures Progressed(s, DoPrimaryPoll(s, event, completion, k))
  {
    hide Inv, Clean, Measure, PrimaryStream, DoPrimaryPoll, Weight;
    EndFacts(s);
    PollCases(s, event, completion, k);
    PrimaryStreamLink(s.p, s.p.session.value, event, completion, k);
    SharedLinkPhase(s);
    if event.NoEvent? || event.Established? {
      PrimaryPollFalls(s, event, completion, k);
      if DoPrimaryPoll(s, event, completion, k) == s {
        WaitedFrame(s, s);
      } else {
        TransferWeights(s, DoPrimaryPoll(s, event, completion, k));
      }
    }
  }

  lemma LonelyPollProgress(s: System, event: CmEvent, completion: Completion, k: nat)
    requires Inv(s) && Clean(s) && s.p.session.Some? && s.p.phase.FullSync? && !Transferring(s) && s.p.syncId.Some?
    requires PrimaryEventOk(s, event) && FailureFree(s, PrimaryPoll(event, completion, k)) && !event.Disconnected?
    ensures Progressed(s, DoPrimaryPoll(s, event, completion, k))
  {
    hide Inv, Clean, Measure, DoPrimaryPoll, PrimaryAof, PrimaryTransferDone, ReplicaTransferDone, Weight;
    Stages(s);
    EndFacts(s);
    PollCases(s, event, completion, k);
    if event.Accepting? {
      AcceptProgress(s, event, completion, k);
    } else {
      LonelyRound(s, event, completion, k);
      WaitedFrame(s, s);
    }
  }

  /** Nothing moves before the connection is accepted or after its end is requested. */
  lemma LonelyRound(s: System, event: CmEvent, completion: Completion, k: nat)
    requires Inv(s) && Clean(s) && s.p.session.Some? && s.p.phase.FullSync? && !Transferring(s)
    requires PrimaryEventOk(s, event) && FailureFree(s, PrimaryPoll(event, completion, k))
             && (event.NoEvent? || event.Established?)
    ensures DoPrimaryPoll(s, event, completion, k) == s
  {
    hide Inv, Clean, Measure, DoPrimaryPoll, PrimaryAof, ReplicaTransferDone, FailureFree;
    Stages(s);
    EndFacts(s);
    PollCases(s, event, completion, k);
  }

  lemma AcceptProgress(s: System, event: CmEvent, completion: Completion, k: nat)
    requires Inv(s) && Clean(s) && s.p.session.Some? && s.p.phase.FullSync? && !Transferring(s) && s.p.syncId.Some?
             && event.Accepting?
    requires PrimaryEventOk(s, event) && FailureFree(s, PrimaryPoll(event, completion, k))
    ensures Progressed(s, DoPrimaryPoll(s, event, completion, k))
            && Transferring(DoPrimaryPoll(s, event, completion, k))
  {
    hide Inv, Clean, DoPrimaryPoll, PrimaryAof, PrimaryTransferDone, ReplicaTransferDone;
    Stages(s);
    EndFacts(s);
    PollCases(s, event, completion, k);
  }

  // --------------------------------------------------------- the Replica's callback

  /** A callback that keeps the connection did not fail. */
  lemma ReplicaSurvives(s: System, event: CmEvent, completion: Completion)
    requires Inv(s) && s.r.conn.Some? && s.r.syncId.Some? && ReplicaEventOk(s, event)
             && FailureFree(s, ReplicaPoll(event, completion))
    ensures var step := ReplicaStream(s.r, event, completion);
            var t := DoReplicaPoll(s, event, completion);
            && !step.result.Failed? && t.p == s.p && t.r == step.state && t.toReplica == s.toReplica
  {
    hide Inv, ReplicaStream, ReplicaEventOk;
  }

  lemma ReplicaPollIgnored(s: System, event: CmEvent, completion: Completion)
    requires s.r.conn.None? || s.r.syncId.None? || !ReplicaEventOk(s, event)
    ensures DoReplicaPoll(s, event, completion) == s
  {
  }

  lemma ReplicaPollProgress(s: System, event: CmEvent, completion: Completion)
    requires Inv(s) && Clean(s) && s.p.session.Some? && FailureFree(s, ReplicaPoll(event, completion))
    ensures Progressed(s, DoReplicaPoll(s, event, completion))
  {
    hide Inv, Clean, Weight, Measure, DoReplicaPoll, PrimaryTransferDone, ReplicaTransferDone, FailureFree,
         ReplicaEventOk, ReplicaStream;
    Stages(s);
    EndFacts(s);
    if s.r.syncId.None? || !ReplicaEventOk(s, event) {
      ReplicaPollIgnored(s, event, completion);
      WaitedFrame(s, s);
    } else if s.r.sync.endpoint.None? {
      ReplicaSurvives(s, event, completion);
      NothingToPoll(s.r, event, completion);
      WaitedFrame(s, DoReplicaPoll(s, event, completion));
    } else if event.Disconnected? {
      ReplicaLeaves(s, completion);
    } else if event.RouteResolved? {
      ResolveProgress(s, completion);
    } else if Transferring(s) {
      ReplicaTransferProgress(s, event, completion);
    } else {
      ReplicaSurvives(s, event, completion);
      LonelyReplica(s, event, completion);
      WaitedFrame(s, DoReplicaPoll(s, event, completion));
    }
  }

  lemma NothingToPoll(r: Replica, event: CmEvent, completion: Completion)
    requires r.sync.endpoint.None?
    ensures ReplicaStream(r, event, completion) == ReplicaStep(r, Idle)
  {
  }

  lemma ReplicaLeaves(s: System, completion: Completion)
    requires Inv(s) && Clean(s) && s.p.session.Some? && s.r.syncId.Some? && s.r.sync.endpoint.Some?
    requires FailureFree(s, ReplicaPoll(Disconnected, completion))
    ensures Progressed(s, DoReplicaPoll(s, Disconnected, completion))
  {
    hide Inv, Clean, Measure, DoReplicaPoll, PrimaryTransferDone;
    Stages(s);
    EndFacts(s);
    StageWeights(s);
    ReplicaSurvives(s, Disconnected, completion);
    if Transferring(s) {
      MeasurePositive(s);
    }
  }

  /** The route is resolved once, before the request goes out. */
  lemma ResolveProgress(s: System, completion: Completion)
    requires Inv(s) && Clean(s) && s.p.session.Some? && s.r.syncId.Some? && s.r.sync.endpoint.Some?
    requires FailureFree(s, ReplicaPoll(RouteResolved, completion))
    ensures Progressed(s, DoReplicaPoll(s, RouteResolved, completion)) && RequestStage(s.p, s.r, s.accepted)
    ensures !s.r.sync.endpoint.value.recvPending
            && SyncMeasure(DoReplicaPoll(s, RouteResolved, completion)) < SyncMeasure(s)
  {
    hide Inv, Clean, Measure, DoReplicaPoll, PrimaryTransferDone;
    Stages(s);
    EndFacts(s);
    ReplicaSurvives(s, RouteResolved, completion);
    if Transferring(s) {
      SharedReceives(s);
    }
  }

  lemma SharedReceives(s: System)
    requires Inv(s) && Transferring(s)
    ensures s.r.sync.endpoint.value.recvPending
  {
    hide Inv, Matched, ReadyLine, AckLine;
    LinkedHolds(s);
  }

  lemma ReplicaTransferProgress(s: System, event: CmEvent, completion: Completion)
    requires Inv(s) && Transferring(s) && s.p.session.Some? && s.r.syncId.Some? && Clean(s) && ReplicaEventOk(s, event)
    requires FailureFree(s, ReplicaPoll(event, completion)) && !event.Disconnected? && !event.RouteResolved?
    ensures Progressed(s, DoReplicaPoll(s, event, completion))
  {
    hide Inv, Clean, Measure, Weight, ReplicaStream, DoReplicaPoll, FailureFree, ReplicaTransferDone, ReplicaEventOk;
    EndFacts(s);
    SharedLinkPhase(s);
    ReplicaSurvives(s, event, completion);
    ReplicaStreamLink(s.r, event, completion);
    EventKinds(s.r, event, completion);
    ReplicaPollFalls(s, event, completion);
    if DoReplicaPoll(s, event, completion) == s {
      WaitedFrame(s, s);
    } else {
      TransferWeights(s, DoReplicaPoll(s, event, completion));
    }
  }

  lemma EventKinds(r: Replica, event: CmEvent, completion: Completion)
    requires r.sync.endpoint.Some? && !ReplicaStream(r, event, completion).result.Failed?
    ensures event.NoEvent? || event.Established? || event.RouteResolved? || event.Disconnected?
  {
  }

  /** Before the connection is accepted, and after the Primary has left, the Replica waits. */
  lemma LonelyReplica(s: System, event: CmEvent, completion: Completion)
    requires Inv(s) && Clean(s) && s.p.session.Some? && s.r.sync.endpoint.Some? && !Transferring(s)
             && ReplicaEventOk(s, event)
    requires !ReplicaStream(s.r, event, completion).result.Failed? && !event.Disconnected? && !event.RouteResolved?
    ensures ReplicaStream(s.r, event, completion).state == s.r
  {
    hide Inv, Clean, PrimaryTransferDone, ReplicaReceive;
    Stages(s);
    EndFacts(s);
    EstablishedAccepted(s);
  }

  // ------------------------------------------------------------------- both together

  /** In a run without failures every step either brings an active synchronisation closer to its
      end or does not touch it. */
  lemma SyncMeasureFalls(s: System, step: Step)
    requires Inv(s) && Clean(s) && s.p.session.Some? && FailureFree(s, step)
    ensures Progressed(s, Next(s, step))
  {
    hide Inv, Clean, CleanEvent, KeepsConnections, Progressed, DoClientWrite, DoConnect, DoPrimaryRecv, DoPrimaryHandle,
         DoPrimaryPoll, DoPrimaryClose, DoDeliverToReplica, DoReplicaRecv, DoDeliverToPrimary, DoReplicaPoll,
         DoReplicaHandle, DoReplicaSave, SendFinished, CloseReplica;
    match step
    case PrimaryHandle(c, capacity, psync) => LinesProgress(s, c, capacity, psync);
    case PrimaryPoll(event, completion, k) => PollProgress(s, event, completion, k);
    case ReplicaPoll(event, completion) => ReplicaPollProgress(s, event, completion);
    case ReplicaRecv(k) => ReceiveProgress(s, k);
    case ReplicaHandle => HandleProgress(s);
    case ReplicaRestart =>
    case PrimaryCompletesSend => NetworkProgress(s, step);
    case ReplicaCompletesSend => NetworkProgress(s, step);
    case DeliverToReplica => NetworkProgress(s, step);
    case DeliverToPrimary => NetworkProgress(s, step);
    case _ => QuietProgress(s, step);
  }

  // ------------------------------------------------------------------- never stuck

  lemma NoticeWaits(s: System) returns (id: ByteString)
    requires Inv(s) && s.p.session.Some? && s.r.conn == s.p.session && s.r.phase.Handshake?
    ensures ReplicaReadsTcp(s) && id in s.sessions && Notified(s, s.r.conn.value, id)
    ensures s.r.input + s.toReplica[s.r.conn.value] != []
  {
    hide LogOk, SessionsOk, LinkOk, Notified, Outstanding;
    var c := s.r.conn.value;
    assert HandshakeOk(s, c) && c in s.received;
    id :| id in s.sessions && Notified(s, c, id);
    NoticeNonEmpty(s, c, id);
  }

  lemma NoticeNonEmpty(s: System, c: nat, id: ByteString)
    requires c in s.toReplica && Notified(s, c, id)
    ensures s.r.input + s.toReplica[c] != []
  {
    hide ResyncFrame, Untouched;
  }

  /** Reading the notification. */
  lemma NoticeMoves(s: System) returns (step: Step)
    requires Inv(s) && Clean(s) && s.p.session.Some? && NoticeStage(s.p, s.r)
    ensures FailureFree(s, step) && SyncMeasure(Next(s, step)) < SyncMeasure(s) && !step.ClientWrite?
  {
    hide Inv, Clean, Measure, UpstreamProtocol, Notified;
    Stages(s);
    StageWeights(s);
    var c := s.r.conn.value;
    var id := NoticeWaits(s);
    if s.toReplica[c] != [] {
      return ReplicaRecv(|s.toReplica[c]|);
    } else {
      assert s.r.input + [] == s.r.input;
      NotifiedHandled(s, id);
      return ReplicaHandle;
    }
  }

  /** Resolving the route, and accepting the request. */
  lemma RequestMoves(s: System) returns (step: Step)
    requires Inv(s) && Clean(s) && s.p.session.Some? && RequestStage(s.p, s.r, s.accepted)
    ensures FailureFree(s, step) && SyncMeasure(Next(s, step)) < SyncMeasure(s) && !step.ClientWrite?
  {
    hide Inv, Clean, Measure, DoPrimaryPoll;
    Stages(s);
    EndFacts(s);
    StageWeights(s);
    if !s.r.sync.endpoint.value.recvPending {
      return ReplicaPoll(RouteResolved, NoCompletion);
    } else {
      step := PrimaryPoll(Accepting(s.r.sync.endpoint.value.link), NoCompletion, 1);
      RequestAccepted(s);
    }
  }

  lemma RequestAccepted(s: System)
    requires Inv(s) && Clean(s) && s.p.session.Some? && RequestStage(s.p, s.r, s.accepted)
             && s.r.sync.endpoint.value.recvPending
    ensures var step := PrimaryPoll(Accepting(s.r.sync.endpoint.value.link), NoCompletion, 1);
            FailureFree(s, step) && SyncMeasure(Next(s, step)) < SyncMeasure(s)
  {
    hide Inv, Clean, Measure, Weight;
    Stages(s);
    EndFacts(s);
    var l := s.r.sync.endpoint.value.link;
    LinkBelow(s);
    var t := DoPrimaryPoll(s, Accepting(l), NoCompletion, 1);
    assert t == Polled(s, s.p.(sync := s.p.sync.(endpoint := Some(NewEndpoint(l).(recvPending := true)))),
                       s.accepted + {l});
    AcceptedWeight(s, t);
  }

  lemma LinkBelow(s: System)
    requires Inv(s) && s.r.sync.endpoint.Some?
    ensures s.r.sync.endpoint.value.link < s.nextLink
  {
    hide LogOk, PrimaryOk, SessionsOk, LinkOk, CopyOk, StreamOk;
  }

  lemma AcceptedWeight(s: System, t: System)
    requires RequestStage(s.p, s.r, s.accepted) && s.r.sync.endpoint.value.recvPending
    requires t.r == s.r && t.p == s.p.(sync := t.p.sync)
    requires t.p.sync == NO_SYNC.(endpoint := Some(NewEndpoint(s.r.sync.endpoint.value.link).(recvPending := true)))
    ensures SyncMeasure(t) < SyncMeasure(s)
  {
  }

  /** A step of a shared connection that leaves it shared closed nothing. */
  lemma TransferKeeps(s: System, step: Step)
    requires Inv(s) && Transferring(s) && TransferStep(step) && Transferring(Next(s, step))
    ensures FailureFree(s, step)
  {
    hide Inv, Transferring, DoPrimaryPoll, DoReplicaPoll, DoDeliverToReplica, DoDeliverToPrimary, SendFinished;
    match step
    case PrimaryPoll(event, completion, k) => PrimaryPollKeeps(s, event, completion, k);
    case ReplicaPoll(event, completion) => ReplicaPollKeeps(s, event, completion);
    case _ => NetworkKeeps(s, step);
  }

  lemma PrimaryPollKeeps(s: System, event: CmEvent, completion: Completion, k: nat)
    requires Inv(s) && Transferring(s) && (event.NoEvent? || event.Established?)
    requires Transferring(DoPrimaryPoll(s, event, completion, k))
    ensures KeepsConnections(s, DoPrimaryPoll(s, event, completion, k))
  {
    hide Inv, PrimaryFullSync, PrimaryAof, Recorded, Push;
    EndFacts(s);
    FullSyncResult(s.p, completion, k);
    FullSyncResult(s.p.(sync := s.p.sync.(established := true)), completion, k);
  }

  lemma ReplicaPollKeeps(s: System, event: CmEvent, completion: Completion)
    requires Inv(s) && Transferring(s) && Transferring(DoReplicaPoll(s, event, completion))
    ensures KeepsConnections(s, DoReplicaPoll(s, event, completion))
  {
    hide Inv, ReplicaStream;
    StreamPhases(s.r, event, completion);
  }

  lemma TransferMoves(s: System) returns (step: Step)
    requires Inv(s) && Clean(s) && s.p.session.Some? && Transferring(s) && !s.p.sync.disconnectPending
    ensures FailureFree(s, step) && SyncMeasure(Next(s, step)) < SyncMeasure(s) && !step.ClientWrite?
  {
    hide Inv, Clean, Measure, Next, Weight, FailureFree;
    step := NeverStuck(s);
    TransferKeeps(s, step);
    StepOk(s, step);
    SharedLinkPhase(s);
    SharedLinkPhase(Next(s, step));
    SyncMeasureFalls(s, step);
    TransferWeights(s, Next(s, step));
  }

  /** The regular end of the connection, on either side first. */
  lemma ReplicaEnds(s: System)
    requires Inv(s) && Clean(s) && s.p.session.Some? && s.r.sync.endpoint.Some? && PrimaryEnded(s)
    ensures var step := ReplicaPoll(Disconnected, NoCompletion);
            FailureFree(s, step) && SyncMeasure(Next(s, step)) < SyncMeasure(s)
  {
    hide Inv, Clean, Measure, PrimaryTransferDone;
    Stages(s);
    EndFacts(s);
    StageWeights(s);
    if Transferring(s) {
      EndingFacts(s);
    }
  }

  lemma PrimaryEnds(s: System)
    requires Inv(s) && Clean(s) && s.p.session.Some? && ReplicaLeft(s.p, s.r)
    ensures var step := PrimaryPoll(Disconnected, NoCompletion, 1);
            FailureFree(s, step) && SyncMeasure(Next(s, step)) < SyncMeasure(s)
  {
    hide Inv, Clean, Measure, Recorded, Push, Weight, PrimaryStream;
    Stages(s);
    EndFacts(s);
    StageWeights(s);
    OffsetInside(s);
    CatchUpStarts(s.p);
    LeaveProgress(s, NoCompletion, 1);
    PrimaryLeaves(s.p, s.p.session.value, NoCompletion, 1);
  }

  lemma CatchUpStarts(p: Primary)
    requires p.session.Some? && p.phase.FullSync? && p.sync.endpoint.Some? && PrimaryTransferDone(p)
             && p.offset <= |p.aof|
    ensures var step := PrimaryStream(p, p.session.value, Disconnected, NoCompletion, 1); !step.result.Failed?
  {
  }

  /** A synchronisation that is not over can always go on without a failure and without any
      client: never do both sides wait with nothing under way. */
  lemma SyncNeverStuck(s: System) returns (step: Step)
    requires Inv(s) && Clean(s) && s.p.session.Some? && !SyncDone(s.p, s.r)
    ensures FailureFree(s, step) && SyncMeasure(Next(s, step)) < SyncMeasure(s) && !step.ClientWrite?
  {
    hide Inv, Clean, Measure, Weight, Next, FailureFree, ReplicaTransferDone;
    Stages(s);
    EndFacts(s);
    if NoticeStage(s.p, s.r) {
      step := NoticeMoves(s);
    } else if RequestStage(s.p, s.r, s.accepted) {
      step := RequestMoves(s);
    } else if Transferring(s) && !s.p.sync.disconnectPending {
      step := TransferMoves(s);
    } else if ReplicaLeft(s.p, s.r) {
      PrimaryEnds(s);
      return PrimaryPoll(Disconnected, NoCompletion, 1);
    } else {
      ReplicaEnds(s);
      return ReplicaPoll(Disconnected, NoCompletion);
    }
  }

  predicate NoWrites(steps: seq<Step>) {
    forall i :: 0 <= i < |steps| ==> !steps[i].ClientWrite?
  }

  /** From every state of a synchronisation, the notification first, there is a run without
      failures after which both sides have left it. */
  lemma {:induction false} FullSyncCompletes(s: System) returns (steps: seq<Step>)
    requires Inv(s) && Clean(s) && s.p.session.Some?
    ensures CalmRun(s, steps) && |steps| <= SyncMeasure(s) && NoWrites(steps)
    ensures var t := Run(s, steps); Inv(t) && Clean(t) && t.p.session == s.p.session && SyncDone(t.p, t.r)
    decreases SyncMeasure(s)
  {
    hide Inv, Clean, Measure, Weight, Next, FailureFree, SyncDone;
    StageWeights(s);
    if SyncDone(s.p, s.r) {
      return [];
    } else {
      var step := SyncNeverStuck(s);
      SyncMeasureFalls(s, step);
      StepOk(s, step);
      CleanStep(s, step);
      StageWeights(Next(s, step));
      var rest := FullSyncCompletes(Next(s, step));
      RunFront(s, step, rest);
      assert ([step] + rest)[1..] == rest;
      return [step] + rest;
    }
  }
}
