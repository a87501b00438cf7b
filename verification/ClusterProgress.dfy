/** Once both sides share an RDMA connection of one synchronisation, the transfer cannot get
    stuck: some step is always possible, and every step that changes anything lowers a measure. */
module ClusterProgress {
  import opened Bytes
  import opened Codec
  import opened Store
  import opened Aof
  import opened Snapshot
  import opened Rdma
  import opened ControlLines
  import opened Replication
  import opened Cluster
  import opened ClusterInvariant
  import opened ClusterNetwork
  import opened ClusterPrimary
  import opened ClusterReplica
  import opened ClusterTheorems

  /** Both sides hold the two ends of one connection for the same synchronisation. */
  predicate Transferring(s: System) {
    SameLink(s.p.sync, s.r.sync) && s.p.syncId == s.r.syncId
  }

  // ------------------------------------------------------------------ the measure

  /** An unfinished send, a finished one not polled yet, none. */
  function SendWeight(sync: Sync): nat {
    if sync.endpoint.None? || !sync.sendPending then 0
    else if sync.endpoint.value.sendDone then 1 else 2
  }

  /** How far the current message still has to go. */
  function StageWeight(p: Sync, r: Sync): nat
    requires SameLink(p, r)
  {
    if !r.established then 30
    else if p.snapshotBytes == 0 then if r.endpoint.value.wire != [] then 26 else 25
    else if r.snapshotBytes < p.snapshotBytes then if p.endpoint.value.wire != [] then 12 else 11
    else if r.acknowledgedBytes < r.snapshotBytes then 9
    else if p.acknowledgedBytes < r.acknowledgedBytes then if r.endpoint.value.wire != [] then 5 else 4
    else if !p.disconnectPending then 3
    else 0
  }

  /** Bytes not sent yet, the stage of the current message, unfinished sends, missing events. */
  function Measure(size: nat, p: Sync, r: Sync): int
    requires SameLink(p, r)
  {
    40 * (size - p.snapshotBytes) + StageWeight(p, r) + SendWeight(p) + SendWeight(r) + (if p.established then 0 else 1)
  }

  /** The synchronisation state that the invariant gives. */
  predicate Linked(p: Primary, r: Replica, file: ByteString, nextLink: nat, accepted: set<nat>) {
    && SameLink(p.sync, r.sync) && p.syncId == r.syncId && p.syncId.Some? && IsId(p.syncId.value)
    && p.phase.FullSync? && p.session.Some?
    && p.size == r.size == |file| && 0 < |file| <= INT64_MAX
    && PrimarySyncOk(p.sync, file) && PrimaryReaderOk(p.reader, p.sync, file)
    && ReplicaSyncOk(r.sync, file, nextLink, accepted) && r.sync.endpoint.value.link in accepted
    && Matched(p.syncId.value, p.sync, r.sync, file)
    && (if r.phase.FullSync? then
          r.sync.snapshotBytes < |file|
          && r.writer == Writer(file[..r.sync.snapshotBytes], |file| - r.sync.snapshotBytes)
        else r.phase.CatchUp? && r.sync.established && r.sync.snapshotBytes == |file|)
  }

  lemma LinkedHolds(s: System)
    requires Inv(s) && Transferring(s)
    ensures s.p.syncId.Some? && s.p.syncId.value in s.sessions
    ensures Linked(s.p, s.r, s.sessions[s.p.syncId.value].file, s.nextLink, s.accepted)
    ensures s.r.conn.Some? && s.p.session.Some? && s.p.session.value in s.received
  {
    hide LogOk, OrderOk, Off, Load, StoresAt, CopyOk, StreamOk, Untouched, ReadyLine, AckLine, PositionsOk, NextPart,
         Matched, Stream, IsId;
    SharedLinkPhase(s);
    assert SessionOk(s.base, s.log, s.p.aof, s.nextConn, s.p.syncId.value, s.sessions[s.p.syncId.value]);
  }

  // ----------------------------------------------------- the Primary's callback

  lemma PrimaryRoundFalls(p: Primary, r: Replica, file: ByteString, nextLink: nat, accepted: set<nat>,
                          completion: Completion, k: nat)
    requires Linked(p, r, file, nextLink, accepted)
    ensures var step := PrimaryFullSync(p, completion, k);
            !step.result.Failed? ==>
              && SameLink(step.state.sync, r.sync)
              && (step.state == p || Measure(|file|, step.state.sync, r.sync) < Measure(|file|, p.sync, r.sync))
  {
    hide ReadyLine, AckLine, NextPart, IsId;
  }

  /** Which completion or event the Primary's callback can use. */
  lemma PrimaryRoundMoves(p: Primary, r: Replica, file: ByteString, nextLink: nat, accepted: set<nat>)
    requires Linked(p, r, file, nextLink, accepted) && p.sync.established && r.sync.established
             && !p.sync.disconnectPending
    requires p.sync.endpoint.value.inbox.Some?
    ensures var step := PrimaryFullSync(p, RecvCompletion, 1); !step.result.Failed? && step.state != p
  {
    hide ReadyLine, AckLine, NextPart, IsId;
    MessageSizes(p.syncId.value, p.sync.snapshotBytes);
  }

  lemma PrimaryNextMoves(p: Primary, r: Replica, file: ByteString, nextLink: nat, accepted: set<nat>)
    requires Linked(p, r, file, nextLink, accepted) && p.sync.established && !p.sync.disconnectPending
    requires p.sync.snapshotBytes > 0 && p.sync.acknowledgedBytes == p.sync.snapshotBytes
    ensures var completion := if p.sync.endpoint.value.sendDone then SendCompletion else NoCompletion;
            var step := PrimaryFullSync(p, completion, 1);
            !step.result.Failed? && ((p.sync.sendPending && !p.sync.endpoint.value.sendDone) || step.state != p)
  {
    hide ReadyLine, AckLine, NextPart, IsId;
  }

  // ----------------------------------------------------- the Replica's callback

  lemma AckFalls(p: Primary, r: Replica, file: ByteString, nextLink: nat, accepted: set<nat>)
    requires Linked(p, r, file, nextLink, accepted) && r.sync.established
    ensures var step := SubmitAck(r);
            && (!step.result.Failed? ==> SameLink(p.sync, step.state.sync))
            && (!step.result.Failed? ==>
                step.state == r || Measure(|file|, p.sync, step.state.sync) < Measure(|file|, p.sync, r.sync))
            && step.state == r.(sync := step.state.sync)
            && (step.state != r ==>
                !step.state.sync.endpoint.value.sendDone && step.state.sync.endpoint.value.inbox.None?)
  {
    hide ReadyLine, AckLine, NextPart, IsId;
  }

  lemma ReceiveFalls(p: Primary, r: Replica, file: ByteString, nextLink: nat, accepted: set<nat>)
    requires Linked(p, r, file, nextLink, accepted) && r.sync.established && PollRecv(r.sync.endpoint.value).Some?
    ensures var step := ReplicaReceive(r, PollRecv(r.sync.endpoint.value).value, r.sync.endpoint.value.inbox.value);
            !step.result.Failed? ==>
              && SameLink(p.sync, step.state.sync)
              && Measure(|file|, p.sync, step.state.sync) < Measure(|file|, p.sync, r.sync)
  {
    hide ReadyLine, AckLine, NextPart, IsId, FinishFullSync;
    FinishKeepsSync(r.(writer := Writer(r.writer.file + r.sync.endpoint.value.inbox.value, 0)));
  }

  lemma FinishKeepsSync(r: Replica)
    requires r.writer.Writer?
    ensures FinishFullSync(r).sync == r.sync
  {
    hide Load;
  }

  lemma ReplicaRoundFalls(p: Primary, r: Replica, file: ByteString, nextLink: nat, accepted: set<nat>,
                          completion: Completion)
    requires Linked(p, r, file, nextLink, accepted)
    ensures var step := ReplicaTransfer(r, completion);
            !step.result.Failed? ==>
              && SameLink(p.sync, step.state.sync)
              && (step.state == r || Measure(|file|, p.sync, step.state.sync) < Measure(|file|, p.sync, r.sync))
  {
    hide ReadyLine, AckLine, NextPart, IsId, SubmitAck, ReplicaReceive, Matched, StageWeight;
    if r.sync.established {
      AckFalls(p, r, file, nextLink, accepted);
      var acked := SubmitAck(r);
      if !acked.result.Failed? && acked.state == r && completion.RecvCompletion?
         && PollRecv(r.sync.endpoint.value).Some? {
        ReceiveFalls(p, r, file, nextLink, accepted);
      } else if !acked.result.Failed? && completion.SendCompletion? && PollSend(r.sync.endpoint.value).Some? {
        PollFalls(p, r, file);
      }
    }
  }

  lemma PollFalls(p: Primary, r: Replica, file: ByteString)
    requires SameLink(p.sync, r.sync) && PollSend(r.sync.endpoint.value).Some? && r.sync.sendPending
    ensures var q := r.sync.(endpoint := PollSend(r.sync.endpoint.value), sendPending := false);
            SameLink(p.sync, q) && Measure(|file|, p.sync, q) < Measure(|file|, p.sync, r.sync)
  {
  }

  // ------------------------------------------------------------ the whole system

  /** The steps of a transfer that runs undisturbed. */
  predicate TransferStep(step: Step) {
    match step
    case PrimaryCompletesSend => true
    case ReplicaCompletesSend => true
    case DeliverToReplica => true
    case DeliverToPrimary => true
    case PrimaryPoll(event, _, _) => event.NoEvent? || event.Established?
    case ReplicaPoll(event, _) => event.NoEvent? || event.Established?
    case _ => false
  }

  function SystemMeasure(s: System): int
    requires Transferring(s)
  {
    Measure(s.p.size, s.p.sync, s.r.sync)
  }

  /** The transfer went on and came closer to its end. */
  predicate Advances(s: System, t: System)
    requires Transferring(s)
  {
    Transferring(t) && t.p.size == s.p.size && SystemMeasure(t) < SystemMeasure(s)
  }

  lemma PrimaryPollFalls(s: System, event: CmEvent, completion: Completion, k: nat)
    requires Inv(s) && Transferring(s) && (event.NoEvent? || event.Established?)
    ensures var t := DoPrimaryPoll(s, event, completion, k); Transferring(t) ==> t == s || Advances(s, t)
  {
    hide Inv, Linked, Measure, PrimaryFullSync, PrimaryAof, Push, Recorded;
    LinkedHolds(s);
    var file := s.sessions[s.p.syncId.value].file;
    LinkedFacts(s, file);
    if event.Established? && !s.p.sync.established {
      EstablishedLinked(s.p, s.r, file, s.nextLink, s.accepted);
      var p1 := s.p.(sync := s.p.sync.(established := true));
      PrimaryRoundFalls(p1, s.r, file, s.nextLink, s.accepted, completion, k);
      FullSyncResult(p1, completion, k);
      var step := PrimaryFullSync(p1, completion, k);
      if !step.result.Failed? {
        assert DoPrimaryPoll(s, event, completion, k) == s.(p := step.state);
        assert Advances(s, s.(p := step.state));
      }
    } else {
      PrimaryRoundFalls(s.p, s.r, file, s.nextLink, s.accepted, completion, k);
      FullSyncResult(s.p, completion, k);
    }
  }

  lemma LinkedFacts(s: System, file: ByteString)
    requires Linked(s.p, s.r, file, s.nextLink, s.accepted)
    ensures s.p.size == |file| && s.p.phase.FullSync? && s.p.session.Some?
    ensures s.p.sync.endpoint.value.link == s.r.sync.endpoint.value.link && s.r.sync.endpoint.value.link in s.accepted
    ensures s.r.syncId.Some?
  {
  }

  lemma EstablishedLinked(p: Primary, r: Replica, file: ByteString, nextLink: nat, accepted: set<nat>)
    requires Linked(p, r, file, nextLink, accepted) && !p.sync.established
    ensures var p1 := p.(sync := p.sync.(established := true));
            Linked(p1, r, file, nextLink, accepted)
            && Measure(|file|, p1.sync, r.sync) < Measure(|file|, p.sync, r.sync)
  {
    hide ReadyLine, AckLine, NextPart, IsId;
  }

  /** In a full synchronisation the callback only waits or fails. */
  lemma FullSyncResult(p: Primary, completion: Completion, k: nat)
    ensures var step := PrimaryFullSync(p, completion, k);
            && (step.result.Failed? || step.result.Wait?)
            && step.state.size == p.size && step.state.syncId == p.syncId && step.state.session == p.session
  {
    hide ReadyLine, AckLine;
  }

  lemma ReplicaPollFalls(s: System, event: CmEvent, completion: Completion)
    requires Inv(s) && Transferring(s) && (event.NoEvent? || event.Established?)
    ensures var t := DoReplicaPoll(s, event, completion); Transferring(t) ==> t == s || Advances(s, t)
  {
    hide Inv, Linked, Measure, ReplicaTransfer, SendReady;
    LinkedHolds(s);
    var file := s.sessions[s.p.syncId.value].file;
    LinkedFacts(s, file);
    if event.NoEvent? {
      ReplicaRoundFalls(s.p, s.r, file, s.nextLink, s.accepted, completion);
    } else if ReplicaEventOk(s, event) && !SendReady(s.r).result.Failed? {
      ReadyLinked(s.p, s.r, file, s.nextLink, s.accepted);
      ReplicaRoundFalls(s.p, SendReady(s.r).state, file, s.nextLink, s.accepted, completion);
    }
  }

  lemma ReadyLinked(p: Primary, r: Replica, file: ByteString, nextLink: nat, accepted: set<nat>)
    requires Linked(p, r, file, nextLink, accepted) && !r.sync.established
    ensures var step := SendReady(r);
            && !step.result.Failed?
            && Linked(p, step.state, file, nextLink, accepted)
            && Measure(|file|, p.sync, step.state.sync) < Measure(|file|, p.sync, r.sync)
  {
    MessageSizes(p.syncId.value, 0);
    hide ReadyLine, AckLine, NextPart, IsId;
  }

  lemma NetworkFalls(s: System, step: Step)
    requires Inv(s) && Transferring(s)
    requires step.PrimaryCompletesSend? || step.ReplicaCompletesSend? || step.DeliverToReplica?
             || step.DeliverToPrimary?
    ensures Next(s, step) == s || Advances(s, Next(s, step))
  {
    hide Inv, Linked, Measure, SendFinished, Deliver;
    LinkedHolds(s);
    var file := s.sessions[s.p.syncId.value].file;
    LinkedFacts(s, file);
    match step
    case PrimaryCompletesSend => PrimarySendFalls(s.p, s.r, file, s.nextLink, s.accepted);
    case ReplicaCompletesSend => ReplicaSendFalls(s.p, s.r, file, s.nextLink, s.accepted);
    case DeliverToReplica => BlockFalls(s, file);
    case DeliverToPrimary => AnswerFalls(s, file);
    case _ =>
  }

  lemma PrimarySendFalls(p: Primary, r: Replica, file: ByteString, nextLink: nat, accepted: set<nat>)
    requires Linked(p, r, file, nextLink, accepted)
    ensures var q := SendFinished(p.sync);
            SameLink(q, r.sync) && (q == p.sync || Measure(|file|, q, r.sync) < Measure(|file|, p.sync, r.sync))
  {
    hide ReadyLine, AckLine, NextPart, IsId, Matched;
  }

  lemma ReplicaSendFalls(p: Primary, r: Replica, file: ByteString, nextLink: nat, accepted: set<nat>)
    requires Linked(p, r, file, nextLink, accepted)
    ensures var q := SendFinished(r.sync);
            SameLink(p.sync, q) && (q == r.sync || Measure(|file|, p.sync, q) < Measure(|file|, p.sync, r.sync))
  {
    hide ReadyLine, AckLine, NextPart, IsId, Matched;
  }

  lemma BlockFalls(s: System, file: ByteString)
    requires Linked(s.p, s.r, file, s.nextLink, s.accepted)
    ensures var (a, b, over) := Deliver(s, s.p.sync, s.r.sync);
            SameLink(a, b) && ((a, b, over) == (s.p.sync, s.r.sync, false)
                               || Measure(|file|, a, b) < Measure(|file|, s.p.sync, s.r.sync))
  {
    hide ReadyLine, AckLine, NextPart, IsId;
    if s.p.sync.endpoint.value.wire != [] {
      assert |s.p.sync.endpoint.value.wire[1..]| == 0;
    }
  }

  lemma AnswerFalls(s: System, file: ByteString)
    requires Linked(s.p, s.r, file, s.nextLink, s.accepted)
    ensures var (a, b, over) := Deliver(s, s.r.sync, s.p.sync);
            SameLink(b, a) && ((a, b, over) == (s.r.sync, s.p.sync, false)
                               || Measure(|file|, b, a) < Measure(|file|, s.p.sync, s.r.sync))
  {
    hide ReadyLine, AckLine, NextPart, IsId;
    if s.r.sync.endpoint.value.wire != [] {
      assert |s.r.sync.endpoint.value.wire[1..]| == 0;
    }
  }

  /** Every step of the transfer that changes anything brings it closer to its end. */
  lemma MeasureFalls(s: System, step: Step)
    requires Inv(s) && Transferring(s) && TransferStep(step)
    ensures Transferring(Next(s, step)) ==> Next(s, step) == s || Advances(s, Next(s, step))
  {
    hide Inv, DoPrimaryPoll, DoReplicaPoll, DoDeliverToPrimary, DoDeliverToReplica, Advances, SystemMeasure;
    match step
    case PrimaryPoll(event, completion, k) => PrimaryPollFalls(s, event, completion, k);
    case ReplicaPoll(event, completion) => ReplicaPollFalls(s, event, completion);
    case _ => NetworkFalls(s, step);
  }

  lemma MeasurePositive(s: System)
    requires Inv(s) && Transferring(s)
    ensures SystemMeasure(s) >= 0
  {
    hide Inv;
    LinkedHolds(s);
  }

  // --------------------------------------------------------------- never stuck

  /** The Primary's side of the next move, when it is the Primary's turn. */
  lemma PrimaryTurn(s: System) returns (step: Step)
    requires Inv(s) && Transferring(s) && !s.p.sync.disconnectPending
    requires s.p.sync.established && s.r.sync.established
    requires s.p.sync.endpoint.value.inbox.Some?
             || (s.p.sync.snapshotBytes > 0 && s.p.sync.acknowledgedBytes == s.p.sync.snapshotBytes)
    ensures TransferStep(step) && Advances(s, Next(s, step))
  {
    hide Inv, Linked, Measure, PrimaryFullSync, PrimaryAof, Push, Recorded, Matched;
    LinkedHolds(s);
    var file := s.sessions[s.p.syncId.value].file;
    LinkedFacts(s, file);
    if s.p.sync.endpoint.value.inbox.Some? {
      PrimaryRoundMoves(s.p, s.r, file, s.nextLink, s.accepted);
      PrimaryRoundFalls(s.p, s.r, file, s.nextLink, s.accepted, RecvCompletion, 1);
      FullSyncResult(s.p, RecvCompletion, 1);
      return PrimaryPoll(NoEvent, RecvCompletion, 1);
    } else if s.p.sync.sendPending && !s.p.sync.endpoint.value.sendDone {
      SendPendingAgrees(s.p, s.r, file, s.nextLink, s.accepted);
      NetworkFalls(s, PrimaryCompletesSend);
      return PrimaryCompletesSend;
    } else {
      PrimaryNextMoves(s.p, s.r, file, s.nextLink, s.accepted);
      var completion := if s.p.sync.endpoint.value.sendDone then SendCompletion else NoCompletion;
      PrimaryRoundFalls(s.p, s.r, file, s.nextLink, s.accepted, completion, 1);
      FullSyncResult(s.p, completion, 1);
      return PrimaryPoll(NoEvent, completion, 1);
    }
  }

  lemma SendPendingAgrees(p: Primary, r: Replica, file: ByteString, nextLink: nat, accepted: set<nat>)
    requires Linked(p, r, file, nextLink, accepted)
    ensures p.sync.sendPending == p.sync.endpoint.value.sendPending
            && r.sync.sendPending == r.sync.endpoint.value.sendPending
    ensures r.sync.endpoint.value.sendDone ==> r.sync.sendPending
  {
  }

  /** The Replica's next move: receive a block, finish a send, or acknowledge. */
  lemma ReplicaTurn(s: System) returns (step: Step)
    requires Inv(s) && Transferring(s) && s.r.sync.established
    requires s.r.sync.endpoint.value.inbox.Some? || s.r.sync.acknowledgedBytes < s.r.sync.snapshotBytes
    ensures TransferStep(step) && Advances(s, Next(s, step))
  {
    hide Inv, Linked, Measure, ReplicaTransfer, SendReady, Matched;
    LinkedHolds(s);
    var file := s.sessions[s.p.syncId.value].file;
    LinkedFacts(s, file);
    SendPendingAgrees(s.p, s.r, file, s.nextLink, s.accepted);
    if s.r.sync.endpoint.value.inbox.Some? {
      ReplicaReceives(s, file);
      ReplicaRoundFalls(s.p, s.r, file, s.nextLink, s.accepted, RecvCompletion);
      return ReplicaPoll(NoEvent, RecvCompletion);
    } else if s.r.sync.sendPending && !s.r.sync.endpoint.value.sendDone {
      NetworkFalls(s, ReplicaCompletesSend);
      return ReplicaCompletesSend;
    } else {
      var completion := if s.r.sync.sendPending then SendCompletion else NoCompletion;
      ReplicaAcknowledges(s.p, s.r, file, s.nextLink, s.accepted, completion);
      ReplicaRoundFalls(s.p, s.r, file, s.nextLink, s.accepted, completion);
      return ReplicaPoll(NoEvent, completion);
    }
  }

  lemma ReplicaReceives(s: System, file: ByteString)
    requires Inv(s) && Linked(s.p, s.r, file, s.nextLink, s.accepted) && s.r.sync.established
             && s.r.sync.endpoint.value.inbox.Some?
    ensures var step := ReplicaTransfer(s.r, RecvCompletion); !step.result.Failed? && step.state != s.r
    ensures ReplicaTransfer(s.r, RecvCompletion).state.syncId == s.r.syncId
  {
    hide ReadyLine, AckLine, IsId, Inv, Matched, FinishFullSync, StoresAt, Off, Truncate;
    var data := s.r.sync.endpoint.value.inbox.value;
    if |data| == s.r.writer.remaining {
      InstallOk(s, data);
    }
  }

  lemma ReplicaAcknowledges(p: Primary, r: Replica, file: ByteString, nextLink: nat, accepted: set<nat>,
                            completion: Completion)
    requires Linked(p, r, file, nextLink, accepted) && r.sync.established
             && r.sync.acknowledgedBytes < r.sync.snapshotBytes
    requires completion == (if r.sync.sendPending then SendCompletion else NoCompletion)
             && (r.sync.sendPending ==> r.sync.endpoint.value.sendDone)
    ensures var step := ReplicaTransfer(r, completion);
            !step.result.Failed? && step.state != r && step.state.syncId == r.syncId
  {
    hide ReadyLine, AckLine, IsId, NextPart, Matched;
    MessageSizes(p.syncId.value, r.sync.snapshotBytes);
  }

  /** Whose turn it is. */
  lemma Turns(p: Primary, r: Replica, file: ByteString, nextLink: nat, accepted: set<nat>)
    requires Linked(p, r, file, nextLink, accepted) && r.sync.established
    ensures p.sync.endpoint.value.wire != [] || r.sync.endpoint.value.wire != []
            || p.sync.endpoint.value.inbox.Some? || r.sync.endpoint.value.inbox.Some?
            || r.sync.acknowledgedBytes < r.sync.snapshotBytes
            || (p.sync.snapshotBytes > 0 && p.sync.acknowledgedBytes == p.sync.snapshotBytes)
  {
    hide ReadyLine, AckLine, IsId, NextPart;
  }

  lemma DeliveryMoves(s: System)
    requires Inv(s) && Transferring(s)
    ensures s.p.sync.endpoint.value.wire != [] ==> DoDeliverToReplica(s) != s
    ensures s.r.sync.endpoint.value.wire != [] ==> DoDeliverToPrimary(s) != s
  {
    hide Inv;
    if s.p.sync.endpoint.value.wire != [] {
      assert |DoDeliverToReplica(s).p.sync.endpoint.value.wire| < |s.p.sync.endpoint.value.wire|;
    }
    if s.r.sync.endpoint.value.wire != [] {
      assert |DoDeliverToPrimary(s).r.sync.endpoint.value.wire| < |s.r.sync.endpoint.value.wire|;
    }
  }

  /** A transfer that is not finished can always go on: never do both sides wait with nothing
      under way. */
  lemma NeverStuck(s: System) returns (step: Step)
    requires Inv(s) && Transferring(s) && !s.p.sync.disconnectPending
    ensures TransferStep(step) && Advances(s, Next(s, step))
  {
    hide Inv, Linked, SystemMeasure, Advances, DoPrimaryPoll, DoReplicaPoll, DoDeliverToPrimary, DoDeliverToReplica,
         PrimaryEventOk;
    LinkedHolds(s);
    var file := s.sessions[s.p.syncId.value].file;
    LinkedFacts(s, file);
    if !s.p.sync.established {
      PrimaryEstablishes(s);
      return PrimaryPoll(Established, NoCompletion, 1);
    } else if !s.r.sync.established {
      ReplicaEstablishes(s);
      return ReplicaPoll(Established, NoCompletion);
    } else {
      Turns(s.p, s.r, file, s.nextLink, s.accepted);
      DeliveryMoves(s);
      if s.p.sync.endpoint.value.wire != [] {
        NetworkFalls(s, DeliverToReplica);
        return DeliverToReplica;
      } else if s.r.sync.endpoint.value.wire != [] {
        NetworkFalls(s, DeliverToPrimary);
        return DeliverToPrimary;
      } else if s.r.sync.endpoint.value.inbox.Some? || s.r.sync.acknowledgedBytes < s.r.sync.snapshotBytes {
        step := ReplicaTurn(s);
      } else {
        step := PrimaryTurn(s);
      }
    }
  }

  lemma PrimaryEstablishes(s: System)
    requires Inv(s) && Transferring(s) && !s.p.sync.established
    ensures Advances(s, DoPrimaryPoll(s, Established, NoCompletion, 1))
  {
    hide Inv, Measure, PrimaryAof, Push, Recorded, Matched;
    LinkedHolds(s);
    var file := s.sessions[s.p.syncId.value].file;
    EstablishedLinked(s.p, s.r, file, s.nextLink, s.accepted);
  }

  lemma ReplicaEstablishes(s: System)
    requires Inv(s) && Transferring(s) && !s.r.sync.established
    ensures Advances(s, DoReplicaPoll(s, Established, NoCompletion))
  {
    hide Inv, Measure, Matched, SendReady, ReadyLine, AckLine;
    LinkedHolds(s);
    var file := s.sessions[s.p.syncId.value].file;
    ReadyLinked(s.p, s.r, file, s.nextLink, s.accepted);
    ReplicaWaits(s.r);
  }

  lemma ReplicaWaits(r: Replica)
    requires r.sync.endpoint.Some?
    ensures !SendReady(r).result.Failed? ==>
              && SendReady(r).state == r.(sync := SendReady(r).state.sync)
              && SendReady(r).state.sync.sendPending && SendReady(r).state.sync.established
              && ReplicaTransfer(SendReady(r).state, NoCompletion) == ReplicaStep(SendReady(r).state, Wait)
  {
    hide ReadyLine, AckLine;
  }

  // -------------------------------------------------------------- to the end

  lemma {:induction false} RunFront(s: System, step: Step, steps: seq<Step>)
    ensures Run(s, [step] + steps) == Run(Next(s, step), steps)
    decreases |steps|
  {
    hide Next;
    if steps == [] {
      assert [step] + steps == [step] && [step][..0] == [];
    } else {
      RunFront(s, step, steps[..|steps| - 1]);
      assert ([step] + steps)[..|steps|] == [step] + steps[..|steps| - 1];
    }
  }

  /** From every reachable transfer there is a way to its end that needs no failure and no
      client: everything sent, received, installed and acknowledged. */
  lemma {:induction false} TransferCompletes(s: System) returns (steps: seq<Step>)
    requires Inv(s) && Transferring(s)
    ensures var t := Run(s, steps);
            && Inv(t) && Transferring(t) && t.p.sync.disconnectPending
            && forall i :: 0 <= i < |steps| ==> TransferStep(steps[i])
    decreases if Transferring(s) then SystemMeasure(s) else 0
  {
    hide Inv, Transferring, TransferStep, Next, SystemMeasure;
    if s.p.sync.disconnectPending {
      return [];
    } else {
      var step := NeverStuck(s);
      StepOk(s, step);
      MeasurePositive(s);
      var rest := TransferCompletes(Next(s, step));
      RunFront(s, step, rest);
      return [step] + rest;
    }
  }

  /** Then the regular end of the connection takes both sides out of the full synchronisation,
      one after the other. */
  lemma BothLeaveFullSync(s: System)
    requires Inv(s) && Transferring(s) && s.p.sync.disconnectPending
    ensures var u := DoReplicaPoll(s, Disconnected, NoCompletion);
            var t := DoPrimaryPoll(u, Disconnected, NoCompletion, 1);
            && u.r == s.r.(sync := NO_SYNC) && u.r.phase.CatchUp? && u.p == s.p && t.r == u.r
            && t.p.session == s.p.session && t.p.syncId == s.p.syncId && (t.p.phase.CatchUp? || t.p.phase.Online?)
            && t.p.sync == NO_SYNC
  {
    hide Inv, Matched, ReadyLine, AckLine, Recorded, Push;
    LinkedHolds(s);
    EndOfTransfer(s.p, s.r, s.sessions[s.p.syncId.value].file, s.nextLink, s.accepted);
    OffsetInside(s);
  }

  /** The whole way from a shared connection to both sides past it, whatever failed before. */
  lemma TransferEnds(s: System) returns (steps: seq<Step>)
    requires Inv(s) && Transferring(s)
    ensures var t := Run(s, steps);
            Inv(t) && BothLeft(t.p, t.r)
  {
    hide Inv, Next, Run, Transferring, BothLeft;
    var first := TransferCompletes(s);
    var u := Run(s, first);
    BothLeaveInTurn(u);
    RunTwo(s, first, ReplicaPoll(Disconnected, NoCompletion), PrimaryPoll(Disconnected, NoCompletion, 1));
    return first + [ReplicaPoll(Disconnected, NoCompletion), PrimaryPoll(Disconnected, NoCompletion, 1)];
  }

  predicate BothLeft(p: Primary, r: Replica) {
    && p.session.Some? && p.syncId == r.syncId && (p.phase.CatchUp? || p.phase.Online?) && p.sync == NO_SYNC
    && r.phase.CatchUp? && r.sync == NO_SYNC
  }

  lemma BothLeaveInTurn(u: System)
    requires Inv(u) && Transferring(u) && u.p.sync.disconnectPending
    ensures var t := Next(Next(u, ReplicaPoll(Disconnected, NoCompletion)), PrimaryPoll(Disconnected, NoCompletion, 1));
            Inv(t) && BothLeft(t.p, t.r)
  {
    hide Inv, Next, DoPrimaryPoll, DoReplicaPoll;
    StepOk(u, ReplicaPoll(Disconnected, NoCompletion));
    StepOk(Next(u, ReplicaPoll(Disconnected, NoCompletion)), PrimaryPoll(Disconnected, NoCompletion, 1));
    PollStep(u, Disconnected, NoCompletion);
    PollsStep(DoReplicaPoll(u, Disconnected, NoCompletion), Disconnected, NoCompletion, 1);
    BothLeaveFullSync(u);
    TransferIds(u);
  }

  lemma TransferIds(u: System)
    requires Inv(u) && Transferring(u)
    ensures u.p.session.Some? && u.p.syncId == u.r.syncId
  {
    hide Inv;
    SharedLinkPhase(u);
  }

  lemma PollStep(s: System, event: CmEvent, completion: Completion)
    ensures Next(s, ReplicaPoll(event, completion)) == DoReplicaPoll(s, event, completion)
  {
    hide DoReplicaPoll;
  }

  lemma PollsStep(s: System, event: CmEvent, completion: Completion, k: nat)
    ensures Next(s, PrimaryPoll(event, completion, k)) == DoPrimaryPoll(s, event, completion, k)
  {
    hide DoPrimaryPoll;
  }

  lemma RunTwo(s: System, first: seq<Step>, a: Step, b: Step)
    ensures Run(s, first + [a, b]) == Next(Next(Run(s, first), a), b)
  {
    hide Next;
    assert (first + [a])[..|first|] == first && (first + [a, b])[..|first| + 1] == first + [a];
  }

  lemma EndOfTransfer(p: Primary, r: Replica, file: ByteString, nextLink: nat, accepted: set<nat>)
    requires Linked(p, r, file, nextLink, accepted) && p.sync.disconnectPending
    ensures r.phase.CatchUp? && PrimaryTransferDone(p) && ReplicaTransferDone(r)
  {
    hide ReadyLine, AckLine, IsId;
  }

  lemma OffsetInside(s: System)
    requires Inv(s) && s.p.phase.FullSync? && s.p.session.Some?
    ensures s.p.offset <= |s.p.aof|
  {
    hide ReplicaOk, LinkOk, Load, StoresAt, Stream, IsId;
    CatchUpReader(s);
  }
}
