/** What holds in every reachable state of Primary, Replica and network. */
module ClusterTheorems {
  import opened Bytes
  import opened Codec
  import opened Store
  import opened Aof
  import opened Snapshot
  import opened Rdma
  import opened ControlLines
  import opened Replication
  import opened Cluster
  import opened ClusterInvariant
  import opened ClusterGrowth
  import opened ClusterNetwork
  import opened ClusterPrimary
  import opened ClusterReplica
  import opened ClusterCatchUp
  import opened ClusterHandshake
  import opened ClusterPsync

  lemma InitialOk(s: System)
    requires Initial(s)
    ensures Inv(s)
  {
    assert s.base.aof + [] == s.base.aof;
  }

  /** Every step of either side, of the network, of a client or of a crash keeps the invariant. */
  lemma StepOk(s: System, step: Step)
    requires Inv(s)
    ensures Inv(Next(s, step))
  {
    hide Inv, DoClientWrite, DoConnect, DoPrimaryRecv, DoPrimaryHandle, DoPrimaryPoll, DoPrimaryClose,
         DoDeliverToReplica, DoReplicaRecv, DoReplicaHandle, DoReplicaPoll, DoReplicaSave, DoDeliverToPrimary, Fresh,
         SendFinished;
    match step
    case ClientWrite(fields) => ClientWriteOk(s, fields);
    case Connect => ConnectOk(s);
    case PrimaryRecv(c, k) => PrimaryRecvOk(s, c, k);
    case PrimaryHandle(c, capacity, psync) => PrimaryHandleOk(s, c, capacity, psync);
    case PrimaryPoll(event, completion, k) => PrimaryPollOk(s, event, completion, k);
    case PrimaryClose(c) => PrimaryCloseStepOk(s, c);
    case PrimaryCompletesSend => PrimaryCompletesOk(s);
    case DeliverToReplica => DeliverToReplicaOk(s);
    case ReplicaRecv(k) => ReplicaRecvOk(s, k);
    case ReplicaHandle => ReplicaHandleOk(s);
    case ReplicaPoll(event, completion) => ReplicaPollOk(s, event, completion);
    case ReplicaSave(file) => ReplicaSaveOk(s, file);
    case ReplicaClose => ReplicaCloseOk(s, s.r);
    case ReplicaRestart => ReplicaCloseOk(s, s.r);
    case ReplicaCompletesSend => ReplicaCompletesOk(s);
    case DeliverToPrimary => DeliverToPrimaryOk(s);
  }

  lemma PrimaryCloseStepOk(s: System, c: nat)
    requires Inv(s)
    ensures Inv(DoPrimaryClose(s, c))
  {
    hide Inv, ClosePrimary;
    if c in s.received {
      PrimaryCloseOk(s, s.p, c);
    }
  }

  lemma {:induction false} RunOk(s: System, steps: seq<Step>)
    requires Initial(s)
    ensures Inv(Run(s, steps))
  {
    hide Inv, Initial, Next;
    if steps == [] {
      InitialOk(s);
    } else {
      RunOk(s, steps[..|steps| - 1]);
      StepOk(Run(s, steps[..|steps| - 1]), steps[|steps| - 1]);
    }
  }

  // ----------------------------------------------------------------- the copy

  /** The Replica holds the Primary's engines as of log position `k`, its AOF ends exactly
      there, and from the snapshot boundary on it is the Primary's, byte for byte. */
  predicate Mirrors(s: System, x: Session, k: nat) {
    && x.start <= k <= |s.log|
    && s.base.aof + EncodeLog(s.log) == s.p.aof && ApplyAll(s.base.stores, s.log) == Some(s.p.stores)
    && ApplyAll(s.base.stores, s.log[..k]) == Some(s.r.stores)
    && |s.r.aof| == Off(s.base, s.log, k)
    && SameFrom(Off(s.base, s.log, x.start), s.r.aof, s.p.aof)
  }

  /** Two files agree from `boundary` on, as far as the first one goes. */
  predicate SameFrom(boundary: nat, copy: ByteString, original: ByteString) {
    boundary <= |copy| <= |original| && copy[boundary..] == original[boundary..|copy|]
  }

  lemma CopyFollows(s: System)
    requires Inv(s) && (s.r.phase.CatchUp? || s.r.phase.Online?)
    ensures s.r.syncId.Some? && s.r.syncId.value in s.sessions && Mirrors(s, s.sessions[s.r.syncId.value], s.applied)
  {
    hide EncodeLog, ApplyAll, Load, PrimaryOk, LinkOk, NamesOk, OrderOk, StreamOk, Stream, ReplicaSyncOk, Off,
         SessionsOk;
  }

  /** Every full synchronisation transfers a file that loads as the Primary's engines at the
      announced command boundary. */
  lemma SnapshotIsBoundary(s: System, steps: seq<Step>, id: ByteString)
    requires Initial(s) && id in Run(s, steps).sessions
    ensures var t := Run(s, steps);
            var x := t.sessions[id];
            && x.start <= |t.log| && ApplyAll(t.base.stores, t.log[..x.start]).Some?
            && Load(x.file) == Loaded(ApplyAll(t.base.stores, t.log[..x.start]).value,
                                      Some(Off(t.base, t.log, x.start)))
  {
    RunOk(s, steps);
    SessionLoads(Run(s, steps), id);
  }

  lemma SessionLoads(s: System, id: ByteString)
    requires Inv(s) && id in s.sessions
    ensures s.sessions[id].start <= |s.log| && StoresAt(s.base, s.log, s.sessions[id].start).Some?
    ensures Load(s.sessions[id].file)
            == Loaded(StoresAt(s.base, s.log, s.sessions[id].start).value,
                      Some(Off(s.base, s.log, s.sessions[id].start)))
  {
    hide LogOk, PrimaryOk, ReplicaOk, LinkOk, NamesOk, OrderOk, Off, Load, StoresAt, Stream;
    assert SessionOk(s.base, s.log, s.p.aof, s.nextConn, id, s.sessions[id]);
  }

  /** Whatever the clients, the network and the two processes do: a Replica that has left its
      full synchronisation is a copy of the Primary at the offset of its own AOF. */
  lemma ReplicaFollowsPrimary(s: System, steps: seq<Step>)
    requires Initial(s)
    requires Run(s, steps).r.phase.CatchUp? || Run(s, steps).r.phase.Online?
    ensures var t := Run(s, steps);
            t.r.syncId.Some? && t.r.syncId.value in t.sessions && Mirrors(t, t.sessions[t.r.syncId.value], t.applied)
  {
    RunOk(s, steps);
    CopyFollows(Run(s, steps));
  }

  /** Two moments of one Replica at the same AOF length hold the same engines: the offset
      alone determines the data. */
  lemma OffsetDeterminesData(s: System, x: Session, y: Session, k: nat, r: Replica, j: nat)
    requires Mirrors(s, x, k) && Mirrors(s.(r := r), y, j) && |r.aof| == |s.r.aof|
    ensures k == j && r.stores == s.r.stores
  {
    hide Off, EncodeLog, ApplyAll;
    if k < j {
      OffStrict(s.base, s.log, k, j);
    } else if j < k {
      OffStrict(s.base, s.log, j, k);
    }
  }

  /** No replicated command and no ONLINE line is ever refused. */
  lemma ReplicationNeverFails(s: System, steps: seq<Step>)
    requires Initial(s)
    requires var t := Run(s, steps); ReplicaReadsTcp(t) && t.r.input != [] && (t.r.phase.CatchUp? || t.r.phase.Online?)
    ensures var t := Run(s, steps); UpstreamProtocol(t.r, t.r.input, t.nextLink).Handled?
  {
    hide Inv, UpstreamProtocol;
    RunOk(s, steps);
    ReplicatedInputAccepted(Run(s, steps));
  }

  // --------------------------------------------------------------- TCP stream

  /** What the Primary has written after the notification of a full synchronisation: the AOF
      from the snapshot boundary on, with one ONLINE line at a later command boundary, which
      names that boundary. */
  predicate Spliced(s: System, x: Session) {
    && x.start <= |s.log|
    && var boundary := Off(s.base, s.log, x.start);
       match x.online
       case None => boundary <= x.sent <= |s.p.aof| && x.emitted == s.p.aof[boundary..x.sent]
       case Some(n) =>
         && x.start <= n <= |s.log|
         && var announced := Off(s.base, s.log, n);
            && boundary <= announced <= x.sent <= |s.p.aof|
            && x.emitted == s.p.aof[boundary..announced] + (OnlineFrame(announced) + CRLF) + s.p.aof[announced..x.sent]
  }

  lemma StreamIsSpliced(s: System, steps: seq<Step>, id: ByteString)
    requires Initial(s) && id in Run(s, steps).sessions
    ensures Spliced(Run(s, steps), Run(s, steps).sessions[id])
  {
    RunOk(s, steps);
    SessionSpliced(Run(s, steps), id);
  }

  lemma SessionSpliced(s: System, id: ByteString)
    requires Inv(s) && id in s.sessions
    ensures Spliced(s, s.sessions[id])
  {
    hide LogOk, PrimaryOk, ReplicaOk, LinkOk, NamesOk, OrderOk, Off, Load, StoresAt;
    assert SessionOk(s.base, s.log, s.p.aof, s.nextConn, id, s.sessions[id]);
  }

  // ------------------------------------------------------------ RDMA transfer

  /** The counters of a stop-and-wait transfer over one connection. */
  predicate StopAndWait(p: Primary, r: Replica, file: ByteString) {
    && p.sync.endpoint.Some? && r.sync.endpoint.Some?
    && p.sync.acknowledgedBytes <= r.sync.acknowledgedBytes <= r.sync.snapshotBytes <= p.sync.snapshotBytes
    && p.sync.snapshotBytes <= r.sync.snapshotBytes + BUFFER_CAPACITY
    && (p.reader.Reader? ==> p.sync.snapshotBytes + p.reader.remaining == |file| && p.reader.file == file)
    && p.size == r.size == |file|
    && (r.writer.Writer? ==>
          && r.sync.snapshotBytes + r.writer.remaining == |file| && r.writer.file == file[..r.sync.snapshotBytes])
    && (r.writer.WriterClosed? ==> r.sync.snapshotBytes == |file| && r.installed == Some(file))
    && |p.sync.endpoint.value.wire| + |r.sync.endpoint.value.wire| <= 1
  }

  lemma TransferInOrder(s: System)
    requires Inv(s) && SameLink(s.p.sync, s.r.sync) && s.p.syncId == s.r.syncId
    ensures s.p.syncId.Some? && s.p.syncId.value in s.sessions
            && StopAndWait(s.p, s.r, s.sessions[s.p.syncId.value].file)
  {
    hide LogOk, SessionsOk, NamesOk, OrderOk, Off, Load, StoresAt, CopyOk, StreamOk, Untouched, ReadyLine, AckLine,
         PositionsOk, NextPart;
    SharedLinkPhase(s);
  }

  /** In every run the transfer is stop-and-wait, the temporary file is a prefix of the
      snapshot, and no message ever arrived without a posted receive. */
  lemma TransferIsStopAndWait(s: System, steps: seq<Step>)
    requires Initial(s)
    ensures !Run(s, steps).overrun
    ensures var t := Run(s, steps);
            SameLink(t.p.sync, t.r.sync) && t.p.syncId == t.r.syncId ==>
              && t.p.syncId.Some? && t.p.syncId.value in t.sessions
              && StopAndWait(t.p, t.r, t.sessions[t.p.syncId.value].file)
  {
    hide StopAndWait;
    RunOk(s, steps);
    var t := Run(s, steps);
    if SameLink(t.p.sync, t.r.sync) && t.p.syncId == t.r.syncId {
      TransferInOrder(t);
    }
    NotOverrun(t);
  }

  lemma NotOverrun(s: System)
    requires Inv(s)
    ensures !s.overrun
  {
  }

  // ------------------------------------------------------------- the online flag

  /** The only way to become online is an ONLINE line that names the Replica's own AOF length. */
  lemma OnlyOnlineLineRaises(s: System, step: Step)
    requires Next(s, step).r.phase.Online? && !s.r.phase.Online?
    ensures step.ReplicaHandle? && s.r.phase.CatchUp? && FirstLine(s.r.input).Line?
    ensures ParseOnline(FirstLine(s.r.input).frame) == Some(|s.r.aof|)
  {
    hide DoClientWrite, DoConnect, DoPrimaryRecv, DoPrimaryHandle, DoPrimaryPoll, DoPrimaryClose, DoDeliverToReplica,
         DoReplicaRecv, DoDeliverToPrimary, UpstreamProtocol, ReplicaStream, ParseOnline, FirstLine;
    if step.ReplicaPoll? {
      StreamNeverRaises(s.r, step.event, step.completion);
    } else if step.ReplicaHandle? {
      if ReplicaReadsTcp(s) && s.r.input != [] {
        HandlerRaises(s.r, s.r.input, s.nextLink);
      }
    } else {
      OtherStepsNeverRaise(s, step);
    }
  }

  /** The Primary's side, its clients and the network before the Replica's buffer do not
      reach into the Replica. */
  predicate PrimarySide(step: Step) {
    || step.ClientWrite? || step.PrimaryRecv? || step.PrimaryHandle? || step.PrimaryPoll? || step.PrimaryClose?
    || step.PrimaryCompletesSend?
  }

  lemma PrimarySideKeepsReplica(s: System, step: Step)
    requires PrimarySide(step)
    ensures Next(s, step).r == s.r
  {
    hide DoClientWrite, DoPrimaryRecv, DoPrimaryHandle, DoPrimaryPoll, DoPrimaryClose, SendFinished;
    match step
    case ClientWrite(fields) => WriteSpares(s, fields);
    case PrimaryRecv(c, k) => ReceiveSpares(s, c, k);
    case PrimaryHandle(c, capacity, psync) => LinesSpare(s, c, capacity, psync);
    case PrimaryPoll(event, completion, k) => PollSpares(s, event, completion, k);
    case PrimaryClose(c) => CloseSpares(s, c);
    case _ =>
  }

  lemma WriteSpares(s: System, fields: Fields)
    ensures DoClientWrite(s, fields).r == s.r
  {
    hide Apply, EncodeCommand, Loggable;
  }

  lemma ReceiveSpares(s: System, c: nat, k: nat)
    ensures DoPrimaryRecv(s, c, k).r == s.r
  {
  }

  lemma LinesSpare(s: System, c: nat, capacity: nat, psync: PsyncInput)
    ensures DoPrimaryHandle(s, c, capacity, psync).r == s.r
  {
    hide PrimaryBatch, NewSession, PsyncInputOk, Push, PrimaryDisconnected;
  }

  lemma PollSpares(s: System, event: CmEvent, completion: Completion, k: nat)
    ensures DoPrimaryPoll(s, event, completion, k).r == s.r
  {
    hide PrimaryStream, PrimaryEventOk, Recorded, Push, PrimaryDisconnected;
  }

  lemma CloseSpares(s: System, c: nat)
    ensures DoPrimaryClose(s, c).r == s.r
  {
    hide PrimaryDisconnected;
  }

  lemma OtherStepsNeverRaise(s: System, step: Step)
    requires !step.ReplicaPoll? && !step.ReplicaHandle?
    ensures Next(s, step).r.phase.Online? ==> s.r.phase.Online?
  {
    hide DoDeliverToReplica, DoDeliverToPrimary, DoClientWrite, DoPrimaryRecv, DoPrimaryHandle, DoPrimaryPoll,
         DoPrimaryClose, IsSnapshotOf;
    if PrimarySide(step) {
      PrimarySideKeepsReplica(s, step);
    }
    DeliveryKeepsPhase(s);
  }

  lemma DeliveryKeepsPhase(s: System)
    ensures DoDeliverToReplica(s).r.phase == s.r.phase && DoDeliverToPrimary(s).r.phase == s.r.phase
  {
    hide Deliver;
  }

  lemma HandlerRaises(r: Replica, input: ByteString, link: nat)
    requires input != []
    ensures var h := UpstreamProtocol(r, input, link);
            h.Handled? && h.state.phase.Online? && !r.phase.Online? ==>
              r.phase.CatchUp? && FirstLine(input).Line? && ParseOnline(FirstLine(input).frame) == Some(|r.aof|)
  {
    hide EncodeCommand, ParseCommand, Apply, ParseResync, ParseOnline, FirstLine;
  }

  lemma StreamNeverRaises(r: Replica, event: CmEvent, completion: Completion)
    ensures ReplicaStream(r, event, completion).state.phase.Online? ==> r.phase.Online?
  {
    hide Load, ReadyLine, AckLine;
  }

  /** Whatever another connection sends, and its closing, leave the active session and the
      bytes under way to it as they are. */
  lemma SessionUndisturbed(s: System, c: nat, capacity: nat, psync: PsyncInput, d: nat)
    requires s.p.session.Some? && s.p.session != Some(c) && Some(d) == s.p.session
    requires s.p.syncId.Some? && s.p.syncId.value in s.sessions
    ensures var t := Next(s, PrimaryHandle(c, capacity, psync));
            && t.p == s.p && t.sessions[s.p.syncId.value] == s.sessions[s.p.syncId.value]
            && (d in s.toReplica ==> d in t.toReplica && t.toReplica[d] == s.toReplica[d])
    ensures Next(s, PrimaryClose(c)).p == s.p
  {
    hide PrimaryBatch, IsSnapshotOf;
    if c in s.received {
      ActiveSessionUndisturbed(s.p, c, s.received[c], capacity, psync);
    }
  }
}
