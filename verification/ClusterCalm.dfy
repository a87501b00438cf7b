/** Runs without failures: no connection closes, no process restarts, and connection events are
    those of the one RDMA connection the Replica started. In such runs the two sides always
    belong together. */
module ClusterCalm {
  import opened Bytes
  import opened Codec
  import opened Store
  import opened Aof
  import opened Snapshot
  import opened Rdma
  import opened ControlLines
  import opened Replication
  import opened Cluster
  import opened ClusterInvariant
  import opened ClusterNetwork
  import opened ClusterPsync
  import opened ClusterTheorems
  import opened ClusterFiles
  import opened ClusterProgress

  /** The Primary has asked for the end of the RDMA connection, or is already past it. */
  predicate PrimaryEnded(s: System) {
    && s.p.syncId.Some? && s.p.syncId == s.r.syncId
    && (s.p.sync.disconnectPending || s.p.phase.CatchUp? || s.p.phase.Online?)
  }

  /** Connection events as an undisturbed network delivers them: the request of the Replica's
      current connection, and its end once the Primary has asked for it. */
  predicate CleanEvent(s: System, step: Step) {
    match step
    case PrimaryPoll(event, _, _) =>
      && (event.Accepting? ==> s.r.sync.endpoint.Some? && s.r.sync.endpoint.value.link == event.link)
      && (event.Disconnected? ==> s.p.sync.disconnectPending)
    case ReplicaPoll(event, _) => event.Disconnected? ==> PrimaryEnded(s)
    case _ => true
  }

  /** Every connection that was there is still there. */
  predicate KeepsConnections(s: System, t: System) {
    && (s.r.conn.Some? ==> t.r.conn == s.r.conn)
    && s.received.Keys <= t.received.Keys
  }

  ghost predicate FailureFree(s: System, step: Step) {
    !step.ReplicaRestart? && CleanEvent(s, step) && KeepsConnections(s, Next(s, step))
  }

  ghost predicate CalmRun(s: System, steps: seq<Step>)
    decreases |steps|
  {
    steps == [] || (FailureFree(s, steps[0]) && CalmRun(Next(s, steps[0]), steps[1..]))
  }

  // ----------------------------------------------------- how the two sides belong together

  /** The Primary's connection is the Replica's, or the Replica has regularly left it first. */
  predicate PrimaryLinkClean(p: Primary, r: Replica) {
    p.sync.endpoint.Some? ==>
      || SameLink(p.sync, r.sync)
      || (p.sync.disconnectPending && r.sync == NO_SYNC && PastSync(r) && p.syncId.Some? && p.syncId == r.syncId)
  }

  /** An accepted connection of the Replica is the Primary's, or the Primary has regularly left
      it first. */
  predicate ReplicaLinkClean(p: Primary, r: Replica, accepted: set<nat>) {
    r.sync.endpoint.Some? && r.sync.endpoint.value.link in accepted ==>
      || SameLink(p.sync, r.sync)
      || (ReplicaTransferDone(r) && PastSync2(p) && p.syncId.Some? && p.syncId == r.syncId)
  }

  predicate PastSync2(p: Primary) {
    p.phase.CatchUp? || p.phase.Online?
  }

  predicate Clean(s: System) {
    && (forall c :: c in s.received ==> s.r.conn == Some(c))
    && PrimaryLinkClean(s.p, s.r) && ReplicaLinkClean(s.p, s.r, s.accepted)
    && PhasesClean(s.p, s.r)
  }

  /** No Replica is past a synchronisation for which the Primary has no connection yet. */
  predicate PhasesClean(p: Primary, r: Replica) {
    p.phase.FullSync? && p.sync.endpoint.None? ==> !PastSync(r)
  }

  lemma CleanInitially(s: System)
    requires Initial(s)
    ensures Clean(s)
  {
  }

  // --------------------------------------------------------------- single callbacks

  /** What a callback of the Primary that does not fail does to its connection. */
  predicate PrimaryLinkStep(p: Primary, q: Primary, event: CmEvent) {
    && q.session == p.session && q.syncId == p.syncId && q.size == p.size
    && if !p.phase.FullSync? then q.sync == p.sync && (PastSync2(p) ==> PastSync2(q))
       else
         || (q.sync == NO_SYNC && PastSync2(q) && PrimaryTransferDone(p) && event.Disconnected?
             && p.sync.endpoint.Some?)
         || (&& q.phase.FullSync? && (p.sync.disconnectPending ==> q.sync.disconnectPending)
             && if p.sync.endpoint.Some? then SameLink(p.sync, q.sync)
                else (q.sync.endpoint.Some? <==> event.Accepting?)
                     && (event.Accepting? ==> q.sync.endpoint.value.link == event.link))
  }

  lemma PrimaryStreamLink(p: Primary, conn: nat, event: CmEvent, completion: Completion, k: nat)
    requires p.session == Some(conn)
    ensures var step := PrimaryStream(p, conn, event, completion, k);
            !step.result.Failed? ==> PrimaryLinkStep(p, step.state, event)
  {
    hide PrimaryFullSync, PrimaryAof;
    if !p.phase.FullSync? {
      AofLink(p, k);
    } else {
      match event
      case Disconnected =>
        if p.sync.endpoint.Some? && PrimaryTransferDone(p) && StartCatchUp(p.(sync := NO_SYNC)).Some? {
          AofLink(StartCatchUp(p.(sync := NO_SYNC)).value, k);
        }
      case Established => FullSyncLink(p.(sync := p.sync.(established := true)), completion, k);
      case Accepting(link) =>
        FullSyncLink(if p.sync.endpoint.None? then
                     p.(sync := p.sync.(endpoint := Some(NewEndpoint(link).(recvPending := true)))) else p,
                     completion, k);
      case NoEvent => FullSyncLink(p, completion, k);
      case _ =>
    }
  }

  lemma AofLink(p: Primary, k: nat)
    ensures var q := PrimaryAof(p, k).state;
            && q.session == p.session && q.syncId == p.syncId && q.size == p.size && q.sync == p.sync
            && (PastSync2(p) ==> PastSync2(q))
  {
  }

  lemma FullSyncLink(p: Primary, completion: Completion, k: nat)
    requires p.phase.FullSync?
    ensures var step := PrimaryFullSync(p, completion, k);
            var q := step.state;
            !step.result.Failed? ==>
              && q.session == p.session && q.syncId == p.syncId && q.size == p.size && q.phase.FullSync?
              && (p.sync.disconnectPending ==> q.sync.disconnectPending)
              && (if p.sync.endpoint.Some? then SameLink(p.sync, q.sync) else q.sync.endpoint.None?)
  {
    hide ReadyLine, AckLine;
  }

  /** The same for the Replica. */
  predicate ReplicaLinkStep(r: Replica, q: Replica, event: CmEvent) {
    || q == r
    || (event.Disconnected? && ReplicaTransferDone(r) && q == r.(sync := NO_SYNC))
    || (SameLink(r.sync, q.sync) && PhaseStep(r, q) && (ReplicaTransferDone(r) ==> ReplicaTransferDone(q)))
  }

  lemma ReplicaStreamLink(r: Replica, event: CmEvent, completion: Completion)
    ensures var step := ReplicaStream(r, event, completion);
            !step.result.Failed? ==> ReplicaLinkStep(r, step.state, event)
  {
    hide ReplicaTransfer;
    StreamPhases(r, event, completion);
    if r.sync.endpoint.Some? {
      match event
      case RouteResolved =>
        if PostRecv(r.sync.endpoint.value).Some? {
          TransferLink(r.(sync := r.sync.(endpoint := PostRecv(r.sync.endpoint.value))), completion);
        }
      case Established =>
        ReadyLink(r);
        TransferLink(SendReady(r).state, completion);
      case NoEvent => TransferLink(r, completion);
      case _ =>
    }
  }

  lemma ReadyLink(r: Replica)
    requires r.sync.endpoint.Some?
    ensures var step := SendReady(r);
            !step.result.Failed? ==>
              SameLink(r.sync, step.state.sync) && (ReplicaTransferDone(r) ==> ReplicaTransferDone(step.state))
  {
    hide ReadyLine;
  }

  lemma TransferLink(r: Replica, completion: Completion)
    requires r.sync.endpoint.Some?
    ensures var step := ReplicaTransfer(r, completion);
            !step.result.Failed? ==>
              SameLink(r.sync, step.state.sync) && (ReplicaTransferDone(r) ==> ReplicaTransferDone(step.state))
  {
    hide Load, ReadyLine, AckLine;
  }

  // ------------------------------------------------------------ every step keeps it

  /** What the invariant says about the two ends. */
  lemma EndFacts(s: System)
    requires Inv(s)
    ensures s.p.sync.endpoint.Some? ==>
              s.p.phase.FullSync? && s.p.session.Some? && s.p.syncId.Some? && s.p.sync.endpoint.value.link in s.accepted
    ensures s.p.sync.endpoint.None? ==> s.p.sync == NO_SYNC
    ensures s.p.session.Some? ==>
              s.p.syncId.Some? && s.p.session.value in s.received && (s.p.phase.FullSync? || PastSync2(s.p))
    ensures s.p.session.None? ==> s.p.phase.Offline?
    ensures s.r.sync.endpoint.Some? ==>
              s.r.conn.Some? && s.r.syncId.Some? && (s.r.phase.FullSync? || s.r.phase.CatchUp?)
    ensures s.r.sync.endpoint.None? ==> s.r.sync == NO_SYNC
    ensures s.r.sync.endpoint.Some? && s.p.session == s.r.conn ==> s.p.syncId == s.r.syncId
    ensures forall l :: l in s.accepted ==> l < s.nextLink
    ensures s.r.conn.None? ==> s.r.phase.Offline? && s.r.sync == NO_SYNC
    ensures s.r.phase.Handshake? ==> s.r.sync == NO_SYNC && s.r.syncId.None?
    ensures s.r.phase.FullSync? ==> s.r.sync.endpoint.Some?
  {
    hide LogOk, SessionsOk, LinkOk, PrimarySyncOk, PrimaryReaderOk, PrimaryAofOk, Untouched, CopyOk, StreamOk, OrderOk,
         Notified, PositionsOk, Outstanding;
    EndSync(s);
    if s.p.sync.endpoint.Some? {
      PrimaryLinkPhase(s);
    }
  }

  lemma EndSync(s: System)
    requires Inv(s)
    ensures s.p.sync.endpoint.None? ==> s.p.sync == NO_SYNC
  {
    hide LogOk, SessionsOk, LinkOk, ReplicaOk, Untouched, OrderOk;
  }

  lemma CleanStep(s: System, step: Step)
    requires Inv(s) && Clean(s) && FailureFree(s, step)
    ensures Clean(Next(s, step))
  {
    hide Inv, Clean, DoClientWrite, DoConnect, DoPrimaryRecv, DoPrimaryHandle, DoPrimaryPoll, DoPrimaryClose,
         DoDeliverToReplica, DoReplicaRecv, DoDeliverToPrimary, DoReplicaPoll, DoReplicaHandle, DoReplicaSave,
         SendFinished, ClosePrimary, CloseReplica, KeepsConnections;
    match step
    case ClientWrite(fields) => CleanWrite(s, fields);
    case Connect => CleanConnect(s);
    case PrimaryRecv(c, k) => CleanRecv(s, c, k);
    case PrimaryHandle(c, capacity, psync) => CleanHandle(s, c, capacity, psync);
    case PrimaryPoll(event, completion, k) => CleanPoll(s, event, completion, k);
    case PrimaryClose(c) => CleanClose(s, c);
    case PrimaryCompletesSend => CleanCompletes(s);
    case ReplicaCompletesSend => CleanCompletes(s);
    case DeliverToReplica => CleanDelivers(s);
    case DeliverToPrimary => CleanDelivers(s);
    case ReplicaRecv(k) => CleanReplicaRecv(s, k);
    case ReplicaHandle => CleanReplicaHandle(s);
    case ReplicaPoll(event, completion) => CleanReplicaPoll(s, event, completion);
    case ReplicaSave(file) => CleanSave(s, file);
    case ReplicaClose => CleanReplicaClose(s);
    case _ =>
  }

  lemma CleanWrite(s: System, fields: Fields)
    requires Inv(s) && Clean(s)
    ensures Clean(DoClientWrite(s, fields))
  {
    hide Inv, EncodeCommand, Apply, Loggable;
  }

  lemma CleanConnect(s: System)
    requires Inv(s) && Clean(s)
    ensures Clean(DoConnect(s))
  {
    hide Inv;
    EndFacts(s);
  }

  lemma CleanRecv(s: System, c: nat, k: nat)
    requires Inv(s) && Clean(s)
    ensures Clean(DoPrimaryRecv(s, c, k))
  {
    hide Inv;
  }

  lemma CleanHandle(s: System, c: nat, capacity: nat, psync: PsyncInput)
    requires Inv(s) && Clean(s) && KeepsConnections(s, DoPrimaryHandle(s, c, capacity, psync))
    ensures Clean(DoPrimaryHandle(s, c, capacity, psync))
  {
    hide Inv, PrimaryBatch, NewSession, IsSnapshotOf, Push;
    EndFacts(s);
    if c in s.received && s.received[c] != [] {
      BatchStartsOnce(s.p, c, s.received[c], capacity, psync);
      OwnConnection(s, c);
    }
  }

  lemma LinkStepClean(p: Primary, q: Primary, r: Replica, accepted: set<nat>, accepted': set<nat>, event: CmEvent)
    requires PrimaryLinkClean(p, r) && ReplicaLinkClean(p, r, accepted) && PrimaryLinkStep(p, q, event)
    requires p.session.Some? && p.syncId.Some? && (r.sync.endpoint.Some? ==> p.syncId == r.syncId)
             && (p.phase.FullSync? || PastSync2(p))
    requires p.sync.endpoint.Some? ==> p.phase.FullSync? && p.sync.endpoint.value.link in accepted
    requires p.sync.endpoint.None? ==> p.sync == NO_SYNC
    requires event.Accepting? ==>
               r.sync.endpoint.Some? && r.sync.endpoint.value.link == event.link && event.link !in accepted
    requires event.Disconnected? ==> p.sync.disconnectPending
    requires p.sync.disconnectPending && SameLink(p.sync, r.sync) ==> ReplicaTransferDone(r)
    requires accepted' == if event.Accepting? && p.phase.FullSync? then accepted + {event.link} else accepted
    ensures PrimaryLinkClean(q, r) && ReplicaLinkClean(q, r, accepted')
    ensures PhasesClean(p, r) ==> PhasesClean(q, r)
  {
  }

  lemma CleanPoll(s: System, event: CmEvent, completion: Completion, k: nat)
    requires Inv(s) && Clean(s)
    requires CleanEvent(s, PrimaryPoll(event, completion, k))
             && KeepsConnections(s, DoPrimaryPoll(s, event, completion, k))
    ensures Clean(DoPrimaryPoll(s, event, completion, k))
  {
    hide Inv, PrimaryStream, Recorded, Push, PrimaryLinkStep, PrimaryLinkClean, ReplicaLinkClean, ReplicaTransferDone;
    EndFacts(s);
    if s.p.session.Some? && PrimaryEventOk(s, event) {
      var step := PrimaryStream(s.p, s.p.session.value, event, completion, k);
      PrimaryStreamLink(s.p, s.p.session.value, event, completion, k);
      if s.p.sync.disconnectPending && SameLink(s.p.sync, s.r.sync) {
        SharedIds(s);
        EndingFacts(s);
      }
      var accepted' := if event.Accepting? && s.p.phase.FullSync? then s.accepted + {event.link} else s.accepted;
      if !step.result.Failed? {
        SharedIds(s);
        LinkStepClean(s.p, step.state, s.r, s.accepted, accepted', event);
      }
    }
  }

  /** With an active session there is only one connection, and one synchronisation. */
  lemma SharedIds(s: System)
    requires Inv(s) && Clean(s) && s.p.session.Some?
    ensures s.r.conn == s.p.session && (s.r.sync.endpoint.Some? ==> s.p.syncId == s.r.syncId)
  {
    hide Inv, PrimaryLinkClean, ReplicaLinkClean;
    EndFacts(s);
  }

  /** Once the Primary asks for the end, the Replica has everything and has said so. */
  lemma EndingFacts(s: System)
    requires Inv(s) && Transferring(s) && s.p.sync.disconnectPending
    ensures ReplicaTransferDone(s.r)
  {
    hide Inv;
    LinkedHolds(s);
    EndOfTransfer(s.p, s.r, s.sessions[s.p.syncId.value].file, s.nextLink, s.accepted);
  }

  lemma CleanClose(s: System, c: nat)
    requires Inv(s) && Clean(s) && KeepsConnections(s, DoPrimaryClose(s, c))
    ensures Clean(DoPrimaryClose(s, c))
  {
    hide Inv, PrimaryDisconnected;
  }

  /** The same end of the same connection, messages aside. */
  predicate SameEnd(a: Sync, b: Sync) {
    && b == a.(endpoint := b.endpoint) && (a.endpoint.Some? <==> b.endpoint.Some?)
    && (a.endpoint.Some? ==> a.endpoint.value.link == b.endpoint.value.link)
  }

  lemma CleanFrame(s: System, t: System)
    requires Clean(s) && t.received == s.received && t.accepted == s.accepted
    requires t.p == s.p.(sync := t.p.sync) && t.r == s.r.(sync := t.r.sync)
    requires SameEnd(s.p.sync, t.p.sync) && SameEnd(s.r.sync, t.r.sync)
    ensures Clean(t)
  {
  }

  lemma SameEndFinished(sync: Sync)
    ensures SameEnd(sync, SendFinished(sync)) && SameEnd(sync, sync)
  {
  }

  lemma CleanCompletes(s: System)
    requires Clean(s)
    ensures Clean(s.(p := s.p.(sync := SendFinished(s.p.sync)))) && Clean(s.(r := s.r.(sync := SendFinished(s.r.sync))))
  {
    hide Clean, SendFinished, SameEnd;
    SameEndFinished(s.p.sync);
    SameEndFinished(s.r.sync);
    CleanFrame(s, s.(p := s.p.(sync := SendFinished(s.p.sync))));
    CleanFrame(s, s.(r := s.r.(sync := SendFinished(s.r.sync))));
  }

  lemma CleanDelivers(s: System)
    requires Clean(s)
    ensures Clean(DoDeliverToReplica(s)) && Clean(DoDeliverToPrimary(s))
  {
    hide Clean, Deliver;
    if SameLink(s.p.sync, s.r.sync) {
      DeliverEnds(s, s.p.sync, s.r.sync);
      DeliverEnds(s, s.r.sync, s.p.sync);
    }
    CleanFrame(s, DoDeliverToReplica(s));
    CleanFrame(s, DoDeliverToPrimary(s));
  }

  lemma DeliverEnds(s: System, from: Sync, to: Sync)
    requires SameLink(from, to)
    ensures var (a, b, over) := Deliver(s, from, to); SameEnd(from, a) && SameEnd(to, b)
  {
  }

  lemma CleanReplicaRecv(s: System, k: nat)
    requires Clean(s)
    ensures Clean(DoReplicaRecv(s, k))
  {
  }

  lemma CleanReplicaHandle(s: System)
    requires Inv(s) && Clean(s) && KeepsConnections(s, DoReplicaHandle(s))
    ensures Clean(DoReplicaHandle(s))
  {
    hide Inv, UpstreamProtocol, Push;
    EndFacts(s);
    if ReplicaReadsTcp(s) && s.r.input != [] {
      HandlerLink(s.r, s.r.input, s.nextLink);
      ProtocolKeepsSession(s.r, s.r.input, s.nextLink);
    }
  }

  lemma HandlerLink(r: Replica, input: ByteString, link: nat)
    requires input != [] && r.sync == NO_SYNC
    ensures var h := UpstreamProtocol(r, input, link);
            h.Handled? ==>
              && h.state.conn == r.conn
              && if r.phase.Handshake? then
                   h.state == r || (h.state.phase.FullSync?
                                    && h.state.sync == NO_SYNC.(endpoint := Some(NewEndpoint(link))))
                 else h.state.sync == NO_SYNC && h.state.syncId == r.syncId && (PastSync(r) ==> PastSync(h.state))
  {
    hide EncodeCommand, ParseCommand, Apply, ParseResync, ParseOnline, FirstLine;
  }

  lemma ReplicaStepClean(p: Primary, r: Replica, q: Replica, accepted: set<nat>, event: CmEvent)
    requires PrimaryLinkClean(p, r) && ReplicaLinkClean(p, r, accepted) && PhasesClean(p, r)
             && ReplicaLinkStep(r, q, event)
    requires event.Disconnected? ==>
               p.syncId.Some? && p.syncId == r.syncId && (p.sync.disconnectPending || PastSync2(p))
    requires PastSync(q) && !PastSync(r) ==>
               r.sync.endpoint.Some? && r.sync.endpoint.value.link in accepted && r.phase.FullSync?
    requires p.sync.endpoint.Some? ==> p.phase.FullSync?
    requires p.sync.endpoint.None? ==> p.sync == NO_SYNC
    ensures PrimaryLinkClean(p, q) && ReplicaLinkClean(p, q, accepted) && PhasesClean(p, q)
  {
  }

  lemma CleanReplicaPoll(s: System, event: CmEvent, completion: Completion)
    requires Inv(s) && Clean(s)
    requires CleanEvent(s, ReplicaPoll(event, completion)) && KeepsConnections(s, DoReplicaPoll(s, event, completion))
    ensures Clean(DoReplicaPoll(s, event, completion))
  {
    hide Inv, ReplicaStream, ReplicaEventOk, PrimaryLinkClean, ReplicaLinkClean, PhasesClean, ReplicaLinkStep;
    EndFacts(s);
    ReplicaStreamLink(s.r, event, completion);
    var step := ReplicaStream(s.r, event, completion);
    PollFacts(s, event, completion);
    if DoReplicaPoll(s, event, completion) != s && !step.result.Failed? {
      ReplicaStepClean(s.p, s.r, step.state, s.accepted, event);
    }
  }

  lemma PollFacts(s: System, event: CmEvent, completion: Completion)
    requires Inv(s)
    ensures var q := ReplicaStream(s.r, event, completion).state;
            PastSync(q) && !PastSync(s.r) ==>
              s.r.sync.endpoint.Some? && s.r.sync.endpoint.value.link in s.accepted && s.r.phase.FullSync?
  {
    hide Inv, ReplicaStream;
    StreamPhases(s.r, event, completion);
    StreamCompletes(s.r, event, completion);
    EndFacts(s);
    if s.r.sync.endpoint.Some? {
      EventFacts(s);
      EstablishedAccepted(s);
    }
  }

  lemma EstablishedAccepted(s: System)
    requires Inv(s) && s.r.sync.endpoint.Some?
    ensures s.r.sync.established ==> s.r.sync.endpoint.value.link in s.accepted
  {
    hide LogOk, PrimaryOk, SessionsOk, LinkOk, CopyOk, StreamOk;
  }

  lemma CleanSave(s: System, file: ByteString)
    requires Clean(s)
    ensures Clean(DoReplicaSave(s, file))
  {
    hide IsSnapshotOf;
  }

  lemma CleanReplicaClose(s: System)
    requires Clean(s) && KeepsConnections(s, Next(s, ReplicaClose))
    ensures Clean(Next(s, ReplicaClose))
  {
  }

  /** In every run without failures both sides belong together. */
  lemma {:induction false} CalmRunsAreClean(s: System, steps: seq<Step>)
    requires Inv(s) && Clean(s) && CalmRun(s, steps)
    ensures Inv(Run(s, steps)) && Clean(Run(s, steps))
    decreases |steps|
  {
    hide Inv, Clean, Next, FailureFree;
    if steps != [] {
      StepOk(s, steps[0]);
      CleanStep(s, steps[0]);
      CalmRunsAreClean(Next(s, steps[0]), steps[1..]);
      RunFront(s, steps[0], steps[1..]);
      assert [steps[0]] + steps[1..] == steps;
    }
  }
}
