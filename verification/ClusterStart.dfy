/** How a synchronisation begins: from any state a run without failures goes through the handshake
    to a session, and after any failures closing the connections is enough to start again. */
module ClusterStart {
  import opened Bytes
  import opened Codec
  import opened Store
  import opened Aof
  import opened Snapshot
  import opened Rdma
  import opened ControlLines
  import opened Replication
  import opened Cluster
  import opened ClusterInvariant
  import opened ClusterNetwork
  import opened ClusterHandshake
  import opened ClusterPsync
  import opened ClusterTheorems
  import opened ClusterFiles
  import opened ClusterProgress
  import opened ClusterCalm
  import opened ClusterSync

  // ----------------------------------------------------- sessions and open connections

  /** A session whose connection is open is the active one. */
  predicate OneOwner(s: System) {
    forall id :: id in s.sessions && s.sessions[id].conn in s.received ==>
      s.p.session == Some(s.sessions[id].conn) && s.p.syncId == Some(id)
  }

  lemma OwnerFrame(s: System, t: System)
    requires OneOwner(s) && t.sessions == s.sessions && t.received.Keys == s.received.Keys
    requires t.p.session == s.p.session && t.p.syncId == s.p.syncId
    ensures OneOwner(t)
  {
  }

  lemma OwnerConnects(s: System)
    requires Inv(s) && OneOwner(s)
    ensures OneOwner(DoConnect(s))
  {
    hide LogOk, PrimaryOk, ReplicaOk, LinkOk, PositionsOk, Load, StoresAt, Stream;
    forall id | id in s.sessions ensures s.sessions[id].conn < s.nextConn {
      assert SessionOk(s.base, s.log, s.p.aof, s.nextConn, id, s.sessions[id]);
    }
  }

  lemma OwnerCloses(s: System, p: Primary, c: nat)
    requires forall id :: id in s.sessions && s.sessions[id].conn in s.received && s.sessions[id].conn != c ==>
               p.session == Some(s.sessions[id].conn) && p.syncId == Some(id)
    ensures OneOwner(ClosePrimary(s, p, c))
  {
  }

  lemma OwnerHandles(s: System, c: nat, capacity: nat, psync: PsyncInput)
    requires Inv(s) && OneOwner(s)
    ensures OneOwner(DoPrimaryHandle(s, c, capacity, psync))
  {
    hide Inv, PrimaryBatch, IsSnapshotOf, Push, ClosePrimary;
    EndFacts(s);
    if c in s.received && s.received[c] != [] {
      BatchStartsOnce(s.p, c, s.received[c], capacity, psync);
      var batch := PrimaryBatch(s.p, c, s.received[c], capacity, psync);
      OwnerCloses(s, batch.state, c);
      OwnerCloses(s.(sessions := s.sessions[psync.syncId := NewSession(s, c, psync)]), batch.state, c);
    }
  }

  lemma OwnerRecords(s: System, t: System, id: ByteString)
    requires OneOwner(s) && t.received.Keys == s.received.Keys
    requires t.p.session == s.p.session && t.p.syncId == s.p.syncId
    requires id in s.sessions && id in t.sessions && t.sessions == s.sessions[id := t.sessions[id]]
    requires t.sessions[id].conn == s.sessions[id].conn
    ensures OneOwner(t)
  {
  }

  lemma OwnerPolls(s: System, event: CmEvent, completion: Completion, k: nat)
    requires OneOwner(s)
    ensures OneOwner(DoPrimaryPoll(s, event, completion, k))
  {
    hide PrimaryStream, PrimaryEventOk, ClosePrimary, Push, OneOwner;
    if s.p.session.Some? && s.p.syncId.Some? && PrimaryEventOk(s, event) {
      var c, id := s.p.session.value, s.p.syncId.value;
      var step := PrimaryStream(s.p, c, event, completion, k);
      var t := DoPrimaryPoll(s, event, completion, k);
      StreamKeepsSession(s.p, c, event, completion, k);
      if step.result.Failed? {
        var s' := if event.Accepting? && s.p.phase.FullSync? then s.(accepted := s.accepted + {event.link}) else s;
        OwnerFrame(s, s');
        OwnerFails(s', step.state, c);
      } else if step.result.Emit? && id in s.sessions {
        OwnerRecords(s, t, id);
      } else {
        OwnerFrame(s, t);
      }
    }
  }

  lemma OwnerFails(s: System, p: Primary, c: nat)
    requires OneOwner(s) && p.session == s.p.session && p.syncId == s.p.syncId
    ensures OneOwner(ClosePrimary(s, p, c))
  {
    hide ClosePrimary;
    OwnerCloses(s, p, c);
  }

  lemma StreamKeepsSession(p: Primary, conn: nat, event: CmEvent, completion: Completion, k: nat)
    ensures var q := PrimaryStream(p, conn, event, completion, k).state; q.session == p.session && q.syncId == p.syncId
  {
    hide PrimaryFullSync, PrimaryAof;
    match event
    case Disconnected =>
      AofLink(p, k);
      if StartCatchUp(p.(sync := NO_SYNC)).Some? {
        AofLink(StartCatchUp(p.(sync := NO_SYNC)).value, k);
      }
    case Established =>
      AofLink(p, k);
      FullSyncResult(p.(sync := p.sync.(established := true)), completion, k);
    case Accepting(link) =>
      AofLink(p, k);
      FullSyncResult(p, completion, k);
      FullSyncResult(p.(sync := p.sync.(endpoint := Some(NewEndpoint(link).(recvPending := true)))), completion, k);
    case _ =>
      AofLink(p, k);
      FullSyncResult(p, completion, k);
  }

  /** Every step keeps it. */
  lemma OwnerStep(s: System, step: Step)
    requires Inv(s) && OneOwner(s)
    ensures OneOwner(Next(s, step))
  {
    hide Inv, OneOwner, DoClientWrite, DoConnect, DoPrimaryRecv, DoPrimaryHandle, DoPrimaryPoll, DoPrimaryClose,
         DoDeliverToReplica, DoReplicaRecv, DoDeliverToPrimary, DoReplicaPoll, DoReplicaHandle, DoReplicaSave,
         SendFinished, CloseReplica;
    match step
    case ClientWrite(fields) => OwnerWrites(s, fields);
    case Connect => OwnerConnects(s);
    case PrimaryRecv(c, k) => OwnerReceives(s, c, k);
    case PrimaryHandle(c, capacity, psync) => OwnerHandles(s, c, capacity, psync);
    case PrimaryPoll(event, completion, k) => OwnerPolls(s, event, completion, k);
    case PrimaryClose(c) => OwnerClosed(s, c);
    case _ => OwnerElsewhere(s, step);
  }

  lemma OwnerWrites(s: System, fields: Fields)
    requires OneOwner(s)
    ensures OneOwner(DoClientWrite(s, fields))
  {
    hide EncodeCommand, Apply, Loggable, OneOwner;
    OwnerFrame(s, DoClientWrite(s, fields));
  }

  lemma OwnerReceives(s: System, c: nat, k: nat)
    requires OneOwner(s)
    ensures OneOwner(DoPrimaryRecv(s, c, k))
  {
    hide OneOwner;
    OwnerFrame(s, DoPrimaryRecv(s, c, k));
  }

  lemma OwnerClosed(s: System, c: nat)
    requires OneOwner(s)
    ensures OneOwner(DoPrimaryClose(s, c))
  {
    hide ClosePrimary;
    OwnerCloses(s, s.p, c);
  }

  /** What the rest of the system never touches. */
  predicate SameOwners(s: System, t: System) {
    t.sessions == s.sessions && t.received == s.received && t.p.session == s.p.session && t.p.syncId == s.p.syncId
  }

  lemma OwnerElsewhere(s: System, step: Step)
    requires OneOwner(s) && ((!PrimarySide(step) && !step.Connect?) || step.PrimaryCompletesSend?)
    ensures OneOwner(Next(s, step))
  {
    hide OneOwner, DoDeliverToReplica, DoReplicaRecv, DoDeliverToPrimary, DoReplicaPoll, DoReplicaHandle,
         DoReplicaSave, SendFinished;
    match step {
      case DeliverToReplica => DeliverySpares(s);
      case DeliverToPrimary => DeliverySpares(s);
      case ReplicaRecv(k) => ReadSpares(s, k);
      case ReplicaPoll(event, completion) => ReplicaPollSpares(s, event, completion);
      case ReplicaHandle => ReplicaHandleSpares(s);
      case ReplicaSave(file) => SaveSpares(s, file);
      case _ =>
    }
    OwnerFrame(s, Next(s, step));
  }

  lemma DeliverySpares(s: System)
    ensures SameOwners(s, DoDeliverToReplica(s)) && SameOwners(s, DoDeliverToPrimary(s))
  {
    hide Deliver;
  }

  lemma ReadSpares(s: System, k: nat)
    ensures SameOwners(s, DoReplicaRecv(s, k))
  {
  }

  lemma ReplicaPollSpares(s: System, event: CmEvent, completion: Completion)
    ensures SameOwners(s, DoReplicaPoll(s, event, completion))
  {
    hide ReplicaStream, ReplicaEventOk;
  }

  lemma ReplicaHandleSpares(s: System)
    ensures SameOwners(s, DoReplicaHandle(s))
  {
    hide UpstreamProtocol, Push;
  }

  lemma SaveSpares(s: System, file: ByteString)
    ensures SameOwners(s, DoReplicaSave(s, file))
  {
    hide IsSnapshotOf;
  }

  lemma {:induction false} OwnerRun(s: System, steps: seq<Step>)
    requires Initial(s)
    ensures Inv(Run(s, steps)) && OneOwner(Run(s, steps))
  {
    hide Inv, Initial, Next, OneOwner;
    RunOk(s, steps);
    if steps == [] {
      NoSessions(s);
    } else {
      OwnerRun(s, steps[..|steps| - 1]);
      OwnerStep(Run(s, steps[..|steps| - 1]), steps[|steps| - 1]);
    }
  }

  lemma NoSessions(s: System)
    requires Initial(s)
    ensures OneOwner(s) && Attached(s)
  {
  }

  /** The Replica's connection is open on the Primary's side too. */
  predicate Attached(s: System) {
    s.r.conn.Some? ==> s.r.conn.value in s.received
  }

  lemma AttachedStep(s: System, step: Step)
    requires Inv(s) && Attached(s) && FailureFree(s, step)
    ensures Attached(Next(s, step))
  {
    hide Inv, UpstreamProtocol, ReplicaStream, Deliver, IsSnapshotOf, SendFinished;
    if PrimarySide(step) {
      PrimarySideKeepsReplica(s, step);
    }
  }

  // ------------------------------------------------------------------- the handshake

  predicate Between(s: System, c: nat) {
    && s.r.conn == Some(c) && s.r.phase.Handshake? && s.p.session.None? && s.r.sync == NO_SYNC
    && c in s.received && c in s.toPrimary && c in s.toReplica
  }

  predicate Pinging(s: System, c: nat) {
    && Between(s, c) && s.received[c] + s.toPrimary[c] == PING + CRLF && s.r.input == [] && s.toReplica[c] == []
  }

  predicate Ponging(s: System, c: nat) {
    && Between(s, c) && s.received[c] == [] && s.toPrimary[c] == [] && s.r.input + s.toReplica[c] == PONG + CRLF
  }

  predicate Psyncing(s: System, c: nat) {
    && Between(s, c) && s.received[c] + s.toPrimary[c] == PSYNC + CRLF && s.r.input == [] && s.toReplica[c] == []
  }

  /** Without a session the two sides are exchanging one of the three lines. */
  lemma HandshakeStages(s: System, c: nat)
    requires Inv(s) && OneOwner(s) && Attached(s) && s.p.session.None? && s.r.conn == Some(c)
    ensures Pinging(s, c) || Ponging(s, c) || Psyncing(s, c)
  {
    hide LogOk, SessionsOk, PrimaryOk, LinkOk, ReplicaCaughtUpOk, ReplicaFullSyncOk, PositionsOk, Untouched,
         ResyncFrame, PING, PONG, PSYNC;
    if s.r.phase.Handshake? {
      assert HandshakeOk(s, c);
      StageOf(s, c);
    }
  }

  lemma StageOf(s: System, c: nat)
    requires c in s.toReplica && c in s.received && c in s.toPrimary && HandshakeOk(s, c) && OneOwner(s)
    requires s.p.session.None? && s.r.conn == Some(c) && s.r.phase.Handshake?
    ensures Pinging(s, c) || Ponging(s, c) || Psyncing(s, c)
  {
    hide Untouched, ResyncFrame, PING, PONG, PSYNC;
    var pending, sent := s.r.input + s.toReplica[c], s.received[c] + s.toPrimary[c];
    assert pending == [] ==> s.r.input == [] && s.toReplica[c] == [];
    assert sent == [] ==> s.received[c] == [] && s.toPrimary[c] == [];
  }

  /** How many steps of the handshake are left. */
  function Rank(s: System): nat {
    match s.r.conn
    case None => 7
    case Some(c) =>
      if c !in s.toPrimary || c !in s.toReplica || c !in s.received then 0
      else if s.received[c] + s.toPrimary[c] == PING + CRLF then if s.toPrimary[c] != [] then 6 else 5
      else if s.received[c] + s.toPrimary[c] == PSYNC + CRLF then if s.toPrimary[c] != [] then 2 else 1
      else if s.toReplica[c] != [] then 4 else 3
  }

  lemma Lines()
    ensures |PING + CRLF| == 6 && |PONG + CRLF| == 6 && |PSYNC + CRLF| == 12
    ensures PING + CRLF != PSYNC + CRLF
  {
    HandshakeLines();
  }

  /** The notification fits the response buffer of the network layer. */
  const RESPONSE_CAPACITY: nat := 1024

  lemma NotificationFits(s: System, psync: PsyncInput)
    requires Inv(s) && PsyncInputOk(s, psync)
    ensures 0 < |Notification(s.p, psync)| < RESPONSE_CAPACITY
  {
    hide PrimaryOk, ReplicaOk, LinkOk, SessionsOk, IsSnapshotOf, EncodeLog, ApplyAll, Decimal;
    DecimalOfOffset(|s.p.aof|);
    DecimalOfOffset(|psync.file|);
    DecimalOfOffset(psync.port);
  }

  /** What a step of the handshake leaves alone. */
  predicate SameData(s: System, t: System) {
    t.p.stores == s.p.stores && t.p.aof == s.p.aof && t.sessions == s.sessions
  }

  lemma StillValid(s: System, t: System, psync: PsyncInput)
    requires PsyncInputOk(s, psync) && SameData(s, t)
    ensures PsyncInputOk(t, psync)
  {
  }

  lemma Connects(s: System)
    requires Inv(s) && s.r.conn.None? && s.p.session.None?
    ensures FailureFree(s, Connect)
    ensures var t := Next(s, Connect); SameData(s, t) && t.p.session.None? && Rank(t) < Rank(s)
  {
    hide LogOk, SessionsOk, PrimaryOk, ReplicaOk, LinkOk, PING, PSYNC;
    Lines();
    assert [] + (PING + CRLF) == PING + CRLF;
  }

  lemma PrimaryReads(s: System, c: nat)
    requires Pinging(s, c) || Psyncing(s, c)
    requires s.toPrimary[c] != []
    ensures var step := PrimaryRecv(c, |s.toPrimary[c]|);
            FailureFree(s, step)
            && var t := Next(s, step); SameData(s, t) && t.p.session.None? && Rank(t) < Rank(s)
  {
    hide PING, PSYNC;
    Lines();
    var whole := s.received[c] + s.toPrimary[c];
    assert s.received[c] + s.toPrimary[c][..|s.toPrimary[c]|] + s.toPrimary[c][|s.toPrimary[c]|..] == whole;
  }

  lemma PrimaryAnswersPing(s: System, c: nat, psync: PsyncInput)
    requires Pinging(s, c) && s.toPrimary[c] == []
    ensures var step := PrimaryHandle(c, RESPONSE_CAPACITY, psync);
            FailureFree(s, step)
            && var t := Next(s, step); SameData(s, t) && t.p.session.None? && Rank(t) < Rank(s)
  {
    hide PING, PONG, PSYNC, PrimaryBatch, IsSnapshotOf;
    Lines();
    assert s.received[c] == PING + CRLF;
    PingBatch(s.p, c, RESPONSE_CAPACITY, psync);
  }

  lemma ReplicaReads(s: System, c: nat)
    requires Ponging(s, c) && s.toReplica[c] != []
    ensures var step := ReplicaRecv(|s.toReplica[c]|);
            FailureFree(s, step)
            && var t := Next(s, step); SameData(s, t) && t.p.session.None? && Rank(t) < Rank(s)
  {
    hide PING, PONG, PSYNC;
    Lines();
  }

  lemma ReplicaAnswersPong(s: System, c: nat)
    requires Ponging(s, c) && s.toReplica[c] == []
    ensures FailureFree(s, ReplicaHandle)
    ensures var t := Next(s, ReplicaHandle); SameData(s, t) && t.p.session.None? && Rank(t) < Rank(s)
  {
    hide PING, PONG, PSYNC, FirstLine;
    Lines();
    HandshakeLines();
    LineInput(s.r.input, [], PONG);
    assert s.r.input + [] == s.r.input == PONG + CRLF;
    assert [] + (PSYNC + CRLF) == PSYNC + CRLF;
  }

  lemma PrimaryStarts(s: System, c: nat, psync: PsyncInput)
    requires Inv(s) && Psyncing(s, c) && s.toPrimary[c] == [] && PsyncInputOk(s, psync)
    ensures var step := PrimaryHandle(c, RESPONSE_CAPACITY, psync);
            FailureFree(s, step) && Next(s, step).p.session == Some(c)
  {
    hide Inv, PING, PONG, PSYNC, PrimaryBatch, PsyncInputOk, ResyncFrame, DoPrimaryHandle, Notification;
    Lines();
    assert s.received[c] == PSYNC + CRLF;
    PsyncBatch(s.p, c, RESPONSE_CAPACITY, psync);
    NotificationFits(s, psync);
    NoEndpoint(s);
    LogOf(s);
    SnapshotLoads(s, psync);
    Creates(s, c, psync, Notification(s.p, psync));
    hide *;
    HandleFree(s, c, RESPONSE_CAPACITY, psync);
  }

  lemma HandleFree(s: System, c: nat, capacity: nat, psync: PsyncInput)
    requires var t := DoPrimaryHandle(s, c, capacity, psync); t.r == s.r && t.received.Keys == s.received.Keys
    ensures var step := PrimaryHandle(c, capacity, psync);
            FailureFree(s, step) && Next(s, step) == DoPrimaryHandle(s, c, capacity, psync)
  {
    hide DoPrimaryHandle;
  }

  lemma Creates(s: System, c: nat, psync: PsyncInput, response: ByteString)
    requires c in s.received && s.received[c] != [] && s.p.session.None? && PsyncInputOk(s, psync)
    requires PrimaryBatch(s.p, c, s.received[c], RESPONSE_CAPACITY, psync)
             == Batch(Started(s.p, c, psync), response, [])
    ensures var t := DoPrimaryHandle(s, c, RESPONSE_CAPACITY, psync);
            t.p.session == Some(c) && t.r == s.r && t.received.Keys == s.received.Keys
  {
    hide PrimaryBatch, PsyncInputOk, NewSession, Push;
  }

  lemma NoEndpoint(s: System)
    requires Inv(s) && s.p.session.None?
    ensures s.p.sync == NO_SYNC
  {
    hide LogOk, SessionsOk, ReplicaOk, LinkOk;
  }

  lemma LogOf(s: System)
    requires Inv(s)
    ensures LogOk(s.base, s.log, s.p.stores, s.p.aof)
  {
    hide LogOk, SessionsOk, PrimaryOk, ReplicaOk, LinkOk;
  }

  /** Until there is a session, some step brings it closer. */
  lemma HandshakeMoves(s: System, psync: PsyncInput) returns (step: Step)
    requires Inv(s) && OneOwner(s) && Attached(s) && s.p.session.None? && PsyncInputOk(s, psync)
    ensures FailureFree(s, step) && !step.ClientWrite?
    ensures var t := Next(s, step);
            t.p.session.Some? || (t.p.session.None? && SameData(s, t) && Rank(t) < Rank(s))
  {
    hide Inv, OneOwner, Next, FailureFree, SameData, Rank, PsyncInputOk, PING, PONG, PSYNC;
    if s.r.conn.None? {
      Connects(s);
      return Connect;
    }
    var c := s.r.conn.value;
    HandshakeStages(s, c);
    if Pinging(s, c) {
      if s.toPrimary[c] != [] {
        PrimaryReads(s, c);
        return PrimaryRecv(c, |s.toPrimary[c]|);
      }
      PrimaryAnswersPing(s, c, psync);
      return PrimaryHandle(c, RESPONSE_CAPACITY, psync);
    } else if Ponging(s, c) {
      if s.toReplica[c] != [] {
        ReplicaReads(s, c);
        return ReplicaRecv(|s.toReplica[c]|);
      }
      ReplicaAnswersPong(s, c);
      return ReplicaHandle;
    } else {
      if s.toPrimary[c] != [] {
        PrimaryReads(s, c);
        return PrimaryRecv(c, |s.toPrimary[c]|);
      }
      PrimaryStarts(s, c, psync);
      return PrimaryHandle(c, RESPONSE_CAPACITY, psync);
    }
  }

  /** From every state of a run without failures there is a way to a session: connect, PING,
      PONG, PSYNC, notification. */
  lemma {:induction false} SessionStarts(s: System, psync: PsyncInput) returns (steps: seq<Step>)
    requires Inv(s) && Clean(s) && OneOwner(s) && Attached(s) && (s.p.session.None? ==> PsyncInputOk(s, psync))
    ensures CalmRun(s, steps) && NoWrites(steps)
    ensures var t := Run(s, steps); Inv(t) && Clean(t) && t.p.session.Some?
    decreases Rank(s)
  {
    hide Inv, Clean, OneOwner, Attached, Next, FailureFree, SameData, Rank, PsyncInputOk;
    if s.p.session.Some? {
      return [];
    } else {
      var step := HandshakeMoves(s, psync);
      var t := Next(s, step);
      StepOk(s, step);
      CleanStep(s, step);
      OwnerStep(s, step);
      AttachedStep(s, step);
      var rest: seq<Step>;
      if t.p.session.Some? {
        rest := [];
      } else {
        StillValid(s, t, psync);
        rest := SessionStarts(t, psync);
      }
      RunFront(s, step, rest);
      assert ([step] + rest)[1..] == rest;
      return [step] + rest;
    }
  }
}
