/** The Primary's stream callback keeps the invariant. */
module ClusterPrimary {
  import opened Bytes
  import opened Codec
  import opened Store
  import opened Aof
  import opened Snapshot
  import opened Rdma
  import opened ControlLines
  import opened Replication
  import opened Cluster
  import opened ClusterInvariant
  import opened ClusterNetwork

  // ------------------------------------------------------- snapshot over RDMA

  /** Nothing has been exchanged over the Primary's connection yet. */
  predicate Unused(sync: Sync) {
    sync.snapshotBytes == 0 && (sync.endpoint.Some? ==> sync.endpoint.value.inbox.None?)
  }

  /** What a transfer step of the Primary may change, and what it keeps. */
  predicate TransferStepOk(p: Primary, q: Primary, file: ByteString, sessions: map<ByteString, Session>,
                           rId: Option<ByteString>, r: Sync) {
    && q == p.(sync := q.sync, reader := q.reader)
    && q.sync.endpoint.Some? == p.sync.endpoint.Some?
    && (q.sync.endpoint.Some? ==> q.sync.endpoint.value.link == p.sync.endpoint.value.link)
    && PrimarySyncOk(q.sync, file) && PrimaryReaderOk(q.reader, q.sync, file)
    && LinkOk(sessions, p.syncId, q.sync, rId, r)
    && (Unused(p.sync) ==> Unused(q.sync))
  }

  predicate TransferPre(p: Primary, file: ByteString, sessions: map<ByteString, Session>, rId: Option<ByteString>,
                        r: Sync) {
    && p.syncId.Some? && p.syncId.value in sessions && sessions[p.syncId.value].file == file
    && PrimarySyncOk(p.sync, file) && PrimaryReaderOk(p.reader, p.sync, file)
    && LinkOk(sessions, p.syncId, p.sync, rId, r)
    && IsId(p.syncId.value) && (rId.Some? ==> IsId(rId.value))
  }

  lemma PollSendOk(p: Primary, k: nat, file: ByteString, sessions: map<ByteString, Session>, rId: Option<ByteString>,
                   r: Sync)
    requires TransferPre(p, file, sessions, rId, r) && !p.sync.disconnectPending && p.sync.established
    requires p.sync.endpoint.Some? && PollSend(p.sync.endpoint.value).Some?
    ensures TransferStepOk(p, p.(sync := p.sync.(endpoint := PollSend(p.sync.endpoint.value), sendPending := false)),
                           file, sessions, rId, r)
  {
    hide ReadyLine, AckLine;
  }

  /** Sending the next block once everything so far is acknowledged. */
  lemma SendNextOk(p: Primary, k: nat, file: ByteString, sessions: map<ByteString, Session>, rId: Option<ByteString>,
                   r: Sync)
    requires TransferPre(p, file, sessions, rId, r) && p.sync.established
    requires p.sync.snapshotBytes > 0 && p.sync.acknowledgedBytes == p.sync.snapshotBytes && p.reader.Reader?
    requires !p.sync.sendPending && p.sync.endpoint.Some?
    ensures SendChunk(p, k).result.Wait? || SendChunk(p, k).result.Failed?
    ensures SendChunk(p, k).result.Wait? ==> TransferStepOk(p, SendChunk(p, k).state, file, sessions, rId, r)
  {
    hide ReadyLine, AckLine;
    if SendChunk(p, k).result.Wait? {
      var q := SendChunk(p, k).state;
      var chunk := file[p.sync.snapshotBytes..p.sync.snapshotBytes + k];
      assert q.sync.endpoint.value.wire == [chunk];
    }
  }

  /** Starting the regular disconnect after the last acknowledgement. */
  lemma DisconnectOk(p: Primary, file: ByteString, sessions: map<ByteString, Session>, rId: Option<ByteString>, r: Sync)
    requires TransferPre(p, file, sessions, rId, r) && p.sync.established
    requires p.sync.snapshotBytes > 0 && p.sync.acknowledgedBytes == p.sync.snapshotBytes
    requires !p.sync.sendPending && p.sync.endpoint.Some? && p.reader.Reader? && p.reader.remaining == 0
    ensures TransferStepOk(p, p.(sync := p.sync.(disconnectPending := true), reader := ReaderClosed), file, sessions,
                           rId, r)
  {
    hide ReadyLine, AckLine;
  }

  lemma ReceiveAckOk(p: Primary, k: nat, file: ByteString, sessions: map<ByteString, Session>, rId: Option<ByteString>,
                     r: Sync)
    requires TransferPre(p, file, sessions, rId, r) && p.sync.established && !p.sync.disconnectPending
    requires p.sync.endpoint.Some? && p.sync.endpoint.value.inbox.Some? && p.sync.snapshotBytes > 0
    ensures var e := p.sync.endpoint.value;
            var step := PrimaryReceive(p, e.(recvPending := false, inbox := None), e.inbox.value, k);
            step.result.Failed? || (step.result.Wait? && TransferStepOk(p, step.state, file, sessions, rId, r))
  {
    hide ReadyLine, AckLine;
  }

  lemma ReceiveReadyOk(p: Primary, k: nat, file: ByteString, sessions: map<ByteString, Session>,
                       rId: Option<ByteString>, r: Sync)
    requires TransferPre(p, file, sessions, rId, r) && p.sync.established && !p.sync.disconnectPending
    requires p.sync.endpoint.Some? && p.sync.endpoint.value.inbox.Some? && p.sync.snapshotBytes == 0
    ensures var e := p.sync.endpoint.value;
            var step := PrimaryReceive(p, e.(recvPending := false, inbox := None), e.inbox.value, k);
            step.result.Failed? || (step.result.Wait? && TransferStepOk(p, step.state, file, sessions, rId, r))
  {
    hide AckLine, ReadyLine;
    var e := p.sync.endpoint.value;
    var step := PrimaryReceive(p, e.(recvPending := false, inbox := None), e.inbox.value, k);
    if !step.result.Failed? {
      if SameLink(p.sync, r) && p.syncId != rId {
        ReadyInjective(p.syncId.value, rId.value);
      }
      assert file[0..0 + k] == file[0..k];
      assert step.state.sync.endpoint.value.wire == [] + [file[0..k]] == [file[0..k]];
    }
  }

  lemma FullSyncOk(p: Primary, completion: Completion, k: nat, file: ByteString, sessions: map<ByteString, Session>,
                   rId: Option<ByteString>, r: Sync)
    requires TransferPre(p, file, sessions, rId, r)
    ensures var step := PrimaryFullSync(p, completion, k);
            step.result.Failed? || (step.result.Wait? && TransferStepOk(p, step.state, file, sessions, rId, r))
  {
    hide LinkOk, SendChunk, PrimaryReceive;
    var s := p.sync;
    if s.disconnectPending || !s.established || s.endpoint.None? {
    } else if !s.sendPending && s.snapshotBytes > 0 && s.acknowledgedBytes == s.snapshotBytes && p.reader.Reader? {
      if p.reader.remaining > 0 {
        SendNextOk(p, k, file, sessions, rId, r);
      } else {
        DisconnectOk(p, file, sessions, rId, r);
      }
    } else if completion.SendCompletion? && PollSend(s.endpoint.value).Some? {
      PollSendOk(p, k, file, sessions, rId, r);
    } else if completion.RecvCompletion? && PollRecv(s.endpoint.value).Some? {
      if s.snapshotBytes > 0 {
        ReceiveAckOk(p, k, file, sessions, rId, r);
      } else {
        ReceiveReadyOk(p, k, file, sessions, rId, r);
      }
    }
  }

  // --------------------------------------------------------------- AOF over TCP

  lemma OffAt(base: Base, log: Log, stores: Stores, aof: ByteString)
    requires LogOk(base, log, stores, aof)
    ensures Off(base, log, |log|) == |aof| && IsBoundary(base, log, |aof|)
  {
    hide EncodeLog, ApplyAll;
    assert log[..|log|] == log;
    assert Off(base, log, |log|) == |aof|;
  }

  lemma OffMonotone(base: Base, log: Log, i: nat, j: nat)
    requires i <= j <= |log|
    ensures Off(base, log, i) <= Off(base, log, j)
  {
    hide EncodeLog;
    EncodeLogSplit(log[..j], i);
    assert log[..j][..i] == log[..i];
  }

  lemma BoundaryInside(base: Base, log: Log, stores: Stores, aof: ByteString, offset: nat)
    requires LogOk(base, log, stores, aof) && IsBoundary(base, log, offset)
    ensures offset <= |aof|
  {
    OffAt(base, log, stores, aof);
    hide Off, LogOk;
    var k :| 0 <= k <= |log| && Off(base, log, k) == offset;
    OffMonotone(base, log, k, |log|);
  }

  /** What may be written to TCP next: more of the AOF, or the one ONLINE line, and that only
      when everything logged so far has been sent. */
  predicate Emission(base: Base, log: Log, aof: ByteString, x: Session, announced: bool, bytes: ByteString) {
    if announced then x.online.None? && x.sent == |aof| == Off(base, log, |log|) && bytes == OnlineLine(x.sent)
    else x.sent + |bytes| <= |aof| && bytes == aof[x.sent..x.sent + |bytes|]
  }

  lemma JoinSlices(a: ByteString, i: nat, j: nat, k: nat)
    requires i <= j <= k <= |a|
    ensures a[i..j] + a[j..k] == a[i..k]
  {
  }

  /** The bytes of the session stay the AOF with one ONLINE line spliced in. */
  lemma EmissionStream(base: Base, log: Log, aof: ByteString, x: Session, announced: bool, bytes: ByteString)
    requires PositionsOk(base, log, aof, x) && x.emitted == Stream(base, log, aof, x)
    requires Emission(base, log, aof, x, announced, bytes)
    ensures var x' := Recorded(x, announced, |log|, bytes);
            PositionsOk(base, log, aof, x') && x'.emitted == Stream(base, log, aof, x')
  {
    hide Off, OnlineLine;
    var from := Off(base, log, x.start);
    if announced {
      assert aof[x.sent..x.sent] == [];
    } else {
      match x.online
      case None => JoinSlices(aof, from, x.sent, x.sent + |bytes|);
      case Some(n) => JoinSlices(aof, Off(base, log, n), x.sent, x.sent + |bytes|);
    }
  }

  /** What is in flight grows by exactly what the Replica is still waiting for. */
  lemma EmissionPending(base: Base, log: Log, aof: ByteString, x: Session, announced: bool, bytes: ByteString,
                        r: Replica, k: nat, inFlight: ByteString)
    requires PositionsOk(base, log, aof, x) && k <= |log| && StreamOk(base, log, aof, x, r, k, inFlight)
    requires Emission(base, log, aof, x, announced, bytes)
    requires Off(base, log, k) <= Off(base, log, |log|)
    ensures var x' := Recorded(x, announced, |log|, bytes);
            PositionsOk(base, log, aof, x') && StreamOk(base, log, aof, x', r, k, inFlight + bytes)
  {
    hide Off, OnlineLine;
    assert r.input + (inFlight + bytes) == (r.input + inFlight) + bytes;
    var from := Off(base, log, k);
    if announced {
      assert aof[x.sent..x.sent] == [];
    } else if !r.phase.Online? && x.online.Some? {
      JoinSlices(aof, Off(base, log, x.online.value), x.sent, x.sent + |bytes|);
    } else {
      JoinSlices(aof, from, x.sent, x.sent + |bytes|);
    }
  }

  /** The outcome of one AOF round of the stream callback. */
  predicate AofRoundOk(base: Base, log: Log, p: Primary, x: Session, step: PrimaryStep) {
    && step.state == p.(aofReader := step.state.aofReader, offset := step.state.offset, phase := step.state.phase)
    && (step.result.Wait? || step.result.Emit? ==> step.state.phase.CatchUp? || step.state.phase.Online?)
    && (step.result.Wait? ==> PrimaryAofOk(base, log, step.state, x) && step.state.phase == p.phase)
    && (step.result.Emit? ==>
          var announced := step.state.phase.Online? && !p.phase.Online?;
          && Emission(base, log, p.aof, x, announced, step.result.bytes)
          && PrimaryAofOk(base, log, step.state, Recorded(x, announced, |log|, step.result.bytes)))
    && !step.result.Idle?
  }

  lemma ReadAofOk(base: Base, log: Log, p: Primary, x: Session, k: nat)
    requires p.phase.CatchUp? || p.phase.Online?
    requires PrimaryAofOk(base, log, p, x) && p.aofReader.AofOpen?
    ensures AofRoundOk(base, log, p, x, ReadAof(p, k))
  {
    hide IsBoundary, OnlineLine, Off;
  }

  lemma AofRoundFrom(base: Base, log: Log, p: Primary, q: Primary, x: Session, step: PrimaryStep)
    requires q == p.(aofReader := q.aofReader)
    requires AofRoundOk(base, log, q, x, step)
    ensures AofRoundOk(base, log, p, x, step)
  {
    hide IsBoundary, OnlineLine, Off, PrimaryAofOk;
  }

  /** One AOF round of the stream callback. */
  lemma AofStepOk(base: Base, log: Log, p: Primary, x: Session, k: nat)
    requires LogOk(base, log, p.stores, p.aof) && PositionsOk(base, log, p.aof, x)
    requires p.phase.CatchUp? || p.phase.Online?
    requires PrimaryAofOk(base, log, p, x)
    ensures AofRoundOk(base, log, p, x, PrimaryAof(p, k))
  {
    hide Off, LogOk, OnlineFrame, IsBoundary, ReadAof;
    OffAt(base, log, p.stores, p.aof);
    if p.aofReader.AofOpen? && p.aofReader.remaining > 0 {
      ReadAofOk(base, log, p, x, k);
    } else if |p.aof| > x.sent {
      var q := p.(aofReader := AofOpen(x.sent, |p.aof| - x.sent));
      if p.aofReader.AofOpen? || p.phase.Online? {
        ReadAofOk(base, log, q, x, k);
        AofRoundFrom(base, log, p, q, x, ReadAof(q, k));
      }
    }
  }

  // ------------------------------------------------------- the callback in place

  /** A Primary that only moved on with its own transfer or its AOF reader. */
  predicate OtherwiseSame(s: System, s': System) {
    s' == s.(p := s'.p, toReplica := s'.toReplica, sessions := s'.sessions, accepted := s'.accepted)
    && s'.p.aof == s.p.aof && s'.p.stores == s.p.stores && s'.p.session == s.p.session && s'.p.syncId == s.p.syncId
  }

  /** The Replica's part when the Primary changed nothing that is in flight to it. */
  lemma ReplicaUnaffected(s: System, s': System)
    requires Inv(s) && OtherwiseSame(s, s')
    requires s'.accepted == s.accepted
    requires s.r.conn.Some? && s.r.conn.value in s'.toReplica
             && s'.toReplica[s.r.conn.value] == s.toReplica[s.r.conn.value]
    requires forall id :: id in s.sessions && s.sessions[id].conn == s.r.conn.value ==>
               id in s'.sessions && s'.sessions[id] == s.sessions[id]
    requires forall id ::
               id in s.sessions && s.p.syncId == Some(id) && s.sessions[id].conn == s.r.conn.value
               && s.p.phase.FullSync? && Unused(s.p.sync) ==>
                 s'.p.phase.FullSync? && Unused(s'.p.sync)
    ensures ReplicaOk(s')
  {
    hide SessionOk, LogOk, PrimaryOk, ReplicaSessionOk, Untouched, ResyncFrame, LinkOk, OrderOk, SessionsOk, NamesOk;
    var c := s.r.conn.value;
    assert c in s'.received ==> Outstanding(s', c) == Outstanding(s, c);
    if s.r.phase.Handshake? {
      if id :| id in s.sessions && Notified(s, c, id) {
        assert Notified(s', c, id);
      }
    } else {
      SessionConn(s, c);
      ReplicaSessionFrame(s, s', c);
    }
  }

  lemma SessionConn(s: System, c: nat)
    requires c in s.toReplica && ReplicaSessionOk(s, c)
    ensures s.r.syncId.Some? && s.r.syncId.value in s.sessions && s.sessions[s.r.syncId.value].conn == c
    ensures s.p.session == Some(c) ==> s.p.syncId == s.r.syncId
  {
  }

  lemma TransferPlaceOk(s: System, q: Primary)
    requires Inv(s) && s.p.phase.FullSync? && s.p.session.Some?
    requires TransferStepOk(s.p, q, s.sessions[s.p.syncId.value].file, s.sessions, s.r.syncId, s.r.sync)
    ensures Inv(s.(p := q))
  {
    hide SessionOk, LogOk, PrimarySyncOk, PrimaryReaderOk, ReplicaOk, Untouched, LinkOk;
    var s' := s.(p := q);
    assert SessionsOk(s');
    if s.r.conn.Some? {
      ReplicaHasConn(s);
      ReplicaUnaffected(s, s');
    } else {
      assert ReplicaOk(s') by { NoConnFrame(s, s'); }
    }
  }

  lemma ReplicaHasConn(s: System)
    requires ReplicaOk(s) && s.r.conn.Some?
    ensures s.r.conn.value in s.toReplica
  {
  }

  lemma NoConnFrame(s: System, s': System)
    requires ReplicaOk(s) && s'.r == s.r && s.r.conn.None?
    ensures ReplicaOk(s')
  {
  }

  lemma EstablishOk(s: System)
    requires Inv(s) && s.p.phase.FullSync? && s.p.session.Some? && s.p.sync.endpoint.Some?
    ensures TransferStepOk(s.p, s.p.(sync := s.p.sync.(established := true)), s.sessions[s.p.syncId.value].file,
                           s.sessions, s.r.syncId, s.r.sync)
  {
    hide SessionOk, LogOk, ReplicaOk, Untouched, AckLine, ReadyLine, OrderOk, NamesOk;
  }

  /** A connection request is taken off the event queue; the first one gives the endpoint. */
  function Accepted(s: System, link: nat): System {
    s.(accepted := s.accepted + {link},
       p := if s.p.sync.endpoint.None? then
         s.p.(sync := s.p.sync.(endpoint := Some(NewEndpoint(link).(recvPending := true)))) else s.p)
  }

  lemma AcceptOk(s: System, link: nat)
    requires Inv(s) && s.p.phase.FullSync? && s.p.session.Some? && PrimaryEventOk(s, Accepting(link))
    ensures Inv(Accepted(s, link))
  {
    hide SessionOk, LogOk, ReplicaOk, Untouched, LinkOk;
    var s' := Accepted(s, link);
    assert SessionsOk(s');
    AcceptReplicaOk(s, link);
    AcceptLinkOk(s, link);
  }

  lemma AcceptLinkOk(s: System, link: nat)
    requires Inv(s) && s.p.phase.FullSync? && s.p.session.Some? && PrimaryEventOk(s, Accepting(link))
    ensures var s' := Accepted(s, link); LinkOk(s'.sessions, s'.p.syncId, s'.p.sync, s'.r.syncId, s'.r.sync)
  {
    hide SessionOk, LogOk, PositionsOk, ReplicaFullSyncOk, ReplicaCaughtUpOk, Untouched, AckLine, ReadyLine, NextPart;
  }

  lemma AcceptReplicaOk(s: System, link: nat)
    requires Inv(s) && s.p.phase.FullSync? && s.p.session.Some? && PrimaryEventOk(s, Accepting(link))
    ensures ReplicaOk(Accepted(s, link))
  {
    hide SessionOk, LogOk, PositionsOk, ReplicaFullSyncOk, ReplicaCaughtUpOk, Untouched, LinkOk, ResyncFrame,
         PrimaryReaderOk, NextPart;
    var s' := Accepted(s, link);
    if s.r.conn.Some? {
      var c := s.r.conn.value;
      assert c in s'.received ==> Outstanding(s', c) == Outstanding(s, c);
      if s.r.phase.Handshake? {
        if id :| id in s.sessions && Notified(s, c, id) {
          assert Notified(s', c, id);
        }
      }
    }
  }

  /** The rest of a callback round during the full synchronisation. */
  lemma TransferRoundOk(s: System, completion: Completion, k: nat)
    requires Inv(s) && s.p.phase.FullSync? && s.p.session.Some?
    ensures var step := PrimaryFullSync(s.p, completion, k);
            if step.result.Failed? then Inv(ClosePrimary(s, step.state, s.p.session.value))
            else step.result.Wait? && Inv(s.(p := step.state))
  {
    hide LogOk, PrimarySyncOk, PrimaryReaderOk, LinkOk, PositionsOk, ReplicaOk, SessionsOk, PrimaryFullSync, PrimaryOk,
         TransferPre, TransferStepOk;
    var step := PrimaryFullSync(s.p, completion, k);
    TransferReady(s);
    FullSyncOk(s.p, completion, k, s.sessions[s.p.syncId.value].file, s.sessions, s.r.syncId, s.r.sync);
    if step.result.Failed? {
      FullSyncKeeps(s.p, completion, k);
      PrimaryCloseOk(s, step.state, s.p.session.value);
    } else {
      TransferPlaceOk(s, step.state);
    }
  }

  lemma TransferReady(s: System)
    requires Inv(s) && s.p.phase.FullSync? && s.p.session.Some?
    ensures s.p.syncId.Some? && s.p.syncId.value in s.sessions && s.p.session.value in s.received
    ensures TransferPre(s.p, s.sessions[s.p.syncId.value].file, s.sessions, s.r.syncId, s.r.sync)
  {
    hide LogOk, PrimarySyncOk, PrimaryReaderOk, LinkOk, PositionsOk, ReplicaOk, Untouched, StoresAt, Load, Stream, IsId;
    if s.r.syncId.Some? { ReplicaIdKnown(s); }
  }

  lemma ReplicaIdKnown(s: System)
    requires ReplicaOk(s) && s.r.syncId.Some?
    ensures s.r.syncId.value in s.sessions
  {
  }

  /** Whatever a round does, the manager stays on its session. */
  lemma FullSyncKeeps(p: Primary, completion: Completion, k: nat)
    ensures var q := PrimaryFullSync(p, completion, k).state;
            q.session == p.session && q.stores == p.stores && q.aof == p.aof
  {
  }

  /** The system after the Primary wrote `bytes`. */
  function Emitted(s: System, q: Primary, announced: bool, bytes: ByteString): System
    requires s.p.session.Some? && s.p.syncId.Some? && s.p.syncId.value in s.sessions
  {
    var id := s.p.syncId.value;
    s.(p := q, toReplica := Push(s.toReplica, s.p.session.value, bytes),
       sessions := s.sessions[id := Recorded(s.sessions[id], announced, |s.log|, bytes)])
  }

  lemma RecordedSession(base: Base, log: Log, stores: Stores, aof: ByteString, nextConn: nat, id: ByteString,
                        x: Session, announced: bool, bytes: ByteString)
    requires LogOk(base, log, stores, aof)
    requires SessionOk(base, log, aof, nextConn, id, x) && Emission(base, log, aof, x, announced, bytes)
    ensures SessionOk(base, log, aof, nextConn, id, Recorded(x, announced, |log|, bytes))
  {
    EmissionStream(base, log, aof, x, announced, bytes);
    hide Off, LogOk, Stream, PositionsOk, Emission, StoresAt, Load;
  }

  lemma EmitReplicaOk(s: System, q: Primary, announced: bool, bytes: ByteString)
    requires Inv(s) && s.p.session.Some? && (s.p.phase.CatchUp? || s.p.phase.Online?)
    requires q == s.p.(aofReader := q.aofReader, offset := q.offset, phase := q.phase)
    requires Emission(s.base, s.log, s.p.aof, s.sessions[s.p.syncId.value], announced, bytes)
    requires s.r.conn == s.p.session
    ensures ReplicaOk(Emitted(s, q, announced, bytes))
  {
    hide LogOk, PrimaryAofOk, Untouched, ReplicaSyncOk, ReplicaCaughtUpOk, Emission, LinkOk, ResyncFrame, PrimarySyncOk,
         PrimaryReaderOk, PositionsOk, Stream, StoresAt, Load, Push, NamesOk;
    var s' := Emitted(s, q, announced, bytes);
    var c := s.r.conn.value;
    var x := s.sessions[s.p.syncId.value];
    assert c in s'.received ==> Outstanding(s', c) == Outstanding(s, c);
    if !s.r.phase.Handshake? {
      PushThere(s.toReplica, c, bytes);
      EmitCaughtUp(s.base, s.log, s.p.stores, s.p.aof, x, announced, bytes, s.r, s.applied, s.toReplica[c]);
    }
  }

  lemma PushThere(m: map<nat, ByteString>, c: nat, bytes: ByteString)
    requires c in m
    ensures c in Push(m, c, bytes) && Push(m, c, bytes)[c] == m[c] + bytes
  {
  }

  lemma EmitCaughtUp(base: Base, log: Log, stores: Stores, aof: ByteString, x: Session, announced: bool,
                     bytes: ByteString, r: Replica, k: nat, inFlight: ByteString)
    requires LogOk(base, log, stores, aof) && PositionsOk(base, log, aof, x) && x.emitted == Stream(base, log, aof, x)
    requires Emission(base, log, aof, x, announced, bytes)
    requires ReplicaCaughtUpOk(base, log, aof, r, x, k, inFlight)
    ensures var x' := Recorded(x, announced, |log|, bytes);
            PositionsOk(base, log, aof, x') && ReplicaCaughtUpOk(base, log, aof, r, x', k, inFlight + bytes)
  {
    hide Off, StreamOk, Emission, LogOk, PositionsOk, Stream;
    OffMonotone(base, log, k, |log|);
    EmissionStream(base, log, aof, x, announced, bytes);
    EmissionPending(base, log, aof, x, announced, bytes, r, k, inFlight);
    hide StoresAt;
  }

  lemma EmitOk(s: System, q: Primary, announced: bool, bytes: ByteString)
    requires Inv(s) && s.p.session.Some? && (s.p.phase.CatchUp? || s.p.phase.Online?)
    requires q == s.p.(aofReader := q.aofReader, offset := q.offset, phase := q.phase)
             && (q.phase.CatchUp? || q.phase.Online?)
    requires Emission(s.base, s.log, s.p.aof, s.sessions[s.p.syncId.value], announced, bytes)
    requires PrimaryAofOk(s.base, s.log, q, Recorded(s.sessions[s.p.syncId.value], announced, |s.log|, bytes))
    ensures Inv(Emitted(s, q, announced, bytes))
  {
    hide LogOk, PrimaryAofOk, ReplicaOk, Emission, LinkOk, SessionOk, PrimarySyncOk, PrimaryReaderOk, Untouched;
    var s' := Emitted(s, q, announced, bytes);
    var id := s.p.syncId.value;
    RecordedSession(s.base, s.log, s.p.stores, s.p.aof, s.nextConn, id, s.sessions[id], announced, bytes);
    assert SessionsOk(s');
    assert PrimaryAofOk(s.base, s.log, s.p, s.sessions[id]);
    NoLinkOutsideFullSync(s);
    NoReplicaLink(s'.sessions, s'.p.syncId, s'.p.sync, s'.r.syncId, s'.r.sync);
    if s.r.conn == s.p.session {
      EmitReplicaOk(s, q, announced, bytes);
    } else if s.r.conn.Some? {
      ReplicaHasConn(s);
      ReplicaUnaffected(s, s');
    } else {
      NoConnFrame(s, s');
    }
  }

  lemma NoLinkOutsideFullSync(s: System)
    requires Inv(s) && (s.p.phase.CatchUp? || s.p.phase.Online?)
    ensures s.p.sync == NO_SYNC
  {
  }

  /** One callback round that works on the AOF. */
  lemma AofRoundPlaceOk(s: System, k: nat)
    requires Inv(s) && s.p.session.Some? && (s.p.phase.CatchUp? || s.p.phase.Online?)
    ensures var step := PrimaryAof(s.p, k);
            match step.result
            case Failed => Inv(ClosePrimary(s, step.state, s.p.session.value))
            case Wait => Inv(s.(p := step.state))
            case Emit(bytes) => s.p.syncId.Some? && s.p.syncId.value in s.sessions
            && Inv(Emitted(s, step.state, step.state.phase.Online? && !s.p.phase.Online?, bytes))
            case Idle => false
  {
    hide LogOk, PrimaryAofOk, ReplicaOk, LinkOk, PrimarySyncOk, PrimaryReaderOk, Untouched, PrimaryAof, PositionsOk,
         StoresAt, Load, Stream, Emission;
    var step := PrimaryAof(s.p, k);
    var x := s.sessions[s.p.syncId.value];
    AofStepOk(s.base, s.log, s.p, x, k);
    match step.result
    case Failed =>
      PrimaryCloseOk(s, step.state, s.p.session.value);
    case Wait =>
      var s' := s.(p := step.state);
      assert SessionsOk(s');
      NoLinkOutsideFullSync(s);
      NoReplicaLink(s'.sessions, s'.p.syncId, s'.p.sync, s'.r.syncId, s'.r.sync);
      if s.r.conn.Some? {
        ReplicaHasConn(s);
        ReplicaUnaffected(s, s');
      } else {
        NoConnFrame(s, s');
      }
    case Emit(bytes) =>
      EmitOk(s, step.state, step.state.phase.Online? && !s.p.phase.Online?, bytes);
    case Idle =>
  }

  /** The Primary leaves the full synchronisation only when the Replica has left it. */
  lemma ReplicaIsFurther(s: System)
    requires Inv(s) && s.p.phase.FullSync? && s.p.session.Some? && s.p.sync.endpoint.Some? && PrimaryTransferDone(s.p)
    ensures s.p.syncId == s.r.syncId ==> s.r.phase.CatchUp? || s.r.phase.Online?
  {
    hide LogOk, Untouched, PositionsOk, StoresAt, Load, Stream, AckLine, ReadyLine, ReplicaCaughtUpOk, NextPart,
         Outstanding;
  }

  lemma StartCatchUpOk(s: System)
    requires Inv(s) && s.p.phase.FullSync? && s.p.session.Some? && s.p.sync.endpoint.Some? && PrimaryTransferDone(s.p)
    ensures var p := StartCatchUp(s.p.(sync := NO_SYNC));
            p.Some? && p.value.phase.CatchUp? && p.value.session == s.p.session && Inv(s.(p := p.value))
  {
    hide ReplicaOk, LinkOk, IsBoundary, Off, LogOk, SessionOk, PositionsOk, PrimaryReaderOk;
    ReplicaIsFurther(s);
    CatchUpReader(s);
    var q := s.p.(reader := ReaderClosed, aofReader := AofOpen(s.p.offset, |s.p.aof| - s.p.offset), phase := CatchUp,
                  sync := NO_SYNC);
    var s' := s.(p := q);
    assert SessionsOk(s');
    NoReplicaLink(s'.sessions, s'.p.syncId, s'.p.sync, s'.r.syncId, s'.r.sync);
    if s.r.conn.Some? {
      ReplicaHasConn(s);
      ReplicaUnaffected(s, s');
    } else {
      NoConnFrame(s, s');
    }
  }

  lemma CatchUpReader(s: System)
    requires Inv(s) && s.p.phase.FullSync? && s.p.session.Some?
    ensures s.p.syncId.value in s.sessions
    ensures s.p.offset == s.sessions[s.p.syncId.value].sent <= |s.p.aof| && IsBoundary(s.base, s.log, |s.p.aof|)
    ensures |s.sessions[s.p.syncId.value].file| > 0
  {
    hide LogOk, PrimarySyncOk, PrimaryReaderOk, LinkOk, ReplicaOk, StoresAt, Load, Stream, Off, IsBoundary;
    OffAt(s.base, s.log, s.p.stores, s.p.aof);
  }

  lemma PrimaryPollOk(s: System, event: CmEvent, completion: Completion, k: nat)
    requires Inv(s)
    ensures Inv(DoPrimaryPoll(s, event, completion, k))
  {
    hide LogOk, ReplicaOk, LinkOk, SessionsOk, PrimaryAofOk, PrimaryReaderOk, Untouched, PrimaryAof, PrimaryFullSync,
         OrderOk;
    if s.p.session.None? || s.p.syncId.None? || !PrimaryEventOk(s, event) {
    } else if !s.p.phase.FullSync? {
      AofRoundPlaceOk(s, k);
    } else {
      match event
      case CmFailure => PrimaryCloseOk(s, s.p, s.p.session.value);
      case RouteResolved => PrimaryCloseOk(s, s.p, s.p.session.value);
      case Disconnected =>
        if s.p.sync.endpoint.None? || !PrimaryTransferDone(s.p) {
          PrimaryCloseOk(s, s.p, s.p.session.value);
        } else {
          StartCatchUpOk(s);
          AofRoundPlaceOk(s.(p := StartCatchUp(s.p.(sync := NO_SYNC)).value), k);
        }
      case Established =>
        if s.p.sync.endpoint.None? {
          PrimaryCloseOk(s, s.p, s.p.session.value);
        } else {
          EstablishOk(s);
          TransferPlaceOk(s, s.p.(sync := s.p.sync.(established := true)));
          TransferRoundOk(s.(p := s.p.(sync := s.p.sync.(established := true))), completion, k);
        }
      case Accepting(link) =>
        AcceptOk(s, link);
        TransferRoundOk(Accepted(s, link), completion, k);
      case NoEvent =>
        TransferRoundOk(s, completion, k);
    }
  }
}
