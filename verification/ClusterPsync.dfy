/** The Primary's line handler keeps the invariant: one batch of control lines starts at most
    one full synchronisation, and never disturbs a running one. */
module ClusterPsync {
  import opened Bytes
  import opened Codec
  import opened Store
  import opened Aof
  import opened Snapshot
  import opened Rdma
  import opened ControlLines
  import opened Replication
  import opened Cluster
  import opened ClusterInvariant
  import opened ClusterNetwork
  import opened ClusterPrimary
  import opened ClusterHandshake

  /** The manager right after an accepted PSYNC. */
  function Started(p: Primary, c: nat, psync: PsyncInput): Primary {
    p.(reader := Reader(psync.file, 0, |psync.file|), aofReader := AofClosed, syncId := Some(psync.syncId),
       offset := |p.aof|, size := |psync.file|, session := Some(c), phase := FullSync)
  }

  /** Whatever the lines are: an active session is left alone, a free Primary is at most moved
      into one full synchronisation of this very connection, in failing batches too. */
  lemma {:induction false} BatchStartsOnce(p: Primary, c: nat, input: ByteString, capacity: nat, psync: PsyncInput)
    ensures var q := PrimaryBatch(p, c, input, capacity, psync).state;
            q == p || (p.session.None? && p.sync.endpoint.None? && q == Started(p, c, psync))
    decreases |input|
  {
    hide FirstLine, PrimaryFrame;
    match FirstLine(input)
    case NoLine =>
    case Line(frame, size) =>
      FrameStartsOnce(p, c, frame, capacity, psync);
      match PrimaryFrame(p, c, frame, capacity, psync)
      case FrameFailed(_) =>
      case FrameStep(p', response) =>
        BatchStartsOnce(p', c, input[size..], if |response| <= capacity then capacity - |response| else 0, psync);
  }

  lemma FrameStartsOnce(p: Primary, c: nat, frame: ByteString, capacity: nat, psync: PsyncInput)
    ensures var q := PrimaryFrame(p, c, frame, capacity, psync).state;
            q == p || (p.session.None? && p.sync.endpoint.None? && q == Started(p, c, psync))
  {
    hide ResyncFrame;
  }

  /** A batch of a Primary that already serves somebody changes nothing. */
  lemma ActiveSessionUndisturbed(p: Primary, c: nat, input: ByteString, capacity: nat, psync: PsyncInput)
    requires p.session.Some?
    ensures PrimaryBatch(p, c, input, capacity, psync).state == p
  {
    BatchStartsOnce(p, c, input, capacity, psync);
  }

  // -------------------------------------------------- the lines of the handshake

  lemma PingBatch(p: Primary, c: nat, capacity: nat, psync: PsyncInput)
    ensures PrimaryBatch(p, c, PING + CRLF, capacity, psync)
            == if |PONG + CRLF| >= capacity then BatchFailed(p) else Batch(p, PONG + CRLF, [])
  {
    hide PING, PSYNC, PONG, FirstLine;
    HandshakeLines();
    LineInput(PING + CRLF, [], PING);
    assert PING + CRLF + [] == PING + CRLF;
    if |PONG + CRLF| < capacity {
      EmptyBatch(p, c, capacity - |PONG + CRLF|, psync);
    }
    assert (PING + CRLF)[|PING + CRLF|..] == [];
    assert (PONG + CRLF) + [] == PONG + CRLF;
  }

  lemma EmptyBatch(p: Primary, c: nat, capacity: nat, psync: PsyncInput)
    ensures PrimaryBatch(p, c, [], capacity, psync) == Batch(p, [], [])
  {
  }

  /** The notification of a new session. */
  function Notification(p: Primary, psync: PsyncInput): ByteString {
    ResyncFrame(Resync(psync.replicationId, |p.aof|, |psync.file|, psync.port, psync.syncId)) + CRLF
  }

  lemma PsyncBatch(p: Primary, c: nat, capacity: nat, psync: PsyncInput)
    ensures PrimaryBatch(p, c, PSYNC + CRLF, capacity, psync)
            == if capacity == 0 || p.session.Some? || p.sync.endpoint.Some? || |psync.file| == 0 then BatchFailed(p)
               else if |Notification(p, psync)| >= capacity then BatchFailed(Started(p, c, psync))
               else Batch(Started(p, c, psync), Notification(p, psync), [])
  {
    hide PING, PSYNC, PONG, FirstLine, ResyncFrame;
    HandshakeLines();
    LineInput(PSYNC + CRLF, [], PSYNC);
    assert PSYNC + CRLF + [] == PSYNC + CRLF;
    var line := Notification(p, psync);
    if |line| < capacity {
      EmptyBatch(Started(p, c, psync), c, capacity - |line|, psync);
    }
    assert (PSYNC + CRLF)[|PSYNC + CRLF|..] == [];
    assert line + [] == line;
    assert |PING| != |PSYNC|;
  }

  /** A line that is still incomplete is left in the buffer. */
  lemma CutBatch(p: Primary, c: nat, capacity: nat, psync: PsyncInput, frame: ByteString, input: ByteString,
                 rest: ByteString)
    requires NoLf(frame) && input + rest == frame + CRLF && |input| < |frame + CRLF|
    ensures PrimaryBatch(p, c, input, capacity, psync) == Batch(p, [], input)
  {
    hide FirstLine;
    LineInput(input, rest, frame);
  }

  // ------------------------------------------------------------- a new session

  lemma SnapshotLoads(s: System, psync: PsyncInput)
    requires LogOk(s.base, s.log, s.p.stores, s.p.aof) && PsyncInputOk(s, psync)
    ensures Load(psync.file) == Loaded(s.p.stores, Some(|s.p.aof|)) && |psync.file| > 0
  {
    hide Load, Enumerates, Savable, EncodeLog;
    ArrayBounded(s.base.stores, s.log);
    var rs :| Enumerates(rs, s.p.stores) && Savable(rs, Some(|s.p.aof|))
        && psync.file == FileBytes(rs, Some(|s.p.aof|));
    SaveLoad(rs, s.p.stores, Some(|s.p.aof|));
    FileNotEmpty(rs, Some(|s.p.aof|));
  }

  lemma FileNotEmpty(rs: seq<Record>, checkpoint: Option<nat>)
    requires Savable(rs, checkpoint)
    ensures |FileBytes(rs, checkpoint)| > 0
  {
  }

  lemma NewSessionOk(s: System, c: nat, psync: PsyncInput)
    requires Inv(s) && c in s.received && PsyncInputOk(s, psync)
    ensures var x := NewSession(s, c, psync);
            SessionOk(s.base, s.log, s.p.aof, s.nextConn, psync.syncId, x) && Untouched(s.base, s.log, x)
  {
    hide EncodeLog, ApplyAll, Load, PrimaryOk, ReplicaOk, LinkOk, SessionsOk, IsSnapshotOf;
    SnapshotLoads(s, psync);
    OffAt(s.base, s.log, s.p.stores, s.p.aof);
    assert s.log[..|s.log|] == s.log;
    assert s.p.aof[|s.p.aof|..|s.p.aof|] == [];
  }

  /** The history of the new session is added before the batch takes effect. */
  lemma AddSessionOk(s: System, c: nat, psync: PsyncInput)
    requires Inv(s) && c in s.received && PsyncInputOk(s, psync) && s.p.session.None?
    ensures Inv(s.(sessions := s.sessions[psync.syncId := NewSession(s, c, psync)]))
  {
    hide SessionOk, LogOk, PrimarySyncOk, PrimaryReaderOk, PrimaryAofOk, ReplicaSessionOk, Untouched, ResyncFrame,
         IsSnapshotOf, Matched, Mismatched;
    NewSessionOk(s, c, psync);
    var s' := s.(sessions := s.sessions[psync.syncId := NewSession(s, c, psync)]);
    assert SessionsOk(s');
    if s.r.conn.Some? {
      var d := s.r.conn.value;
      assert d in s'.received ==> Outstanding(s', d) == Outstanding(s, d);
      if s.r.phase.Handshake? {
        if id :| id in s.sessions && Notified(s, d, id) {
          assert Notified(s', d, id);
        }
      } else {
        SessionHasId(s, d);
        ReplicaSessionFrame(s, s', d);
      }
    }
  }

  // ----------------------------------------------------------- the batch in place

  function Answered(s: System, c: nat, q: Primary, response: ByteString, rest: ByteString): System
    requires c in s.received
  {
    s.(p := q, received := s.received[c := rest], toReplica := Push(s.toReplica, c, response))
  }

  /** A batch on a connection that is not the Replica's current one. */
  lemma StaleBatchOk(s: System, c: nat, response: ByteString, rest: ByteString)
    requires Inv(s) && c in s.received && s.r.conn != Some(c)
    ensures Inv(Answered(s, c, s.p, response, rest))
  {
    hide SessionOk, LogOk, PrimarySyncOk, PrimaryReaderOk, PrimaryAofOk, ReplicaSessionOk, Untouched, ResyncFrame,
         LinkOk;
    var s' := Answered(s, c, s.p, response, rest);
    assert SessionsOk(s');
    assert s'.received.Keys == s.received.Keys;
    if s.r.conn.Some? {
      var d := s.r.conn.value;
      assert d in s'.received ==> Outstanding(s', d) == Outstanding(s, d);
      if s.r.phase.Handshake? {
        if id :| id in s.sessions && Notified(s, d, id) {
          assert Notified(s', d, id);
        }
      } else {
        SessionHasId(s, d);
        ReplicaSessionFrame(s, s', d);
      }
    }
  }

  /** A PING answered, or an incomplete line kept, on the Replica's connection. */
  lemma PingHandledOk(s: System, c: nat)
    requires Inv(s) && c in s.received && s.r.conn == Some(c) && s.r.phase.Handshake?
    requires s.received[c] == PING + CRLF && Outstanding(s, c) == PING + CRLF && c in s.toReplica
    requires s.r.input + s.toReplica[c] == [] && s.p.session != Some(c)
    ensures Inv(Answered(s, c, s.p, PONG + CRLF, []))
  {
    hide SessionOk, LogOk, PrimaryOk, LinkOk, Untouched, ResyncFrame, PING, PONG, PSYNC, Notified;
    var s' := Answered(s, c, s.p, PONG + CRLF, []);
    assert s'.received.Keys == s.received.Keys;
    assert SessionsOk(s');
    assert Outstanding(s', c) == [] by { assert |s.toPrimary[c]| == 0; }
    assert s'.r.input + s'.toReplica[c] == PONG + CRLF;
  }

  lemma NothingHandled(s: System, c: nat)
    requires c in s.received
    ensures Answered(s, c, s.p, [], s.received[c]) == s
  {
    PushNothing(s.toReplica, c);
    assert s.received[c := s.received[c]] == s.received;
  }

  /** An accepted PSYNC, wherever it came from. */
  lemma StartedOk(s: System, c: nat, psync: PsyncInput, response: ByteString, rest: ByteString)
    requires Inv(s) && c in s.received && PsyncInputOk(s, psync) && s.p.session.None?
    requires s.r.conn == Some(c) ==>
               && s.r.phase.Handshake? && c in s.toReplica && s.r.input + s.toReplica[c] == []
               && s.received[c] == PSYNC + CRLF == Outstanding(s, c)
               && rest == []
               && response == ResyncFrame(Resync(psync.replicationId, |s.p.aof|, |psync.file|, psync.port,
                                                 psync.syncId)) + CRLF
    ensures Inv(Answered(s.(sessions := s.sessions[psync.syncId := NewSession(s, c, psync)]), c, Started(s.p, c, psync),
                         response, rest))
  {
    hide SessionOk, LogOk, PrimaryAofOk, LinkOk, ReplicaOk, Untouched, ResyncFrame, PING, PONG, PSYNC, IsSnapshotOf,
         ReplicaSessionOk, IsId, Stream, Load, PositionsOk;
    AddSessionOk(s, c, psync);
    NewSessionOk(s, c, psync);
    SnapshotLoads(s, psync);
    StartedReplicaOk(s, c, psync, response, rest);
    var s1 := s.(sessions := s.sessions[psync.syncId := NewSession(s, c, psync)]);
    var s' := Answered(s1, c, Started(s.p, c, psync), response, rest);
    assert SessionsOk(s');
    assert s'.received.Keys == s.received.Keys;
    NoReplicaLink(s'.sessions, s'.p.syncId, s'.p.sync, s'.r.syncId, s'.r.sync);
  }

  lemma StartedReplicaOk(s: System, c: nat, psync: PsyncInput, response: ByteString, rest: ByteString)
    requires Inv(s) && c in s.received && PsyncInputOk(s, psync) && s.p.session.None?
    requires Inv(s.(sessions := s.sessions[psync.syncId := NewSession(s, c, psync)]))
    requires Untouched(s.base, s.log, NewSession(s, c, psync))
    requires s.r.conn == Some(c) ==>
               && s.r.phase.Handshake? && c in s.toReplica && s.r.input + s.toReplica[c] == []
               && s.received[c] == PSYNC + CRLF == Outstanding(s, c)
               && rest == []
               && response == ResyncFrame(Resync(psync.replicationId, |s.p.aof|, |psync.file|, psync.port,
                                                 psync.syncId)) + CRLF
    ensures ReplicaOk(Answered(s.(sessions := s.sessions[psync.syncId := NewSession(s, c, psync)]), c,
                               Started(s.p, c, psync), response, rest))
  {
    hide SessionOk, LogOk, PrimarySyncOk, PrimaryReaderOk, PrimaryAofOk, LinkOk, Untouched, ResyncFrame, PING, PONG,
         PSYNC, IsSnapshotOf, ReplicaSessionOk, IsId;
    var s1 := s.(sessions := s.sessions[psync.syncId := NewSession(s, c, psync)]);
    var s' := Answered(s1, c, Started(s.p, c, psync), response, rest);
    if s.r.conn == Some(c) {
      assert s'.r.input == [] && s'.toReplica[c] == response;
      assert Outstanding(s', c) == [] by { assert |s.toPrimary[c]| == 0; }
      assert Notified(s', c, psync.syncId);
    } else if s.r.conn.Some? {
      var d := s.r.conn.value;
      assert d in s'.received ==> Outstanding(s', d) == Outstanding(s1, d);
      if s.r.phase.Handshake? {
        if id :| id in s1.sessions && Notified(s1, d, id) {
          assert Notified(s', d, id);
        }
      } else {
        SessionHasId(s1, d);
        ReplicaSessionFrame(s1, s', d);
      }
    }
  }

  /** What is in the Primary's buffer of the Replica's own connection. */
  lemma OwnConnection(s: System, c: nat)
    requires Inv(s) && c in s.received && s.received[c] != [] && s.r.conn == Some(c)
    ensures s.r.phase.Handshake? && c in s.toReplica && s.p.session != Some(c) && s.r.input + s.toReplica[c] == []
    ensures Outstanding(s, c) == PING + CRLF || Outstanding(s, c) == PSYNC + CRLF
    ensures c in s.toPrimary && Outstanding(s, c) == s.received[c] + s.toPrimary[c]
  {
    hide SessionsOk, LogOk, PrimaryOk, LinkOk, Untouched, ResyncFrame, PING, PONG, PSYNC, ReplicaCaughtUpOk,
         ReplicaFullSyncOk, Notified;
    assert |Outstanding(s, c)| > 0;
  }

  lemma OwnPsyncOk(s: System, c: nat, capacity: nat, psync: PsyncInput)
    requires Inv(s) && c in s.received && s.received[c] == PSYNC + CRLF == Outstanding(s, c) && s.r.conn == Some(c)
    requires s.r.phase.Handshake? && c in s.toReplica && s.r.input + s.toReplica[c] == []
    ensures Inv(DoPrimaryHandle(s, c, capacity, psync))
  {
    hide Inv, PING, PONG, PSYNC, PsyncInputOk, ResyncFrame, PrimaryBatch;
    PsyncBatch(s.p, c, capacity, psync);
    HandshakeLines();
    var batch := PrimaryBatch(s.p, c, s.received[c], capacity, psync);
    if batch.state == s.p {
      PrimaryCloseOk(s, s.p, c);
    } else if PsyncInputOk(s, psync) {
      if batch.BatchFailed? {
        AddSessionOk(s, c, psync);
        PrimaryCloseOk(s.(sessions := s.sessions[psync.syncId := NewSession(s, c, psync)]), batch.state, c);
      } else {
        StartedOk(s, c, psync, Notification(s.p, psync), []);
      }
    }
  }

  lemma OwnBatchOk(s: System, c: nat, capacity: nat, psync: PsyncInput)
    requires Inv(s) && c in s.received && s.received[c] != [] && s.r.conn == Some(c)
    ensures Inv(DoPrimaryHandle(s, c, capacity, psync))
  {
    hide Inv, PING, PONG, PSYNC, PsyncInputOk, ResyncFrame, PrimaryBatch;
    OwnConnection(s, c);
    HandshakeLines();
    var frame := if Outstanding(s, c) == PING + CRLF then PING else PSYNC;
    if |s.received[c]| < |frame + CRLF| {
      CutBatch(s.p, c, capacity, psync, frame, s.received[c], s.toPrimary[c]);
      NothingHandled(s, c);
    } else {
      assert s.received[c] == frame + CRLF by { assert |s.toPrimary[c]| == 0; }
      if frame == PING {
        PingBatch(s.p, c, capacity, psync);
        if |PONG + CRLF| >= capacity {
          PrimaryCloseOk(s, s.p, c);
        } else {
          PingHandledOk(s, c);
        }
      } else {
        OwnPsyncOk(s, c, capacity, psync);
      }
    }
  }

  lemma PrimaryHandleOk(s: System, c: nat, capacity: nat, psync: PsyncInput)
    requires Inv(s)
    ensures Inv(DoPrimaryHandle(s, c, capacity, psync))
  {
    hide Inv, PsyncInputOk, PrimaryBatch, PrimaryDisconnected;
    if c !in s.received || s.received[c] == [] {
    } else if s.r.conn == Some(c) {
      OwnBatchOk(s, c, capacity, psync);
    } else {
      var batch := PrimaryBatch(s.p, c, s.received[c], capacity, psync);
      BatchStartsOnce(s.p, c, s.received[c], capacity, psync);
      if batch.state == s.p {
        match batch
        case BatchFailed(p') => PrimaryCloseOk(s, p', c);
        case Batch(p', response, rest) => StaleBatchOk(s, c, response, rest);
      } else if PsyncInputOk(s, psync) {
        match batch
        case BatchFailed(p') =>
          AddSessionOk(s, c, psync);
          PrimaryCloseOk(s.(sessions := s.sessions[psync.syncId := NewSession(s, c, psync)]), p', c);
        case Batch(p', response, rest) =>
          StartedOk(s, c, psync, response, rest);
      }
    }
  }
}
