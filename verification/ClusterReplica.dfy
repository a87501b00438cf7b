/** The Replica's stream callback keeps the invariant. */
module ClusterReplica {
  import opened Bytes
  import opened Codec
  import opened Store
  import opened Aof
  import opened Snapshot
  import opened Rdma
  import opened ControlLines
  import opened Replication
  import opened Cluster
  import opened ClusterInvariant
  import opened ClusterNetwork

  /** A Replica that changed nothing but its side of the RDMA connection. */
  predicate SyncStepOk(s: System, q: Replica)
    requires s.r.syncId.Some? && s.r.syncId.value in s.sessions
  {
    && q == s.r.(sync := q.sync)
    && ReplicaSyncOk(q.sync, s.sessions[s.r.syncId.value].file, s.nextLink, s.accepted)
    && LinkOk(s.sessions, s.p.syncId, s.p.sync, s.r.syncId, q.sync)
    && (s.r.phase.FullSync? ==> q.sync.endpoint.Some?)
    && (q.sync.endpoint.Some? ==>
          && s.r.sync.endpoint.Some? && q.sync.snapshotBytes == s.r.sync.snapshotBytes
          && (s.r.sync.established ==> q.sync.established)
          && (s.r.sync.endpoint.value.inbox.None? ==> q.sync.endpoint.value.inbox.None?))
  }

  lemma KnownSession(s: System)
    requires ReplicaOk(s) && s.r.syncId.Some?
    ensures s.r.conn.Some? && s.r.conn.value in s.toReplica && ReplicaSessionOk(s, s.r.conn.value)
    ensures s.r.syncId.value in s.sessions && s.r.conn.value == s.sessions[s.r.syncId.value].conn
    ensures s.r.phase.FullSync? || s.r.phase.CatchUp? || s.r.phase.Online?
  {
  }

  lemma SyncPlaceOk(s: System, q: Replica)
    requires Inv(s) && s.r.syncId.Some? && s.r.syncId.value in s.sessions && SyncStepOk(s, q)
    ensures Inv(s.(r := q))
  {
    hide SessionOk, LogOk, PrimaryOk, LinkOk, CopyOk, StreamOk, Untouched, PositionsOk, ReplicaSyncOk;
    KnownSession(s);
    var s' := s.(r := q);
    var c := s.r.conn.value;
    assert SessionsOk(s');
    assert c in s'.received ==> Outstanding(s', c) == Outstanding(s, c);
    if !s.r.phase.FullSync? {
      CopyFrame(s.base, s.log, s.p.aof, s.sessions[s.r.syncId.value], s.r, q, s.applied, s.toReplica[c]);
    }
  }

  // ------------------------------------------------------------ single steps

  lemma DisconnectedOk(s: System)
    requires Inv(s) && s.r.syncId.Some? && ReplicaTransferDone(s.r)
    ensures Inv(s.(r := s.r.(sync := NO_SYNC)))
  {
    hide SessionOk, LogOk, PrimaryOk, LinkOk, CopyOk, StreamOk, Untouched, PositionsOk;
    KnownSession(s);
    NoReplicaLink(s.sessions, s.p.syncId, s.p.sync, s.r.syncId, NO_SYNC);
    SyncPlaceOk(s, s.r.(sync := NO_SYNC));
  }

  lemma PostReceiveOk(s: System)
    requires Inv(s) && s.r.syncId.Some? && s.r.sync.endpoint.Some? && PostRecv(s.r.sync.endpoint.value).Some?
    ensures Inv(s.(r := s.r.(sync := s.r.sync.(endpoint := PostRecv(s.r.sync.endpoint.value)))))
  {
    hide SessionOk, LogOk, PrimaryOk, CopyOk, StreamOk, Untouched, PositionsOk, NextPart, ReadyLine, AckLine;
    KnownSession(s);
    SyncPlaceOk(s, s.r.(sync := s.r.sync.(endpoint := PostRecv(s.r.sync.endpoint.value))));
  }

  lemma ReadyOk(s: System)
    requires Inv(s) && s.r.syncId.Some? && s.r.sync.endpoint.Some? && ReplicaEventOk(s, Established)
    ensures !SendReady(s.r).result.Failed? ==> Inv(s.(r := SendReady(s.r).state))
  {
    hide SessionOk, LogOk, PrimaryOk, CopyOk, StreamOk, Untouched, PositionsOk, NextPart, ReadyLine, AckLine;
    KnownSession(s);
    if !SendReady(s.r).result.Failed? {
      SyncPlaceOk(s, SendReady(s.r).state);
    }
  }

  lemma AckOk(s: System)
    requires Inv(s) && s.r.syncId.Some? && s.r.sync.endpoint.Some? && s.r.sync.established
    ensures !SubmitAck(s.r).result.Failed? ==> Inv(s.(r := SubmitAck(s.r).state))
    ensures SubmitAck(s.r).state == s.r.(sync := SubmitAck(s.r).state.sync) && SubmitAck(s.r).state.sync.endpoint.Some?
    ensures SubmitAck(s.r).state.sync.established
  {
    hide SessionOk, LogOk, PrimaryOk, CopyOk, StreamOk, Untouched, PositionsOk, NextPart, ReadyLine, AckLine;
    KnownSession(s);
    if !SubmitAck(s.r).result.Failed? {
      SyncPlaceOk(s, SubmitAck(s.r).state);
    }
  }

  lemma SendDoneOk(s: System)
    requires Inv(s) && s.r.syncId.Some? && s.r.sync.endpoint.Some? && PollSend(s.r.sync.endpoint.value).Some?
             && s.r.sync.established
    ensures Inv(s.(r := s.r.(sync := s.r.sync.(endpoint := PollSend(s.r.sync.endpoint.value), sendPending := false))))
  {
    hide SessionOk, LogOk, PrimaryOk, CopyOk, StreamOk, Untouched, PositionsOk, NextPart, ReadyLine, AckLine;
    KnownSession(s);
    SyncPlaceOk(s, s.r.(sync := s.r.sync.(endpoint := PollSend(s.r.sync.endpoint.value), sendPending := false)));
  }

  // ------------------------------------------------------------- a data block

  /** The transfer counters after a block of `n` bytes. */
  function Counted(sync: Sync, n: nat): Sync
    requires sync.endpoint.Some?
  {
    sync.(endpoint := Some(sync.endpoint.value.(recvPending := true, inbox := None)),
          snapshotBytes := sync.snapshotBytes + n)
  }

  lemma CountedOk(s: System)
    requires Inv(s) && s.r.syncId.Some? && s.r.sync.endpoint.Some? && s.r.sync.endpoint.value.inbox.Some?
    requires s.r.sync.established
    ensures var q := Counted(s.r.sync, |s.r.sync.endpoint.value.inbox.value|);
            && s.r.syncId.value in s.sessions
            && ReplicaSyncOk(q, s.sessions[s.r.syncId.value].file, s.nextLink, s.accepted)
            && LinkOk(s.sessions, s.p.syncId, s.p.sync, s.r.syncId, q)
  {
    hide SessionOk, LogOk, PrimaryOk, CopyOk, StreamOk, Untouched, PositionsOk, ReadyLine, AckLine, ReplicaFullSyncOk,
         ReplicaCaughtUpOk;
    KnownSession(s);
  }

  lemma NextBlockOk(s: System, q: Replica, data: ByteString)
    requires Inv(s) && s.r.syncId.Some? && s.r.phase.FullSync? && s.r.sync.endpoint.Some?
             && s.r.sync.endpoint.value.inbox == Some(data)
    requires s.r.writer.Writer? && |data| < s.r.writer.remaining && s.r.sync.established
    requires q == s.r.(writer := Writer(s.r.writer.file + data, s.r.writer.remaining - |data|),
                       sync := Counted(s.r.sync, |data|))
    ensures Inv(s.(r := q))
  {
    hide SessionOk, LogOk, PrimaryOk, LinkOk, CopyOk, StreamOk, Untouched, PositionsOk;
    KnownSession(s);
    CountedOk(s);
    hide ReplicaSyncOk;
    InboxNext(s);
    var s' := s.(r := q);
    var c := s.r.conn.value;
    assert SessionsOk(s');
    assert c in s'.received ==> Outstanding(s', c) == Outstanding(s, c);
    var file := s.sessions[s.r.syncId.value].file;
    assert file[..s.r.sync.snapshotBytes] + data == file[..s.r.sync.snapshotBytes + |data|];
  }

  /** What arrives is the next part of the announced snapshot. */
  lemma InboxNext(s: System)
    requires Inv(s) && s.r.syncId.Some? && s.r.sync.endpoint.Some? && s.r.sync.endpoint.value.inbox.Some?
    ensures s.r.syncId.value in s.sessions && s.r.phase.FullSync?
    ensures NextPart(s.sessions[s.r.syncId.value].file, s.r.sync.snapshotBytes, s.r.sync.endpoint.value.inbox.value)
  {
  }

  /** The last block: the file at the final path is the announced one, and installing it gives
      the engines and the AOF length at the snapshot boundary. */
  lemma InstallOk(s: System, data: ByteString)
    requires Inv(s) && s.r.syncId.Some? && s.r.phase.FullSync? && s.r.sync.endpoint.Some?
             && s.r.sync.endpoint.value.inbox == Some(data)
    requires s.r.writer.Writer? && |data| == s.r.writer.remaining
    ensures s.r.syncId.value in s.sessions
    ensures var x := s.sessions[s.r.syncId.value];
            && s.r.writer.file + data == x.file
            && x.start <= |s.log| && StoresAt(s.base, s.log, x.start).Some? && x.sent == Off(s.base, s.log, x.start)
            && FinishFullSync(s.r.(writer := Writer(s.r.writer.file + data, 0)))
               == s.r.(writer := WriterClosed, installed := Some(x.file),
                       stores := StoresAt(s.base, s.log, x.start).value,
                       aof := Truncate(s.r.aof, x.sent), phase := CatchUp)
  {
    hide LogOk, PrimaryOk, LinkOk, CopyOk, StreamOk, PositionsOk, Load, Stream, StoresAt, Off, ReplicaSyncOk;
    KnownSession(s);
    InboxNext(s);
    var x := s.sessions[s.r.syncId.value];
    assert x.file[..s.r.sync.snapshotBytes] + data == x.file;
  }

  lemma LastBlockOk(s: System, q: Replica, data: ByteString)
    requires Inv(s) && s.r.syncId.Some? && s.r.phase.FullSync? && s.r.sync.endpoint.Some?
             && s.r.sync.endpoint.value.inbox == Some(data)
    requires s.r.writer.Writer? && |data| == s.r.writer.remaining && s.r.sync.established
    requires s.r.syncId.value in s.sessions
    requires var x := s.sessions[s.r.syncId.value];
             && x.start <= |s.log| && StoresAt(s.base, s.log, x.start).Some?
             && q == s.r.(writer := WriterClosed, installed := Some(x.file),
                          stores := StoresAt(s.base, s.log, x.start).value,
                          aof := Truncate(s.r.aof, x.sent), phase := CatchUp, sync := Counted(s.r.sync, |data|))
    ensures Inv(s.(r := q, applied := s.sessions[s.r.syncId.value].start))
  {
    hide LogOk, PrimaryOk, LinkOk, Load, Stream, StoresAt, Off;
    KnownSession(s);
    InboxNext(s);
    CountedOk(s);
    hide ReplicaSyncOk;
    var x := s.sessions[s.r.syncId.value];
    var s' := s.(r := q, applied := x.start);
    var c := s.r.conn.value;
    assert c in s'.received ==> Outstanding(s', c) == Outstanding(s, c);
    assert PositionsOk(s.base, s.log, s.p.aof, x);
    assert s.p.aof[x.sent..x.sent] == [] && q.aof[x.sent..] == [];
    assert SessionsOk(s');
    FileComplete(s, data);
    assert CopyOk(s.base, s.log, s.p.aof, x, q, x.start);
    assert StreamOk(s.base, s.log, s.p.aof, x, q, x.start, s.toReplica[c]);
  }

  lemma FileComplete(s: System, data: ByteString)
    requires Inv(s) && s.r.syncId.Some? && s.r.phase.FullSync? && s.r.sync.endpoint.Some?
             && s.r.sync.endpoint.value.inbox == Some(data)
    requires s.r.writer.Writer? && |data| == s.r.writer.remaining
    ensures s.r.syncId.value in s.sessions && s.r.sync.snapshotBytes + |data| == |s.sessions[s.r.syncId.value].file|
  {
    hide SessionOk, LogOk, PrimaryOk, LinkOk, Load, Stream, StoresAt, Off;
    KnownSession(s);
  }

  // -------------------------------------------------------- the callback in place

  /** A callback round leaves a system in order: `r` is the Replica after the round. */
  ghost predicate RoundOk(s: System, step: ReplicaStep)
    requires s.r.syncId.Some? && s.r.syncId.value in s.sessions
  {
    if step.result.Failed? then true
    else if s.r.phase.FullSync? && step.state.phase.CatchUp? then
              Inv(s.(r := step.state, applied := s.sessions[s.r.syncId.value].start))
    else Inv(s.(r := step.state))
  }

  lemma ReceiveRoundOk(s: System)
    requires Inv(s) && s.r.syncId.Some? && s.r.syncId.value in s.sessions && s.r.sync.established
    requires s.r.sync.endpoint.Some? && PollRecv(s.r.sync.endpoint.value).Some?
    ensures RoundOk(s, ReplicaReceive(s.r, PollRecv(s.r.sync.endpoint.value).value,
                                      s.r.sync.endpoint.value.inbox.value))
  {
    hide Inv, FinishFullSync, StoresAt, Off, Truncate, PositionsOk;
    var e := PollRecv(s.r.sync.endpoint.value).value;
    var data := s.r.sync.endpoint.value.inbox.value;
    var step := ReplicaReceive(s.r, e, data);
    if !step.result.Failed? {
      if |data| < s.r.writer.remaining {
        NextBlockOk(s, step.state, data);
      } else {
        InstallOk(s, data);
        LastBlockOk(s, step.state, data);
      }
    }
  }

  lemma TransferRoundOk(s: System, completion: Completion)
    requires Inv(s) && s.r.syncId.Some? && s.r.syncId.value in s.sessions && s.r.sync.endpoint.Some?
    ensures RoundOk(s, ReplicaTransfer(s.r, completion))
  {
    hide Inv, SubmitAck, ReplicaReceive;
    if s.r.sync.established {
      AckOk(s);
      var acked := SubmitAck(s.r);
      if !acked.result.Failed? && !ReplicaTransferDone(acked.state) {
        var s1 := s.(r := acked.state);
        var e := acked.state.sync.endpoint.value;
        if completion.SendCompletion? && PollSend(e).Some? {
          SendDoneOk(s1);
        } else if completion.RecvCompletion? && PollRecv(e).Some? {
          ReceiveRoundOk(s1);
          assert s1.(r := ReplicaReceive(s1.r, PollRecv(e).value, e.inbox.value).state)
                 == s.(r := ReplicaReceive(s1.r, PollRecv(e).value, e.inbox.value).state);
        }
      }
    }
  }

  lemma StreamRoundOk(s: System, event: CmEvent, completion: Completion)
    requires Inv(s) && s.r.syncId.Some? && s.r.syncId.value in s.sessions && s.r.sync.endpoint.Some?
             && ReplicaEventOk(s, event)
    ensures RoundOk(s, ReplicaStream(s.r, event, completion))
  {
    hide Inv, ReplicaTransfer, SendReady, PostRecv;
    match event
    case CmFailure =>
    case Accepting(_) =>
    case Disconnected =>
      if ReplicaTransferDone(s.r) {
        DisconnectedOk(s);
      }
    case RouteResolved =>
      if PostRecv(s.r.sync.endpoint.value).Some? {
        PostReceiveOk(s);
        TransferRoundOk(s.(r := s.r.(sync := s.r.sync.(endpoint := PostRecv(s.r.sync.endpoint.value)))), completion);
      }
    case Established =>
      if !SendReady(s.r).result.Failed? {
        ReadyOk(s);
        ReadyKeeps(s.r);
        TransferRoundOk(s.(r := SendReady(s.r).state), completion);
      }
    case NoEvent => TransferRoundOk(s, completion);
  }

  lemma ReplicaPollOk(s: System, event: CmEvent, completion: Completion)
    requires Inv(s)
    ensures Inv(DoReplicaPoll(s, event, completion))
  {
    hide Inv, ReplicaStream;
    if s.r.conn.None? || s.r.syncId.None? || !ReplicaEventOk(s, event) {
    } else {
      Known(s);
      CommittedFrame(DoReplicaPoll(s, event, completion), s.committed);
      var step := ReplicaStream(s.r, event, completion);
      if step.result.Failed? {
        ReplicaCloseOk(s, step.state);
      } else if s.r.sync.endpoint.Some? {
        StreamRoundOk(s, event, completion);
      } else {
        IdleStream(s.r, event, completion);
      }
    }
  }

  lemma IdleStream(r: Replica, event: CmEvent, completion: Completion)
    requires r.sync.endpoint.None?
    ensures ReplicaStream(r, event, completion) == ReplicaStep(r, Idle)
  {
    hide ReplicaTransfer, SendReady;
  }

  /** Nothing in the invariant depends on which file was committed last. */
  lemma CommittedFrame(s: System, file: Option<ByteString>)
    ensures Inv(s) <==> Inv(s.(committed := file))
  {
    hide LogOk, SessionOk, PrimaryOk, LinkOk, OrderOk, ReplicaFullSyncOk, ReplicaCaughtUpOk, ReplicaSyncOk, PositionsOk;
    var t := s.(committed := file);
    forall c | c in s.toReplica ensures HandshakeOk(s, c) <==> HandshakeOk(t, c) {
      forall id ensures Notified(s, c, id) <==> Notified(t, c, id) {
      }
      assert c in s.received ==> Outstanding(t, c) == Outstanding(s, c);
    }
    forall c | c in s.toReplica ensures ReplicaSessionOk(s, c) <==> ReplicaSessionOk(t, c) {
      assert c in s.received ==> Outstanding(t, c) == Outstanding(s, c);
    }
  }

  /** A SAVE touches nothing but the file at the final path of an online Replica. */
  lemma ReplicaSaveOk(s: System, file: ByteString)
    requires Inv(s)
    ensures Inv(DoReplicaSave(s, file))
  {
    hide LogOk, SessionOk, PrimaryOk, LinkOk, PositionsOk, CopyOk, StreamOk, IsSnapshotOf;
    var t := DoReplicaSave(s, file);
    if t != s {
      var c := s.r.conn.value;
      assert c in s.received ==> Outstanding(t, c) == Outstanding(s, c);
      assert SessionsOk(t);
      SavedFrame(s.base, s.log, s.p.aof, s.sessions[s.r.syncId.value], s.r, t.r, s.applied, s.toReplica[c]);
    }
  }

  lemma SavedFrame(base: Base, log: Log, aof: ByteString, x: Session, r: Replica, r': Replica, k: nat,
                   inFlight: ByteString)
    requires PositionsOk(base, log, aof, x) && CopyOk(base, log, aof, x, r, k)
             && StreamOk(base, log, aof, x, r, k, inFlight)
    requires r' == r.(installed := r'.installed)
    ensures CopyOk(base, log, aof, x, r', k) && StreamOk(base, log, aof, x, r', k, inFlight)
  {
    hide Off, StoresAt, Pending, PositionsOk;
  }

  lemma Known(s: System)
    requires Inv(s) && s.r.syncId.Some?
    ensures s.r.syncId.value in s.sessions
  {
  }

  lemma ReadyKeeps(r: Replica)
    requires r.sync.endpoint.Some?
    ensures !SendReady(r).result.Failed? ==> var q := SendReady(r).state;
            q == r.(sync := q.sync) && q.sync.endpoint.Some?
  {
  }
}
