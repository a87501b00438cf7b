/** Steps of the network and of the network card, and the closing of connections. */
module ClusterNetwork {
  import opened Bytes
  import opened Codec
  import opened Store
  import opened Aof
  import opened Snapshot
  import opened Rdma
  import opened ControlLines
  import opened Replication
  import opened Cluster
  import opened ClusterInvariant

  // ------------------------------------------------------------- completions

  lemma PrimaryCompletesOk(s: System)
    requires Inv(s)
    ensures Inv(Next(s, PrimaryCompletesSend))
  {
    hide SessionOk, LogOk, PrimaryAofOk, ReplicaOk, Untouched;
    var s' := Next(s, PrimaryCompletesSend);
    if s.p.sync.endpoint.Some? {
      PrimaryLinkPhase(s);
      assert SessionsOk(s');
      PrimaryCompletesReplica(s);
    }
  }

  /** The Replica does not see when a send of the Primary completes. */
  lemma PrimaryCompletesReplica(s: System)
    requires Inv(s) && s.p.sync.endpoint.Some?
    ensures ReplicaOk(Next(s, PrimaryCompletesSend))
  {
    hide SessionsOk, LogOk, PrimaryOk, ReplicaSessionOk, Untouched, ResyncFrame, LinkOk, NamesOk;
    var s' := Next(s, PrimaryCompletesSend);
    if s.r.conn.Some? {
      var c := s.r.conn.value;
      assert c in s'.received ==> Outstanding(s', c) == Outstanding(s, c);
      if s.r.phase.Handshake? {
        HandshakeFrame(s, s', c);
      } else {
        SessionHasId(s, c);
        ReplicaSessionFrame(s, s', c);
      }
    }
  }

  /** The handshake depends on the Primary's transfer only through its progress. */
  lemma HandshakeFrame(s: System, s': System, c: nat)
    requires c in s.toReplica && HandshakeOk(s, c)
    requires s' == s.(p := s.p.(sync := s'.p.sync))
    requires s'.p.sync.snapshotBytes == s.p.sync.snapshotBytes && s'.p.sync.endpoint.Some? && s.p.sync.endpoint.Some?
    requires s'.p.sync.endpoint.value.inbox == s.p.sync.endpoint.value.inbox
    ensures HandshakeOk(s', c)
  {
    hide Untouched, ResyncFrame;
    assert c in s'.received ==> Outstanding(s', c) == Outstanding(s, c);
    if id :| id in s.sessions && Notified(s, c, id) {
      assert Notified(s', c, id);
    }
  }

  /** The Primary holds an RDMA connection only during a full synchronisation. */
  lemma PrimaryLinkPhase(s: System)
    requires Inv(s) && s.p.sync.endpoint.Some?
    ensures s.p.phase.FullSync? && s.p.session.Some? && s.p.syncId.Some? && s.p.syncId.value in s.sessions
  {
  }

  /** Both ends of one RDMA connection: the Primary is in a full synchronisation, the Replica
      in one or just past it. */
  lemma SharedLinkPhase(s: System)
    requires Inv(s) && SameLink(s.p.sync, s.r.sync)
    ensures s.p.phase.FullSync? && s.p.session.Some?
    ensures s.r.conn.Some? && s.r.conn.value in s.toReplica && ReplicaSessionOk(s, s.r.conn.value)
    ensures s.r.phase.FullSync? || s.r.phase.CatchUp?
    ensures s.r.syncId.Some? && s.r.syncId.value in s.sessions
  {
    PrimaryLinkPhase(s);
  }

  /** What the Replica's session state does not depend on. */
  lemma ReplicaSessionFrame(s: System, s': System, c: nat)
    requires c in s.toReplica && ReplicaSessionOk(s, c)
    requires c in s'.toReplica && s'.toReplica[c] == s.toReplica[c]
    requires s'.r == s.r && s'.base == s.base && s'.log == s.log && s'.applied == s.applied
    requires s'.p.aof == s.p.aof && s'.nextLink == s.nextLink && s'.accepted == s.accepted
    requires s.r.syncId.Some? && s.r.syncId.value in s'.sessions
    requires s'.sessions[s.r.syncId.value] == s.sessions[s.r.syncId.value]
    requires s'.p.session == Some(c) ==> s'.p.syncId == s.r.syncId
    requires c in s'.received ==> c in s.received && Outstanding(s', c) == Outstanding(s, c)
    ensures ReplicaSessionOk(s', c)
  {
    hide PositionsOk, ReplicaSyncOk, ReplicaFullSyncOk, ReplicaCaughtUpOk;
  }

  lemma ReplicaCompletesOk(s: System)
    requires Inv(s)
    ensures Inv(Next(s, ReplicaCompletesSend))
  {
    hide SessionOk, LogOk, PrimaryOk, CopyOk, StreamOk, Untouched, ResyncFrame, PositionsOk;
    var s' := Next(s, ReplicaCompletesSend);
    assert SessionsOk(s');
    if s.r.conn.Some? {
      var c := s.r.conn.value;
      assert c in s'.received ==> Outstanding(s', c) == Outstanding(s, c);
      if !s.r.phase.Handshake? && s.r.phase.FullSync? {
      } else if !s.r.phase.Handshake? {
        var x := s.sessions[s.r.syncId.value];
        CopyFrame(s.base, s.log, s.p.aof, x, s.r, s'.r, s.applied, s.toReplica[c]);
      }
    }
  }

  lemma CopyFrame(base: Base, log: Log, aof: ByteString, x: Session, r: Replica, r': Replica, k: nat,
                  inFlight: ByteString)
    requires PositionsOk(base, log, aof, x) && CopyOk(base, log, aof, x, r, k)
             && StreamOk(base, log, aof, x, r, k, inFlight)
    requires r' == r.(sync := r'.sync)
    ensures CopyOk(base, log, aof, x, r', k) && StreamOk(base, log, aof, x, r', k, inFlight)
  {
    hide Off, StoresAt, Pending, PositionsOk;
  }

  // ---------------------------------------------------------------- delivery

  lemma DeliverToReplicaOk(s: System)
    requires Inv(s)
    ensures Inv(DoDeliverToReplica(s))
  {
    hide SessionOk, LogOk, PrimaryAofOk, CopyOk, StreamOk, Untouched, ResyncFrame, PositionsOk, AckLine, ReadyLine,
         LinkOk;
    var s' := DoDeliverToReplica(s);
    if SameLink(s.p.sync, s.r.sync) {
      SharedLinkPhase(s);
      DeliverToReplicaLink(s);
      assert SessionsOk(s');
      var c := s.r.conn.value;
      assert c in s'.received ==> Outstanding(s', c) == Outstanding(s, c);
      if !s.r.phase.FullSync? {
        var x := s.sessions[s.r.syncId.value];
        CopyFrame(s.base, s.log, s.p.aof, x, s.r, s'.r, s.applied, s.toReplica[c]);
      }
    }
  }

  /** A block is delivered into a posted receive, and it is the block the Replica needs next. */
  lemma DeliverToReplicaLink(s: System)
    requires Inv(s) && SameLink(s.p.sync, s.r.sync)
    ensures var s' := DoDeliverToReplica(s);
            && LinkOk(s'.sessions, s'.p.syncId, s'.p.sync, s'.r.syncId, s'.r.sync)
            && !s'.overrun
            && ReplicaSyncOk(s'.r.sync, s.sessions[s.r.syncId.value].file, s.nextLink, s.accepted)
            && s'.p.sync == s.p.sync.(endpoint := s'.p.sync.endpoint)
            && s'.p.sync.endpoint.Some? && s'.r.sync.endpoint.Some?
            && s'.p.sync.endpoint.value == s.p.sync.endpoint.value.(wire := s'.p.sync.endpoint.value.wire)
            && |s'.p.sync.endpoint.value.wire| <= |s.p.sync.endpoint.value.wire|
            && s'.r.sync == s.r.sync.(endpoint := s'.r.sync.endpoint)
            && s'.r.sync.endpoint.value == s.r.sync.endpoint.value.(inbox := s'.r.sync.endpoint.value.inbox)
            && (s.r.phase.CatchUp? || s.r.phase.Online? ==> s'.r.sync.endpoint.value.inbox.None?)
  {
    hide SessionsOk, LogOk, PrimaryAofOk, CopyOk, StreamOk, Untouched, ResyncFrame, PositionsOk, AckLine, ReadyLine;
    var a := s.p.sync.endpoint.value;
    if a.wire != [] {
      var file := s.sessions[s.r.syncId.value].file;
      assert a.wire == [file[s.r.sync.snapshotBytes..s.p.sync.snapshotBytes]];
      assert a.wire[1..] == [];
    }
  }

  lemma DeliverToPrimaryOk(s: System)
    requires Inv(s)
    ensures Inv(DoDeliverToPrimary(s))
  {
    hide SessionOk, LogOk, PrimaryAofOk, CopyOk, StreamOk, Untouched, ResyncFrame, PositionsOk, AckLine, ReadyLine,
         LinkOk;
    var s' := DoDeliverToPrimary(s);
    if SameLink(s.p.sync, s.r.sync) {
      SharedLinkPhase(s);
      DeliverToPrimaryLink(s);
      assert SessionsOk(s');
      var c := s.r.conn.value;
      assert c in s'.received ==> Outstanding(s', c) == Outstanding(s, c);
      if !s.r.phase.FullSync? {
        var x := s.sessions[s.r.syncId.value];
        CopyFrame(s.base, s.log, s.p.aof, x, s.r, s'.r, s.applied, s.toReplica[c]);
      }
    }
  }

  lemma DeliverToPrimaryLink(s: System)
    requires Inv(s) && SameLink(s.p.sync, s.r.sync)
    ensures var s' := DoDeliverToPrimary(s);
            && LinkOk(s'.sessions, s'.p.syncId, s'.p.sync, s'.r.syncId, s'.r.sync)
            && !s'.overrun
            && s.p.syncId.Some? && s.p.syncId.value in s.sessions
            && PrimarySyncOk(s'.p.sync, s.sessions[s.p.syncId.value].file)
            && s'.p.sync == s.p.sync.(endpoint := s'.p.sync.endpoint)
            && s'.p.sync.endpoint.Some? && s'.r.sync.endpoint.Some?
            && s'.p.sync.endpoint.value == s.p.sync.endpoint.value.(inbox := s'.p.sync.endpoint.value.inbox)
            && s'.r.sync == s.r.sync.(endpoint := s'.r.sync.endpoint)
            && s'.r.sync.endpoint.value == s.r.sync.endpoint.value.(wire := s'.r.sync.endpoint.value.wire)
            && |s'.r.sync.endpoint.value.wire| <= |s.r.sync.endpoint.value.wire|
  {
    hide SessionsOk, LogOk, PrimaryAofOk, CopyOk, StreamOk, Untouched, ResyncFrame, PositionsOk, AckLine, ReadyLine,
         NextPart;
    SharedLinkPhase(s);
    var b := s.r.sync.endpoint.value;
    if b.wire != [] {
      assert b.wire[1..] == [];
    }
  }

  // -------------------------------------------------------------- TCP and closing

  lemma ConnectOk(s: System)
    requires Inv(s)
    ensures Inv(DoConnect(s))
  {
    hide SessionOk, LogOk, PrimaryAofOk, PrimarySyncOk, PrimaryReaderOk, LinkOk;
    var s' := DoConnect(s);
    if s.r.conn.None? {
      var c := s.nextConn;
      assert Outstanding(s', c) == PING + CRLF;
      assert s'.r.input + s'.toReplica[c] == [];
      forall id | id in s.sessions ensures SessionOk(s'.base, s'.log, s'.p.aof, s'.nextConn, id, s'.sessions[id]) {
        LaterConn(s.base, s.log, s.p.aof, s.nextConn, id, s.sessions[id]);
      }
      assert s.p.session != Some(c);
      assert HandshakeOk(s', c);
      assert s'.received.Keys == s.received.Keys + {c};
      assert PrimaryOk(s'.base, s'.log, s'.sessions, s'.received.Keys, s'.p);
      assert LinkOk(s'.sessions, s'.p.syncId, s'.p.sync, s'.r.syncId, s'.r.sync) by {
        NoReplicaLink(s'.sessions, s'.p.syncId, s'.p.sync, s'.r.syncId, s'.r.sync);
      }
      assert NamesOk(s') && OrderOk(s'.p, s'.r) && ReplicaOk(s') && SessionsOk(s');
      assert LogOk(s'.base, s'.log, s'.p.stores, s'.p.aof);
    }
  }

  lemma NoReplicaLink(sessions: map<ByteString, Session>, pId: Option<ByteString>, p: Sync, rId: Option<ByteString>,
                      r: Sync)
    requires r.endpoint.None? || p.endpoint.None?
    ensures LinkOk(sessions, pId, p, rId, r)
  {
  }

  lemma LaterConn(base: Base, log: Log, aof: ByteString, nextConn: nat, id: ByteString, x: Session)
    requires SessionOk(base, log, aof, nextConn, id, x)
    ensures SessionOk(base, log, aof, nextConn + 1, id, x)
  {
    hide PositionsOk, Stream, StoresAt, Load, Off;
  }

  lemma PrimaryRecvOk(s: System, c: nat, k: nat)
    requires Inv(s)
    ensures Inv(DoPrimaryRecv(s, c, k))
  {
    hide SessionOk, LogOk, PrimaryOk, LinkOk, ReplicaFullSyncOk, ReplicaCaughtUpOk, PositionsOk, ReplicaSyncOk,
         Untouched, ResyncFrame;
    var s' := DoPrimaryRecv(s, c, k);
    if s' != s {
      assert s'.received.Keys == s.received.Keys;
      assert SessionsOk(s');
      forall d | d in s.received ensures Outstanding(s', d) == Outstanding(s, d) {
        if d == c {
          assert s.toPrimary[c] == s.toPrimary[c][..k] + s.toPrimary[c][k..];
        }
      }
    }
  }

  lemma ReplicaRecvOk(s: System, k: nat)
    requires Inv(s)
    ensures Inv(DoReplicaRecv(s, k))
  {
    hide SessionOk, LogOk, PrimaryOk, LinkOk, PositionsOk, ReplicaSyncOk, Untouched, ResyncFrame, Pending, CopyOk;
    var s' := DoReplicaRecv(s, k);
    if s' != s {
      var c := s.r.conn.value;
      assert s.r.input + s.toReplica[c] == s'.r.input + s'.toReplica[c] by {
        assert s.toReplica[c] == s.toReplica[c][..k] + s.toReplica[c][k..];
      }
      assert SessionsOk(s');
      assert c in s'.received ==> Outstanding(s', c) == Outstanding(s, c);
      if !s.r.phase.Handshake? {
        var x := s.sessions[s.r.syncId.value];
        CopyInput(s.base, s.log, s.p.aof, x, s.r, s'.r, s.applied);
      }
    }
  }

  lemma CopyInput(base: Base, log: Log, aof: ByteString, x: Session, r: Replica, r': Replica, k: nat)
    requires r' == r.(input := r'.input)
    ensures CopyOk(base, log, aof, x, r, k) <==> CopyOk(base, log, aof, x, r', k)
  {
    hide Off, StoresAt;
  }

  /** Closing a Primary-side connection: `p` is the manager as the failed callback left it,
      still on this connection or not touched at all. */
  lemma PrimaryCloseOk(s: System, p: Primary, c: nat)
    requires Inv(s) && c in s.received
    requires p.stores == s.p.stores && p.aof == s.p.aof
    requires p == s.p || (p.session == Some(c) && (s.p.session == Some(c) || s.p.session.None?))
    ensures Inv(ClosePrimary(s, p, c))
  {
    hide SessionOk, LogOk, PrimaryAofOk, PrimarySyncOk, PrimaryReaderOk, LinkOk, ReplicaSessionOk, Untouched,
         ResyncFrame;
    var s' := ClosePrimary(s, p, c);
    assert SessionsOk(s');
    assert s'.received.Keys == s.received.Keys - {c};
    assert LinkOk(s'.sessions, s'.p.syncId, s'.p.sync, s'.r.syncId, s'.r.sync) by {
      if s'.p.session.None? {
        NoReplicaLink(s'.sessions, s'.p.syncId, s'.p.sync, s'.r.syncId, s'.r.sync);
      }
    }
    if s.r.conn.Some? {
      var d := s.r.conn.value;
      assert d in s'.received ==> Outstanding(s', d) == Outstanding(s, d);
      if !s.r.phase.Handshake? {
        SessionHasId(s, d);
        ReplicaSessionFrame(s, s', d);
      } else {
        CloseHandshake(s, s', p, c, d);
      }
    }
  }

  lemma SessionHasId(s: System, c: nat)
    requires c in s.toReplica && ReplicaSessionOk(s, c)
    ensures s.r.syncId.Some? && s.r.syncId.value in s.sessions
    ensures s.p.session == Some(c) ==> s.p.syncId == s.r.syncId
  {
  }

  lemma CloseHandshake(s: System, s': System, p: Primary, c: nat, d: nat)
    requires Inv(s) && c in s.received && s' == ClosePrimary(s, p, c)
    requires p == s.p || (p.session == Some(c) && (s.p.session == Some(c) || s.p.session.None?))
    requires s.r.conn == Some(d) && s.r.phase.Handshake?
    ensures HandshakeOk(s', d)
  {
    hide SessionOk, LogOk, PrimaryAofOk, PrimarySyncOk, PrimaryReaderOk, LinkOk, Untouched, ResyncFrame, SessionsOk;
    assert d in s'.received ==> Outstanding(s', d) == Outstanding(s, d);
    if id :| id in s.sessions && Notified(s, d, id) {
      assert Notified(s', d, id);
    }
  }

  lemma ReplicaCloseOk(s: System, r: Replica)
    requires Inv(s)
    ensures Inv(CloseReplica(s, r)) && Inv(s.(r := Fresh(r)))
  {
    hide SessionOk, LogOk, PrimaryAofOk, PrimarySyncOk, PrimaryReaderOk, LinkOk, ReplicaSessionOk, HandshakeOk;
    var s' := CloseReplica(s, r);
    var s2 := s.(r := Fresh(r));
    assert SessionsOk(s') && SessionsOk(s2);
    NoReplicaLink(s'.sessions, s'.p.syncId, s'.p.sync, s'.r.syncId, s'.r.sync);
    NoReplicaLink(s2.sessions, s2.p.syncId, s2.p.sync, s2.r.syncId, s2.r.sync);
  }
}
