/** Client writes: the log and the AOF grow, and everything said about earlier positions stays. */
module ClusterGrowth {
  import opened Bytes
  import opened Codec
  import opened Store
  import opened Aof
  import opened Snapshot
  import opened Rdma
  import opened ControlLines
  import opened Replication
  import opened Cluster
  import opened ClusterInvariant

  lemma SameHistory(base: Base, log: Log, fields: Fields, k: nat)
    requires k <= |log|
    ensures Off(base, log + [fields], k) == Off(base, log, k)
    ensures StoresAt(base, log + [fields], k) == StoresAt(base, log, k)
  {
    hide EncodeLog, ApplyAll;
    assert (log + [fields])[..k] == log[..k];
  }

  lemma BoundaryGrows(base: Base, log: Log, fields: Fields, offset: nat)
    requires IsBoundary(base, log, offset)
    ensures IsBoundary(base, log + [fields], offset)
  {
    hide Off;
    var k :| 0 <= k <= |log| && Off(base, log, k) == offset;
    SameHistory(base, log, fields, k);
  }

  lemma SliceGrows(a: ByteString, b: ByteString, i: nat, j: nat)
    requires i <= j <= |a|
    ensures (a + b)[i..j] == a[i..j]
  {
  }

  lemma LogGrows(base: Base, log: Log, stores: Stores, aof: ByteString, fields: Fields)
    requires LogOk(base, log, stores, aof) && Loggable(fields) && Apply(stores, fields).Some?
    requires |aof + EncodeCommand(fields)| <= INT64_MAX
    ensures LogOk(base, log + [fields], Apply(stores, fields).value, aof + EncodeCommand(fields))
  {
    hide EncodeCommand, Apply, Loggable;
    assert (log + [fields])[..|log|] == log;
  }

  lemma PositionsGrow(base: Base, log: Log, aof: ByteString, fields: Fields, more: ByteString, x: Session)
    requires PositionsOk(base, log, aof, x)
    ensures PositionsOk(base, log + [fields], aof + more, x)
    ensures Stream(base, log + [fields], aof + more, x) == Stream(base, log, aof, x)
  {
    hide Off, OnlineLine;
    SameHistory(base, log, fields, x.start);
    match x.online
    case None => SliceGrows(aof, more, Off(base, log, x.start), x.sent);
    case Some(n) =>
      SameHistory(base, log, fields, n);
      SliceGrows(aof, more, Off(base, log, x.start), Off(base, log, n));
      SliceGrows(aof, more, Off(base, log, n), x.sent);
  }

  lemma SessionGrows(base: Base, log: Log, aof: ByteString, fields: Fields, more: ByteString, nextConn: nat,
                     id: ByteString, x: Session)
    requires SessionOk(base, log, aof, nextConn, id, x)
    ensures SessionOk(base, log + [fields], aof + more, nextConn, id, x)
  {
    hide Off, StoresAt, PositionsOk, Stream, Load;
    PositionsGrow(base, log, aof, fields, more, x);
    PositionsStart(base, log, aof, x);
    SameHistory(base, log, fields, x.start);
  }

  lemma PositionsStart(base: Base, log: Log, aof: ByteString, x: Session)
    requires PositionsOk(base, log, aof, x)
    ensures x.start <= |log|
  {
  }

  lemma PrimaryGrows(base: Base, log: Log, sessions: map<ByteString, Session>, open: set<nat>, p: Primary, p': Primary,
                     fields: Fields)
    requires PrimaryOk(base, log, sessions, open, p)
    requires p' == p.(stores := p'.stores, aof := p'.aof)
    ensures PrimaryOk(base, log + [fields], sessions, open, p')
  {
    hide Off, IsBoundary, PrimarySyncOk, PrimaryReaderOk;
    if p.session.Some? {
      var x := sessions[p.syncId.value];
      SameHistory(base, log, fields, x.start);
      if p.phase.CatchUp? || p.phase.Online? {
        match p.aofReader
        case AofOpen(offset, remaining) => BoundaryGrows(base, log, fields, offset + remaining);
        case AofClosed => BoundaryGrows(base, log, fields, x.sent);
      }
    }
  }

  lemma CaughtUpGrows(base: Base, log: Log, aof: ByteString, fields: Fields, more: ByteString, r: Replica, x: Session,
                      k: nat, inFlight: ByteString)
    requires PositionsOk(base, log, aof, x) && ReplicaCaughtUpOk(base, log, aof, r, x, k, inFlight)
    ensures PositionsOk(base, log + [fields], aof + more, x)
    ensures ReplicaCaughtUpOk(base, log + [fields], aof + more, r, x, k, inFlight)
  {
    hide Off, StoresAt, OnlineLine;
    PositionsGrow(base, log, aof, fields, more, x);
    SameHistory(base, log, fields, x.start);
    SameHistory(base, log, fields, k);
    SliceGrows(aof, more, Off(base, log, x.start), Off(base, log, k));
    SliceGrows(aof, more, Off(base, log, k), x.sent);
    if x.online.Some? {
      var n := x.online.value;
      SameHistory(base, log, fields, n);
      if Off(base, log, k) <= Off(base, log, n) {
        SliceGrows(aof, more, Off(base, log, k), Off(base, log, n));
      }
      SliceGrows(aof, more, Off(base, log, n), x.sent);
    }
  }

  lemma UntouchedGrows(base: Base, log: Log, fields: Fields, x: Session)
    requires Untouched(base, log, x)
    ensures Untouched(base, log + [fields], x)
  {
    hide Off;
    SameHistory(base, log, fields, x.start);
  }

  lemma ReplicaGrows(s: System, s': System, fields: Fields)
    requires ReplicaOk(s) && SessionsOk(s)
    requires s' == s.(p := s'.p, log := s.log + [fields])
    requires s'.p == s.p.(stores := s'.p.stores, aof := s'.p.aof)
    requires s.p.aof <= s'.p.aof
    ensures ReplicaOk(s')
  {
    hide Untouched, ReplicaCaughtUpOk, PositionsOk, SessionOk, ReplicaSyncOk;
    var more := s'.p.aof[|s.p.aof|..];
    assert s'.p.aof == s.p.aof + more;
    if s.r.conn.Some? {
      var c := s.r.conn.value;
      assert c in s'.received ==> Outstanding(s', c) == Outstanding(s, c);
      if s.r.phase.Handshake? {
        HandshakeGrows(s, s', c, fields);
      } else {
        var x := s.sessions[s.r.syncId.value];
        if s.r.phase.FullSync? {
          UntouchedGrows(s.base, s.log, fields, x);
          PositionsGrow(s.base, s.log, s.p.aof, fields, more, x);
        } else {
          CaughtUpGrows(s.base, s.log, s.p.aof, fields, more, s.r, x, s.applied, s.toReplica[c]);
        }
      }
    }
  }

  lemma HandshakeGrows(s: System, s': System, c: nat, fields: Fields)
    requires c in s.toReplica && HandshakeOk(s, c)
    requires s' == s.(p := s'.p, log := s.log + [fields])
    requires s'.p == s.p.(stores := s'.p.stores, aof := s'.p.aof)
    ensures HandshakeOk(s', c)
  {
    hide Untouched, ResyncFrame;
    assert c in s'.received ==> Outstanding(s', c) == Outstanding(s, c);
    if id :| id in s.sessions && Notified(s, c, id) {
      UntouchedGrows(s.base, s.log, fields, s.sessions[id]);
      assert Notified(s', c, id);
    }
  }

  lemma ClientWriteOk(s: System, fields: Fields)
    requires Inv(s)
    ensures Inv(DoClientWrite(s, fields))
  {
    hide SessionOk, PrimaryOk, ReplicaOk, LinkOk, LogOk, EncodeCommand, Apply, Loggable, Off;
    var s' := DoClientWrite(s, fields);
    if s' != s {
      var more := EncodeCommand(fields);
      LogGrows(s.base, s.log, s.p.stores, s.p.aof, fields);
      forall id | id in s.sessions ensures SessionOk(s'.base, s'.log, s'.p.aof, s'.nextConn, id, s'.sessions[id]) {
        SessionGrows(s.base, s.log, s.p.aof, fields, more, s.nextConn, id, s.sessions[id]);
      }
      PrimaryGrows(s.base, s.log, s.sessions, s.received.Keys, s.p, s'.p, fields);
      ReplicaGrows(s, s', fields);
    }
  }
}
