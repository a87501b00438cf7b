/** The inductive invariant of the joint state machine, one predicate per concern. */
module ClusterInvariant {
  import opened Bytes
  import opened Codec
  import opened Store
  import opened Aof
  import opened Snapshot
  import opened Rdma
  import opened ControlLines
  import opened Replication
  import opened Cluster

  // --------------------------------------------------------- Primary's history

  /** The Primary's engines and AOF are the base followed by the log. */
  predicate LogOk(base: Base, log: Log, stores: Stores, aof: ByteString) {
    && AllLoggable(log)
    && ApplyAll(base.stores, log) == Some(stores)
    && aof == base.aof + EncodeLog(log)
    && |aof| <= INT64_MAX
    && |base.stores.arrayTable| <= ARRAY_SIZE
  }

  function OnlineLine(offset: nat): ByteString {
    OnlineFrame(offset) + CRLF
  }

  /** Positions of a session: snapshot boundary, ONLINE boundary and sent position in order. */
  predicate PositionsOk(base: Base, log: Log, aof: ByteString, x: Session) {
    && x.start <= |log|
    && Off(base, log, x.start) <= x.sent <= |aof|
    && match x.online
       case None => true
       case Some(n) => x.start <= n <= |log| && Off(base, log, x.start) <= Off(base, log, n) <= x.sent
  }

  /** The TCP bytes of a session: the AOF from the snapshot boundary on, with one ONLINE line
      spliced in at the announced offset. */
  function Stream(base: Base, log: Log, aof: ByteString, x: Session): ByteString
    requires PositionsOk(base, log, aof, x)
  {
    match x.online
    case None => aof[Off(base, log, x.start)..x.sent]
    case Some(n) =>
      aof[Off(base, log, x.start)..Off(base, log, n)] + OnlineLine(Off(base, log, n)) + aof[Off(base, log, n)..x.sent]
  }

  predicate SessionOk(base: Base, log: Log, aof: ByteString, nextConn: nat, id: ByteString, x: Session) {
    && IsId(id) && IsId(x.replicationId) && 0 < x.port <= 65535
    && x.conn < nextConn
    && 0 < |x.file| <= INT64_MAX
    && PositionsOk(base, log, aof, x)
    && StoresAt(base, log, x.start).Some?
    && Load(x.file) == Loaded(StoresAt(base, log, x.start).value, Some(Off(base, log, x.start)))
    && x.emitted == Stream(base, log, aof, x)
  }

  predicate Untouched(base: Base, log: Log, x: Session) {
    && x.start <= |log| && x.sent == Off(base, log, x.start) && x.online.None? && x.emitted == []
  }

  // ------------------------------------------------------------------- Primary

  predicate PrimarySyncOk(sync: Sync, file: ByteString) {
    && sync.acknowledgedBytes <= sync.snapshotBytes <= |file|
    && (sync.endpoint.None? ==> sync == NO_SYNC)
    && (sync.endpoint.Some? ==>
          var e := sync.endpoint.value;
          && e.recvPending && sync.sendPending == e.sendPending && (e.sendDone ==> e.sendPending)
          && |e.wire| <= 1
          && (sync.acknowledgedBytes == sync.snapshotBytes || e.inbox.Some? ==> e.wire == [])
          && (e.inbox.Some? && sync.snapshotBytes > 0 ==> sync.acknowledgedBytes < sync.snapshotBytes)
          && (sync.snapshotBytes == 0 ==> !sync.sendPending)
          && (!sync.established ==> sync.snapshotBytes == 0))
    && (sync.disconnectPending ==>
          sync.snapshotBytes == |file| && sync.acknowledgedBytes == |file| && !sync.sendPending && sync.established)
  }

  predicate PrimaryReaderOk(reader: SnapshotReader, sync: Sync, file: ByteString) {
    match reader
    case ReaderClosed => sync.disconnectPending
    case Reader(f, pos, remaining) =>
      && f == file && pos == sync.snapshotBytes && pos + remaining == |file| && !sync.disconnectPending
  }

  predicate PrimaryAofOk(base: Base, log: Log, p: Primary, x: Session) {
    && p.sync == NO_SYNC && p.reader.ReaderClosed?
    && (p.phase.CatchUp? ==> x.online.None? && p.aofReader.AofOpen?)
    && (p.phase.Online? ==> x.online.Some?)
    && match p.aofReader
       case AofOpen(offset, remaining) => offset == x.sent && IsBoundary(base, log, offset + remaining)
       case AofClosed => p.offset == x.sent && IsBoundary(base, log, x.sent)
  }

  predicate PrimaryOk(base: Base, log: Log, sessions: map<ByteString, Session>, open: set<nat>, p: Primary) {
    match p.session
    case None =>
      && p.syncId.None? && p.phase.Offline? && p.sync == NO_SYNC && p.reader.ReaderClosed? && p.aofReader.AofClosed?
    case Some(c) =>
      && p.syncId.Some? && p.syncId.value in sessions && c in open
      && var x := sessions[p.syncId.value];
         && x.conn == c && p.size == |x.file| && x.start <= |log|
         && match p.phase
            case FullSync =>
              && Untouched(base, log, x) && p.offset == x.sent && p.aofReader.AofClosed?
              && PrimarySyncOk(p.sync, x.file) && PrimaryReaderOk(p.reader, p.sync, x.file)
            case CatchUp => PrimaryAofOk(base, log, p, x)
            case Online => PrimaryAofOk(base, log, p, x)
            case _ => false
  }

  // ------------------------------------------------------------------- Replica

  /** `data` is the next part of the file after `from` bytes. */
  predicate NextPart(file: ByteString, from: nat, data: ByteString) {
    && 0 < |data| <= BUFFER_CAPACITY && from + |data| <= |file| && data == file[from..from + |data|]
  }

  predicate ReplicaSyncOk(sync: Sync, file: ByteString, nextLink: nat, accepted: set<nat>) {
    && sync.acknowledgedBytes <= sync.snapshotBytes <= |file|
    && (sync.endpoint.None? ==> sync == NO_SYNC)
    && (sync.endpoint.Some? ==>
          var e := sync.endpoint.value;
          && e.link < nextLink
          && (e.link in accepted ==> e.recvPending)
          && sync.sendPending == e.sendPending && (e.sendDone ==> e.sendPending)
          && |e.wire| <= 1
          && (sync.acknowledgedBytes < sync.snapshotBytes ==> e.wire == [] && e.inbox.None?)
          && (e.inbox.Some? ==> e.wire == [] && NextPart(file, sync.snapshotBytes, e.inbox.value))
          && (sync.established ==> e.link in accepted)
          && (!sync.established ==> sync.snapshotBytes == 0 && !sync.sendPending && e.wire == [] && e.inbox.None?))
  }

  /** The Replica's copy: engines and AOF as of log position `k`, byte for byte from the
      snapshot boundary on. */
  predicate CopyOk(base: Base, log: Log, aof: ByteString, x: Session, r: Replica, k: nat) {
    && x.start <= k <= |log|
    && Some(r.stores) == StoresAt(base, log, k)
    && |r.aof| == Off(base, log, k)
    && Off(base, log, x.start) <= Off(base, log, k) <= |aof|
    && r.aof[Off(base, log, x.start)..] == aof[Off(base, log, x.start)..Off(base, log, k)]
  }

  /** What is still to be read by a Replica that has applied `k` commands. */
  function Pending(base: Base, log: Log, aof: ByteString, x: Session, k: nat, online: bool): ByteString
    requires PositionsOk(base, log, aof, x) && k <= |log|
  {
    var from := Off(base, log, k);
    if !online && x.online.Some? then
      var to := Off(base, log, x.online.value);
      (if from <= to then aof[from..to] else []) + OnlineLine(to) + aof[to..x.sent]
    else if from <= x.sent then aof[from..x.sent]
    else []
  }

  predicate StreamOk(base: Base, log: Log, aof: ByteString, x: Session, r: Replica, k: nat, inFlight: ByteString)
    requires PositionsOk(base, log, aof, x) && k <= |log|
  {
    && Off(base, log, k) <= x.sent
    && (!r.phase.Online? && x.online.Some? ==>
        k <= x.online.value && Off(base, log, k) <= Off(base, log, x.online.value))
    && (r.phase.Online? ==> x.online.Some? && x.online.value <= k)
    && r.input + inFlight == Pending(base, log, aof, x, k, r.phase.Online?)
  }

  predicate ReplicaFullSyncOk(base: Base, log: Log, r: Replica, x: Session, inFlight: ByteString) {
    && Untouched(base, log, x) && r.offset == x.sent
    && r.sync.endpoint.Some? && r.sync.snapshotBytes < |x.file|
    && r.writer == Writer(x.file[..r.sync.snapshotBytes], |x.file| - r.sync.snapshotBytes)
    && r.input == [] && inFlight == []
  }

  predicate ReplicaCaughtUpOk(base: Base, log: Log, aof: ByteString, r: Replica, x: Session, k: nat,
                              inFlight: ByteString)
    requires PositionsOk(base, log, aof, x)
  {
    && r.writer.WriterClosed? && (r.phase.CatchUp? ==> r.installed == Some(x.file))
    && (r.sync.endpoint.Some? ==>
          && r.phase.CatchUp? && r.sync.established && r.sync.snapshotBytes == |x.file|
          && r.sync.endpoint.value.inbox.None? && r.input == [] && k == x.start)
    && CopyOk(base, log, aof, x, r, k)
    && StreamOk(base, log, aof, x, r, k, inFlight)
  }

  /** The Replica side after the notification. */
  predicate ReplicaSessionOk(s: System, c: nat)
    requires c in s.toReplica
  {
    && s.r.syncId.Some? && s.r.syncId.value in s.sessions
    && var x := s.sessions[s.r.syncId.value];
       && x.conn == c && s.r.size == |x.file|
       && PositionsOk(s.base, s.log, s.p.aof, x)
       && ReplicaSyncOk(s.r.sync, x.file, s.nextLink, s.accepted)
       && (c in s.received ==> Outstanding(s, c) == [])
       && (s.p.session == Some(c) ==> s.p.syncId == s.r.syncId)
       && (if s.r.phase.FullSync? then ReplicaFullSyncOk(s.base, s.log, s.r, x, s.toReplica[c])
           else ReplicaCaughtUpOk(s.base, s.log, s.p.aof, s.r, x, s.applied, s.toReplica[c]))
  }

  /** Control bytes the Primary has not acted on yet. */
  function Outstanding(s: System, c: nat): ByteString
    requires c in s.received
  {
    s.received[c] + (if c in s.toPrimary then s.toPrimary[c] else [])
  }

  /** The notification of session `id` is on its way. */
  predicate Notified(s: System, c: nat, id: ByteString)
    requires c in s.toReplica
  {
    && id in s.sessions
    && var x := s.sessions[id];
       && x.conn == c && Untouched(s.base, s.log, x)
       && s.r.input + s.toReplica[c]
          == ResyncFrame(Resync(x.replicationId, x.sent, |x.file|, x.port, id)) + CRLF
       && (s.p.syncId == Some(id) ==>
             && s.p.phase.FullSync? && s.p.sync.snapshotBytes == 0
             && (s.p.sync.endpoint.Some? ==> s.p.sync.endpoint.value.inbox.None?))
       && (s.p.session == Some(c) ==> s.p.syncId == Some(id))
  }

  /** The handshake has exactly one message under way, or none once the Primary has hung up. */
  predicate HandshakeOk(s: System, c: nat)
    requires c in s.toReplica
  {
    var pending := s.r.input + s.toReplica[c];
    var sent := if c in s.received then Outstanding(s, c) else [];
    && s.r.syncId.None? && s.r.sync == NO_SYNC && s.r.writer.WriterClosed?
    && (|| (sent == PING + CRLF && pending == [] && s.p.session != Some(c))
        || (sent == [] && pending == PONG + CRLF && s.p.session != Some(c))
        || (sent == PSYNC + CRLF && pending == [] && s.p.session != Some(c))
        || (sent == [] && pending == [] && c !in s.received)
        || (sent == [] && exists id :: id in s.sessions && Notified(s, c, id)))
  }

  predicate ReplicaOk(s: System) {
    match s.r.conn
    case None =>
      && s.r.phase.Offline? && s.r.syncId.None? && s.r.sync == NO_SYNC && s.r.writer.WriterClosed? && s.r.input == []
    case Some(c) =>
      && c in s.toReplica
      && match s.r.phase
         case Offline => false
         case Handshake => HandshakeOk(s, c)
         case _ => ReplicaSessionOk(s, c)
  }

  // ---------------------------------------------------------------------- RDMA

  /** No message of either side is under way. */
  predicate Quiet(a: Endpoint, b: Endpoint) {
    a.wire == [] && a.inbox.None? && b.wire == [] && b.inbox.None?
  }

  /** Exactly one message is under way from `a` to `b`, and nothing the other way. */
  predicate Carries(a: Endpoint, b: Endpoint, m: ByteString) {
    && b.wire == [] && a.inbox.None?
    && ((a.wire == [m] && b.inbox.None?) || (a.wire == [] && b.inbox == Some(m)))
  }

  /** The stages of the stop-and-wait transfer: not started, READY under way, a block under
      way, a block written, an acknowledgement under way, everything so far acknowledged. */
  predicate Matched(id: ByteString, p: Sync, r: Sync, file: ByteString)
    requires p.endpoint.Some? && r.endpoint.Some?
  {
    var a, b := p.endpoint.value, r.endpoint.value;
    || (Quiet(a, b) && !r.established && p.snapshotBytes == 0 && r.snapshotBytes == 0 && r.acknowledgedBytes == 0)
    || (Carries(b, a, ReadyLine(id)) && r.established && p.snapshotBytes == 0 && r.snapshotBytes == 0
        && r.acknowledgedBytes == 0)
    || (&& r.established && r.snapshotBytes < p.snapshotBytes <= |file|
        && p.snapshotBytes <= r.snapshotBytes + BUFFER_CAPACITY
        && Carries(a, b, file[r.snapshotBytes..p.snapshotBytes])
        && p.acknowledgedBytes == r.snapshotBytes && r.acknowledgedBytes == r.snapshotBytes)
    || (&& r.established && Quiet(a, b) && 0 < r.snapshotBytes == p.snapshotBytes
        && p.acknowledgedBytes == r.acknowledgedBytes < r.snapshotBytes)
    || (&& r.established && Carries(b, a, AckLine(r.snapshotBytes)) && 0 < r.snapshotBytes == p.snapshotBytes
        && p.acknowledgedBytes < r.acknowledgedBytes == r.snapshotBytes)
    || (&& r.established && Quiet(a, b) && 0 < r.snapshotBytes == p.snapshotBytes
        && p.acknowledgedBytes == r.acknowledgedBytes == r.snapshotBytes)
  }

  /** The Primary accepted a connection that belongs to another synchronisation: at most a
      READY with the wrong identifier arrives on it. */
  predicate Mismatched(id: ByteString, p: Sync, r: Sync)
    requires p.endpoint.Some? && r.endpoint.Some?
  {
    var a, b := p.endpoint.value, r.endpoint.value;
    && p.snapshotBytes == 0 && r.snapshotBytes == 0
    && ((Quiet(a, b) && !r.established) || (Carries(b, a, ReadyLine(id)) && r.established))
  }

  predicate LinkOk(sessions: map<ByteString, Session>, pId: Option<ByteString>, p: Sync, rId: Option<ByteString>,
                   r: Sync) {
    && (SameLink(p, r) ==>
          && pId.Some? && rId.Some? && rId.value in sessions
          && if pId == rId then Matched(rId.value, p, r, sessions[rId.value].file) else Mismatched(rId.value, p, r))
    && (p.endpoint.Some? && r.endpoint.Some? && pId == rId && !SameLink(p, r) ==>
          p.snapshotBytes == 0 && p.endpoint.value.inbox.None?)
  }

  /** Once the Primary has left the full synchronisation, so has the Replica. */
  predicate OrderOk(p: Primary, r: Replica) {
    p.syncId.Some? && p.syncId == r.syncId && (p.phase.CatchUp? || p.phase.Online?) ==>
      r.phase.CatchUp? || r.phase.Online?
  }

  predicate NamesOk(s: System) {
    && (forall c :: c in s.received ==> c < s.nextConn)
    && (forall c :: c in s.toReplica ==> c < s.nextConn)
    && (s.r.conn.Some? ==> s.r.conn.value < s.nextConn)
    && (forall l :: l in s.accepted ==> l < s.nextLink)
    && (s.p.sync.endpoint.Some? ==> s.p.sync.endpoint.value.link in s.accepted)
    && (forall c :: c in s.received ==> c in s.toPrimary)
  }

  predicate SessionsOk(s: System) {
    forall id :: id in s.sessions ==> SessionOk(s.base, s.log, s.p.aof, s.nextConn, id, s.sessions[id])
  }

  ghost predicate Inv(s: System) {
    && LogOk(s.base, s.log, s.p.stores, s.p.aof)
    && SessionsOk(s)
    && PrimaryOk(s.base, s.log, s.sessions, s.received.Keys, s.p)
    && ReplicaOk(s)
    && LinkOk(s.sessions, s.p.syncId, s.p.sync, s.r.syncId, s.r.sync)
    && OrderOk(s.p, s.r)
    && NamesOk(s)
    && !s.overrun
  }
}
