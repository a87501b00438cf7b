/** Primary, Replica, their TCP connections and the RDMA connection as one state machine. A
    step is one callback of either side, one action of the network, or one client command;
    all nondeterminism is in the choice of the step and its arguments. */
module Cluster {
  import opened Bytes
  import opened Codec
  import opened Store
  import opened Aof
  import opened Snapshot
  import opened Rdma
  import opened ControlLines
  import opened Replication

  /** AOF contents and engine state with which the Primary entered service. */
  datatype Base = Base(aof: ByteString, stores: Stores)

  /** History of one full synchronisation: its connection, the log position of its snapshot,
      the snapshot file, how far the AOF has been sent, where ONLINE was announced, and all
      bytes written to TCP after the notification. */
  datatype Session = Session(
    conn: nat,
    start: nat,
    file: ByteString,
    replicationId: ByteString,
    port: nat,
    sent: nat,
    online: Option<nat>,
    emitted: ByteString)

  /** `toReplica` and `toPrimary` are the bytes in flight on each TCP connection, `received` the
      input the Primary has not consumed yet (its keys are the connections it holds open).
      `base`, `log`, `sessions`, `applied`, `committed` (the last snapshot file a transfer put
      in place) and `overrun` only record history. */
  datatype System = System(
    p: Primary,
    r: Replica,
    toReplica: map<nat, ByteString>,
    toPrimary: map<nat, ByteString>,
    received: map<nat, ByteString>,
    nextConn: nat,
    nextLink: nat,
    accepted: set<nat>,
    base: Base,
    log: Log,
    sessions: map<ByteString, Session>,
    applied: nat,
    committed: Option<ByteString>,
    overrun: bool)

  datatype Step =
    | ClientWrite(fields: Fields)
    | Connect
    | PrimaryRecv(conn: nat, k: nat)
    | PrimaryHandle(conn: nat, capacity: nat, psync: PsyncInput)
    | PrimaryPoll(event: CmEvent, completion: Completion, k: nat)
    | PrimaryClose(conn: nat)
    | PrimaryCompletesSend
    | DeliverToReplica
    | ReplicaRecv(k: nat)
    | ReplicaHandle
    | ReplicaPoll(event: CmEvent, completion: Completion)
    | ReplicaSave(file: ByteString)
    | ReplicaClose
    | ReplicaRestart
    | ReplicaCompletesSend
    | DeliverToPrimary

  // ------------------------------------------------------------ history terms

  /** Length of the AOF after the first `k` logged commands. */
  function Off(base: Base, log: Log, k: nat): nat
    requires k <= |log|
  {
    |base.aof| + |EncodeLog(log[..k])|
  }

  /** The engines after the first `k` logged commands. */
  function StoresAt(base: Base, log: Log, k: nat): Option<Stores>
    requires k <= |log|
  {
    ApplyAll(base.stores, log[..k])
  }

  predicate IsBoundary(base: Base, log: Log, offset: nat) {
    exists k :: 0 <= k <= |log| && Off(base, log, k) == offset
  }

  /** `file` is a snapshot of `s` taken at AOF offset `offset`. */
  ghost predicate IsSnapshotOf(file: ByteString, s: Stores, offset: nat) {
    exists rs :: Enumerates(rs, s) && Savable(rs, Some(offset)) && file == FileBytes(rs, Some(offset))
  }

  // -------------------------------------------------------------------- steps

  /** Appending to a connection that is still there. */
  function Push(m: map<nat, ByteString>, conn: nat, bytes: ByteString): map<nat, ByteString> {
    if conn in m then m[conn := m[conn] + bytes] else m
  }

  /** `server_reader` closing a Primary-side connection and running its close handler. */
  function ClosePrimary(s: System, p: Primary, conn: nat): System {
    s.(p := PrimaryDisconnected(p, conn), received := s.received - {conn}, toPrimary := s.toPrimary - {conn})
  }

  function CloseReplica(s: System, r: Replica): System {
    s.(r := ReplicaDisconnected(r))
  }

  function DoClientWrite(s: System, fields: Fields): System {
    match Apply(s.p.stores, fields)
    case None => s
    case Some(stores) =>
      var aof := s.p.aof + EncodeCommand(fields);
      if !Loggable(fields) || |aof| > INT64_MAX then s
      else s.(p := s.p.(stores := stores, aof := aof), log := s.log + [fields])
  }

  function DoConnect(s: System): System {
    if s.r.conn.Some? then s
    else
      var c := s.nextConn;
      s.(r := ReplicaConnected(s.r, c), nextConn := c + 1,
         toReplica := s.toReplica[c := []],
         toPrimary := s.toPrimary[c := PING + CRLF],
         received := s.received[c := []])
  }

  function DoPrimaryRecv(s: System, c: nat, k: nat): System {
    if c !in s.received || c !in s.toPrimary || k > |s.toPrimary[c]| then s
    else s.(received := s.received[c := s.received[c] + s.toPrimary[c][..k]],
            toPrimary := s.toPrimary[c := s.toPrimary[c][k..]])
  }

  /** What the surroundings guarantee about a PSYNC: the save wrote a snapshot of the current
      engines at the current AOF offset, and the random identifier is new. */
  ghost predicate PsyncInputOk(s: System, psync: PsyncInput) {
    && IsSnapshotOf(psync.file, s.p.stores, |s.p.aof|) && |psync.file| <= INT64_MAX
    && IsId(psync.syncId) && psync.syncId !in s.sessions
    && IsId(psync.replicationId) && 0 < psync.port <= 65535
  }

  function NewSession(s: System, c: nat, psync: PsyncInput): Session {
    Session(c, |s.log|, psync.file, psync.replicationId, psync.port, |s.p.aof|, None, [])
  }

  /** A batch that starts a session gets a valid snapshot and a new identifier from its
      surroundings; any other batch does not look at them. */
  ghost function DoPrimaryHandle(s: System, c: nat, capacity: nat, psync: PsyncInput): System {
    if c !in s.received || s.received[c] == [] then s
    else
      var batch := PrimaryBatch(s.p, c, s.received[c], capacity, psync);
      var created := s.p.session.None? && batch.state.session.Some?;
      if created && !PsyncInputOk(s, psync) then s
      else
        var s' := if created then s.(sessions := s.sessions[psync.syncId := NewSession(s, c, psync)]) else s;
        match batch
        case BatchFailed(p') => ClosePrimary(s', p', c)
        case Batch(p', response, rest) =>
          s'.(p := p', received := s.received[c := rest], toReplica := Push(s.toReplica, c, response))
  }

  /** Recording what the Primary wrote to TCP. */
  function Recorded(x: Session, announced: bool, position: nat, bytes: ByteString): Session {
    if announced then x.(online := Some(position), emitted := x.emitted + bytes)
    else x.(sent := x.sent + |bytes|, emitted := x.emitted + bytes)
  }

  /** Connection requests come from connections that were really started, once each, and only
      after the starting side has posted its receive. */
  predicate PrimaryEventOk(s: System, event: CmEvent) {
    match event
    case Accepting(link) =>
      && link < s.nextLink && link !in s.accepted
      && (s.r.sync.endpoint.Some? && s.r.sync.endpoint.value.link == link ==> s.r.sync.endpoint.value.recvPending)
    case Established => !s.p.sync.established
    case _ => true
  }

  function DoPrimaryPoll(s: System, event: CmEvent, completion: Completion, k: nat): System {
    if s.p.session.None? || s.p.syncId.None? || !PrimaryEventOk(s, event) then s
    else
      var c, id := s.p.session.value, s.p.syncId.value;
      var step := PrimaryStream(s.p, c, event, completion, k);
      var s' := if event.Accepting? && s.p.phase.FullSync? then s.(accepted := s.accepted + {event.link}) else s;
      match step.result
      case Failed => ClosePrimary(s', step.state, c)
      case Emit(bytes) =>
        var announced := step.state.phase.Online? && !s.p.phase.Online?;
        s'.(p := step.state, toReplica := Push(s.toReplica, c, bytes),
            sessions := if id in s.sessions
                        then s.sessions[id := Recorded(s.sessions[id], announced, |s.log|, bytes)] else s.sessions)
      case _ => s'.(p := step.state)
  }

  function DoPrimaryClose(s: System, c: nat): System {
    if c in s.received then ClosePrimary(s, s.p, c) else s
  }

  /** The network card reports a SEND as finished. */
  function SendFinished(sync: Sync): Sync {
    if sync.endpoint.Some? && sync.endpoint.value.sendPending
    then sync.(endpoint := Some(sync.endpoint.value.(sendDone := true))) else sync
  }

  predicate SameLink(a: Sync, b: Sync) {
    a.endpoint.Some? && b.endpoint.Some? && a.endpoint.value.link == b.endpoint.value.link
  }

  /** The oldest message on the wire reaches the peer; without a posted receive it overruns. */
  function Deliver(s: System, from: Sync, to: Sync): (r: (Sync, Sync, bool))
    requires SameLink(from, to)
  {
    var a, b := from.endpoint.value, to.endpoint.value;
    if a.wire == [] then (from, to, false)
    else if !b.recvPending || b.inbox.Some? then (from.(endpoint := Some(a.(wire := a.wire[1..]))), to, true)
    else (from.(endpoint := Some(a.(wire := a.wire[1..]))), to.(endpoint := Some(b.(inbox := Some(a.wire[0])))), false)
  }

  function DoDeliverToReplica(s: System): System {
    if !SameLink(s.p.sync, s.r.sync) then s
    else
      var (a, b, over) := Deliver(s, s.p.sync, s.r.sync);
      s.(p := s.p.(sync := a), r := s.r.(sync := b), overrun := s.overrun || over)
  }

  function DoDeliverToPrimary(s: System): System {
    if !SameLink(s.p.sync, s.r.sync) then s
    else
      var (a, b, over) := Deliver(s, s.r.sync, s.p.sync);
      s.(r := s.r.(sync := a), p := s.p.(sync := b), overrun := s.overrun || over)
  }

  /** The Replica reads TCP only while no RDMA connection is open: until then its coroutine
      stays in the stream callback. */
  predicate ReplicaReadsTcp(s: System) {
    s.r.conn.Some? && s.r.conn.value in s.toReplica && s.r.sync.endpoint.None?
  }

  function DoReplicaRecv(s: System, k: nat): System {
    if !ReplicaReadsTcp(s) || k > |s.toReplica[s.r.conn.value]| then s
    else
      var c := s.r.conn.value;
      s.(r := s.r.(input := s.r.input + s.toReplica[c][..k]), toReplica := s.toReplica[c := s.toReplica[c][k..]])
  }

  function DoReplicaHandle(s: System): System {
    if !ReplicaReadsTcp(s) || s.r.input == [] then s
    else
      match UpstreamProtocol(s.r, s.r.input, s.nextLink)
      case HandleFailed(r') => CloseReplica(s, r')
      case Handled(r', response, consumed) =>
        if consumed > |s.r.input| then CloseReplica(s, r')
        else
          s.(r := r'.(input := s.r.input[consumed..]),
             toPrimary := Push(s.toPrimary, s.r.conn.value, response),
             nextLink := s.nextLink + 1,
             applied := if |r'.aof| > |s.r.aof| then s.applied + 1 else s.applied)
  }

  predicate ReplicaEventOk(s: System, event: CmEvent) {
    match event
    case Established =>
      && !s.r.sync.established && s.r.sync.endpoint.Some? && s.r.sync.endpoint.value.link in s.accepted
    case _ => true
  }

  function DoReplicaPoll(s: System, event: CmEvent, completion: Completion): System {
    if s.r.conn.None? || s.r.syncId.None? || !ReplicaEventOk(s, event) then s
    else
      var step := ReplicaStream(s.r, event, completion);
      if step.result.Failed? then CloseReplica(s, step.state)
      else
        s.(r := step.state,
           applied := if s.r.phase.FullSync? && step.state.phase.CatchUp? && s.r.syncId.value in s.sessions
                      then s.sessions[s.r.syncId.value].start else s.applied,
           committed := if s.r.phase.FullSync? && step.state.phase.CatchUp? then step.state.installed else s.committed)
  }

  /** A client's SAVE on the Replica: refused until it is online, then a snapshot of its own
      engines at its own AOF offset replaces the file at the final path. */
  ghost function DoReplicaSave(s: System, file: ByteString): System {
    if IsOnline(s.r) && IsSnapshotOf(file, s.r.stores, |s.r.aof|) then s.(r := s.r.(installed := Some(file))) else s
  }

  /** A new Replica process: only the files survive. */
  function Fresh(r: Replica): Replica {
    Replica(EMPTY, r.aof, Offline, None, None, |r.aof|, 0, WriterClosed, r.installed, NO_SYNC, [])
  }

  ghost function Next(s: System, step: Step): System {
    match step
    case ClientWrite(fields) => DoClientWrite(s, fields)
    case Connect => DoConnect(s)
    case PrimaryRecv(c, k) => DoPrimaryRecv(s, c, k)
    case PrimaryHandle(c, capacity, psync) => DoPrimaryHandle(s, c, capacity, psync)
    case PrimaryPoll(event, completion, k) => DoPrimaryPoll(s, event, completion, k)
    case PrimaryClose(c) => DoPrimaryClose(s, c)
    case PrimaryCompletesSend => s.(p := s.p.(sync := SendFinished(s.p.sync)))
    case DeliverToReplica => DoDeliverToReplica(s)
    case ReplicaRecv(k) => DoReplicaRecv(s, k)
    case ReplicaHandle => DoReplicaHandle(s)
    case ReplicaPoll(event, completion) => DoReplicaPoll(s, event, completion)
    case ReplicaSave(file) => DoReplicaSave(s, file)
    case ReplicaClose => if s.r.conn.Some? then CloseReplica(s, s.r) else s
    case ReplicaRestart => s.(r := Fresh(s.r))
    case ReplicaCompletesSend => s.(r := s.r.(sync := SendFinished(s.r.sync)))
    case DeliverToPrimary => DoDeliverToPrimary(s)
  }

  ghost function Run(s: System, steps: seq<Step>): System {
    if steps == [] then s else Next(Run(s, steps[..|steps| - 1]), steps[|steps| - 1])
  }

  /** The Primary recovered `base`, no connection exists, and the Replica has just started
      with whatever files a previous life left behind. */
  predicate Initial(s: System) {
    && s.p == Primary(s.base.stores, s.base.aof, Offline, None, None, |s.base.aof|, 0, ReaderClosed, AofClosed, NO_SYNC)
    && |s.base.aof| <= INT64_MAX && |s.base.stores.arrayTable| <= ARRAY_SIZE
    && s.r == Fresh(s.r)
    && s.toReplica == map[] && s.toPrimary == map[] && s.received == map[]
    && s.nextConn == 0 && s.nextLink == 0 && s.accepted == {}
    && s.log == [] && s.sessions == map[] && s.applied == 0 && s.committed.None? && !s.overrun
  }
}
