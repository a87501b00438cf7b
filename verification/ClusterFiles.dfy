/** The file at the Replica's final snapshot path: which steps replace it, with what, and what
    being online says about it. */
module ClusterFiles {
  import opened Bytes
  import opened Codec
  import opened Store
  import opened Aof
  import opened Snapshot
  import opened Rdma
  import opened ControlLines
  import opened Replication
  import opened Cluster
  import opened ClusterInvariant
  import opened ClusterGrowth
  import opened ClusterNetwork
  import opened ClusterReplica
  import opened ClusterTheorems

  // ---------------------------------------------------- which steps replace it

  /** The callback of the Replica takes the last block of the announced file. */
  predicate CompletesTransfer(s: System, step: Step) {
    && step.ReplicaPoll? && step.event.NoEvent? && step.completion.RecvCompletion?
    && s.r.conn.Some? && s.r.phase.FullSync? && s.r.writer.Writer?
    && s.r.sync.endpoint.Some? && s.r.sync.endpoint.value.inbox.Some?
    && |s.r.sync.endpoint.value.inbox.value| == s.r.writer.remaining
  }

  /** A client's SAVE that is carried out. */
  ghost predicate Saves(s: System, step: Step) {
    step.ReplicaSave? && IsOnline(s.r) && IsSnapshotOf(step.file, s.r.stores, |s.r.aof|)
  }

  /** The final snapshot path is written by exactly two kinds of steps: the completion of a
      transfer puts the whole announced file there, of exactly the announced size, and a SAVE of
      an online Replica puts a snapshot of its own engines there. */
  lemma InstalledExactly(s: System, step: Step)
    requires Inv(s)
    ensures CompletesTransfer(s, step) ==>
              && s.r.syncId.Some? && s.r.syncId.value in s.sessions
              && var x := s.sessions[s.r.syncId.value];
                 && Next(s, step).r.installed == Some(x.file) == Next(s, step).committed
                 && |x.file| == s.r.size && Some(x.conn) == s.r.conn
    ensures Saves(s, step) ==> Next(s, step).r.installed == Some(step.file)
    ensures !CompletesTransfer(s, step) && !Saves(s, step) ==> Next(s, step).r.installed == s.r.installed
  {
    hide Inv, DoClientWrite, DoConnect, DoPrimaryRecv, DoPrimaryHandle, DoPrimaryPoll, DoPrimaryClose,
         DoDeliverToReplica, DoReplicaRecv, DoDeliverToPrimary, DoReplicaPoll, DoReplicaHandle, ReplicaStream,
         IsSnapshotOf;
    if step.ReplicaPoll? {
      PollInstalls(s, step);
    } else if step.ReplicaHandle? {
      HandlerKeepsInstalled(s);
    } else if !step.ReplicaSave? {
      OtherStepsKeepInstalled(s, step);
    }
  }

  lemma PollInstalls(s: System, step: Step)
    requires Inv(s) && step.ReplicaPoll?
    ensures CompletesTransfer(s, step) ==>
              && s.r.syncId.Some? && s.r.syncId.value in s.sessions
              && var x := s.sessions[s.r.syncId.value];
                 && Next(s, step).r.installed == Some(x.file) == Next(s, step).committed
                 && |x.file| == s.r.size && Some(x.conn) == s.r.conn
    ensures !CompletesTransfer(s, step) ==> Next(s, step).r.installed == s.r.installed
  {
    hide Inv, ReplicaStream, FinishFullSync, Truncate;
    InstalledByStream(s.r, step.event, step.completion);
    if s.r.syncId.Some? {
      EventFacts(s);
    }
    if CompletesTransfer(s, step) {
      LastBlock(s);
      SizeAnnounced(s);
    }
  }

  /** What the invariant says about the connection before a callback. */
  lemma EventFacts(s: System)
    requires Inv(s) && s.r.syncId.Some?
    ensures s.r.sync.endpoint.Some? && s.r.sync.endpoint.value.inbox.Some? ==>
              && s.r.sync.established && s.r.sync.endpoint.value.recvPending
              && s.r.sync.acknowledgedBytes == s.r.sync.snapshotBytes
              && 0 < |s.r.sync.endpoint.value.inbox.value| <= BUFFER_CAPACITY
  {
    hide LogOk, PrimaryOk, SessionsOk, LinkOk, CopyOk, StreamOk;
  }

  /** The callback that takes the last block. */
  lemma LastBlock(s: System)
    requires Inv(s) && s.r.conn.Some? && s.r.phase.FullSync? && s.r.writer.Writer?
    requires s.r.sync.endpoint.Some? && s.r.sync.endpoint.value.inbox.Some?
    requires |s.r.sync.endpoint.value.inbox.value| == s.r.writer.remaining
    ensures s.r.syncId.Some? && s.r.syncId.value in s.sessions
    ensures var step := ReplicaStream(s.r, NoEvent, RecvCompletion);
            && !step.result.Failed? && step.state.phase.CatchUp?
            && step.state.installed == Some(s.sessions[s.r.syncId.value].file)
  {
    hide Inv, ReplicaStream, Truncate;
    SessionKnown(s);
    EventFacts(s);
    InstallOk(s, s.r.sync.endpoint.value.inbox.value);
    LastRound(s.r, s.sessions[s.r.syncId.value].file);
  }

  lemma LastRound(r: Replica, file: ByteString)
    requires r.phase.FullSync? && r.writer.Writer? && r.sync.endpoint.Some? && r.sync.endpoint.value.inbox.Some?
    requires r.sync.established && r.sync.endpoint.value.recvPending && r.sync.acknowledgedBytes == r.sync.snapshotBytes
    requires var data := r.sync.endpoint.value.inbox.value;
             && 0 < |data| <= BUFFER_CAPACITY && |data| == r.writer.remaining
             && FinishFullSync(r.(writer := Writer(r.writer.file + data, 0))).phase.CatchUp?
             && FinishFullSync(r.(writer := Writer(r.writer.file + data, 0))).installed == Some(file)
    ensures var step := ReplicaStream(r, NoEvent, RecvCompletion);
            !step.result.Failed? && step.state.phase.CatchUp? && step.state.installed == Some(file)
  {
    hide FinishFullSync, ReadyLine, AckLine;
  }

  lemma SessionKnown(s: System)
    requires Inv(s) && s.r.conn.Some? && s.r.phase.FullSync?
    ensures s.r.syncId.Some? && s.r.syncId.value in s.sessions
  {
  }

  lemma OtherStepsKeepInstalled(s: System, step: Step)
    requires !step.ReplicaPoll? && !step.ReplicaHandle? && !step.ReplicaSave?
    ensures Next(s, step).r.installed == s.r.installed
  {
    hide DoClientWrite, DoPrimaryRecv, DoPrimaryHandle, DoPrimaryPoll, DoPrimaryClose, SendFinished;
    if PrimarySide(step) {
      PrimarySideKeepsReplica(s, step);
    }
  }

  lemma HandlerKeepsInstalled(s: System)
    ensures DoReplicaHandle(s).r.installed == s.r.installed
  {
    hide UpstreamProtocol;
    if ReplicaReadsTcp(s) && s.r.input != [] {
      ProtocolKeepsInstalled(s.r, s.r.input, s.nextLink);
    }
  }

  lemma ProtocolKeepsInstalled(r: Replica, input: ByteString, link: nat)
    requires input != []
    ensures var h := UpstreamProtocol(r, input, link); h.state.installed == r.installed
  {
    hide EncodeCommand, ParseCommand, Apply, ParseResync, ParseOnline, FirstLine;
  }

  lemma InstalledByStream(r: Replica, event: CmEvent, completion: Completion)
    ensures var q := ReplicaStream(r, event, completion).state;
            q.installed != r.installed ==>
              && r.writer.Writer? && r.phase.FullSync? && r.sync.endpoint.Some?
              && r.sync.endpoint.value.inbox.Some? && completion.RecvCompletion?
              && |r.sync.endpoint.value.inbox.value| == r.writer.remaining
              && (event.RouteResolved? ==> !r.sync.endpoint.value.recvPending)
              && (event.NoEvent? || event.RouteResolved? || event.Established?)
  {
    hide Load, ReadyLine, AckLine;
  }

  lemma SizeAnnounced(s: System)
    requires Inv(s) && s.r.syncId.Some?
    ensures s.r.conn.Some? && s.r.syncId.value in s.sessions
    ensures |s.sessions[s.r.syncId.value].file| == s.r.size && Some(s.sessions[s.r.syncId.value].conn) == s.r.conn
  {
    hide LogOk, PrimaryOk, SessionsOk, LinkOk, CopyOk, StreamOk;
  }

  // ------------------------------------------------------- what the file always is

  /** `file` loads as the Primary's engines after `j` logged commands, with that boundary. */
  predicate SnapshotAt(base: Base, log: Log, j: nat, file: ByteString) {
    && j <= |log| && StoresAt(base, log, j).Some?
    && Load(file) == Loaded(StoresAt(base, log, j).value, Some(Off(base, log, j)))
  }

  /** The file at the final path is such a snapshot, taken between `from` and `k`. */
  ghost predicate InstalledLoads(base: Base, log: Log, from: nat, k: nat, installed: Option<ByteString>) {
    installed.Some? && exists j: nat {:trigger SnapshotAt(base, log, j, installed.value)} ::
      from <= j <= k && SnapshotAt(base, log, j, installed.value)
  }

  /** Past its full synchronisation a Replica has committed the announced file of its session,
      and the final path holds it or a later snapshot of the same history. */
  ghost predicate Files(s: System) {
    s.r.phase.CatchUp? || s.r.phase.Online? ==>
      && s.r.syncId.Some? && s.r.syncId.value in s.sessions
      && s.committed == Some(s.sessions[s.r.syncId.value].file)
      && InstalledLoads(s.base, s.log, s.sessions[s.r.syncId.value].start, s.applied, s.r.installed)
  }

  predicate PastSync(r: Replica) {
    r.phase.CatchUp? || r.phase.Online?
  }

  lemma SnapshotStays(base: Base, log: Log, more: Log, j: nat, file: ByteString)
    requires SnapshotAt(base, log, j, file)
    ensures SnapshotAt(base, log + more, j, file)
  {
    hide Load, EncodeLog, ApplyAll;
    assert (log + more)[..j] == log[..j];
  }

  /** A step that leaves the files alone. */
  lemma FilesFrame(s: System, t: System, more: Log)
    requires Files(s)
    requires PastSync(t.r) ==>
               && PastSync(s.r) && t.r.syncId == s.r.syncId && t.r.installed == s.r.installed
               && t.committed == s.committed
               && t.base == s.base && t.log == s.log + more && s.applied <= t.applied
               && t.r.syncId.Some? && t.r.syncId.value in s.sessions && t.r.syncId.value in t.sessions
               && t.sessions[t.r.syncId.value].file == s.sessions[t.r.syncId.value].file
               && t.sessions[t.r.syncId.value].start == s.sessions[t.r.syncId.value].start
    ensures Files(t)
  {
    hide SnapshotAt;
    if PastSync(t.r) {
      var file, start := s.r.installed.value, s.sessions[s.r.syncId.value].start;
      var j: nat :| start <= j <= s.applied && SnapshotAt(s.base, s.log, j, file);
      SnapshotStays(s.base, s.log, more, j, file);
    }
  }

  lemma FilesStep(s: System, step: Step)
    requires Inv(s) && Files(s)
    ensures Files(Next(s, step))
  {
    hide Inv, Files, DoClientWrite, DoConnect, DoPrimaryRecv, DoPrimaryHandle, DoPrimaryPoll, DoPrimaryClose,
         DoDeliverToReplica, DoReplicaRecv, DoDeliverToPrimary, DoReplicaPoll, DoReplicaHandle, DoReplicaSave,
         SendFinished, ClosePrimary;
    match step
    case ClientWrite(_) => FilesPrimarySide(s, step);
    case PrimaryRecv(_, _) => FilesPrimarySide(s, step);
    case PrimaryHandle(_, _, _) => FilesPrimarySide(s, step);
    case PrimaryPoll(_, _, _) => FilesPrimarySide(s, step);
    case PrimaryClose(_) => FilesPrimarySide(s, step);
    case PrimaryCompletesSend => FilesPrimarySide(s, step);
    case ReplicaHandle => FilesHandle(s);
    case ReplicaPoll(event, completion) => FilesPoll(s, event, completion);
    case ReplicaSave(file) => FilesSave(s, file);
    case _ => FilesQuiet(s, step);
  }

  lemma Known(s: System)
    requires Inv(s) && PastSync(s.r)
    ensures s.r.conn.Some? && s.r.syncId.Some? && s.r.syncId.value in s.sessions
  {
    hide LogOk, PrimaryOk, SessionsOk, LinkOk, CopyOk, StreamOk;
  }

  lemma FilesPrimarySide(s: System, step: Step)
    requires Inv(s) && Files(s) && PrimarySide(step)
    ensures Files(Next(s, step))
  {
    hide Inv, Files, Next;
    PrimarySideKeepsReplica(s, step);
    if PastSync(s.r) {
      Known(s);
      var more := PrimarySideHistory(s, step, s.r.syncId.value);
      FilesFrame(s, Next(s, step), more);
    } else {
      FilesFrame(s, Next(s, step), []);
    }
  }

  lemma PrimarySideHistory(s: System, step: Step, id: ByteString) returns (more: Log)
    requires PrimarySide(step) && id in s.sessions
    ensures var t := Next(s, step);
            && t.committed == s.committed && t.base == s.base && t.log == s.log + more && t.applied == s.applied
            && id in t.sessions && t.sessions[id].file == s.sessions[id].file
            && t.sessions[id].start == s.sessions[id].start
  {
    hide DoClientWrite, DoPrimaryRecv, DoPrimaryHandle, DoPrimaryPoll, DoPrimaryClose, SendFinished;
    assert s.log + [] == s.log;
    match step
    case ClientWrite(fields) => more := WriteHistory(s, fields);
    case PrimaryRecv(c, k) =>
      more := [];
      assert DoPrimaryRecv(s, c, k)
             == s.(received := DoPrimaryRecv(s, c, k).received, toPrimary := DoPrimaryRecv(s, c, k).toPrimary) by {
        ReceiveHistory(s, c, k);
      }
    case PrimaryHandle(c, capacity, psync) =>
      more := [];
      HandleHistory(s, c, capacity, psync);
    case PrimaryPoll(event, completion, k) =>
      more := [];
      PollHistory(s, event, completion, k);
    case PrimaryClose(c) =>
      more := [];
      CloseHistory(s, c);
    case _ => more := [];
  }

  lemma WriteHistory(s: System, fields: Fields) returns (more: Log)
    ensures var t := DoClientWrite(s, fields); t == s.(p := t.p, log := s.log + more)
  {
    hide EncodeCommand, Apply, Loggable;
    more := if DoClientWrite(s, fields) != s then [fields] else [];
    assert s.log + [] == s.log;
  }

  lemma ReceiveHistory(s: System, c: nat, k: nat)
    ensures var t := DoPrimaryRecv(s, c, k); t == s.(received := t.received, toPrimary := t.toPrimary)
  {
  }

  /** Sessions are never forgotten, and what they announced never changes. */
  ghost predicate Remembered(before: map<ByteString, Session>, after: map<ByteString, Session>) {
    forall id {:trigger after[id]} {:trigger before[id]} :: id in before ==>
             id in after && RecordedKeeps(before[id], after[id])
  }

  predicate RecordedKeeps(x: Session, y: Session) {
    y.file == x.file && y.start == x.start && y.conn == x.conn
  }

  lemma HandleHistory(s: System, c: nat, capacity: nat, psync: PsyncInput)
    ensures var t := DoPrimaryHandle(s, c, capacity, psync);
            && t == s.(p := t.p, received := t.received, toPrimary := t.toPrimary, toReplica := t.toReplica,
                       sessions := t.sessions)
            && Remembered(s.sessions, t.sessions)
  {
    hide PrimaryBatch, NewSession, ClosePrimary, IsSnapshotOf, Push;
    if c in s.received {
      var s' := s.(sessions := s.sessions[psync.syncId := NewSession(s, c, psync)]);
      var q := PrimaryBatch(s.p, c, s.received[c], capacity, psync).state;
      ClosedHistory(s, q, c);
      ClosedHistory(s', q, c);
    }
  }

  lemma PollHistory(s: System, event: CmEvent, completion: Completion, k: nat)
    ensures var t := DoPrimaryPoll(s, event, completion, k);
            && t == s.(p := t.p, received := t.received, toPrimary := t.toPrimary, toReplica := t.toReplica,
                       sessions := t.sessions, accepted := t.accepted)
            && Remembered(s.sessions, t.sessions)
  {
    hide Remembered, DoPrimaryPoll;
    PollFrame(s, event, completion, k);
    PollRemembers(s, event, completion, k);
  }

  lemma PollFrame(s: System, event: CmEvent, completion: Completion, k: nat)
    ensures var t := DoPrimaryPoll(s, event, completion, k);
            t == s.(p := t.p, received := t.received, toPrimary := t.toPrimary, toReplica := t.toReplica,
                    sessions := t.sessions, accepted := t.accepted)
  {
    hide PrimaryStream, PrimaryEventOk, Recorded, Push, ClosePrimary;
    if s.p.session.Some? && s.p.syncId.Some? && PrimaryEventOk(s, event) {
      var c := s.p.session.value;
      var step := PrimaryStream(s.p, c, event, completion, k);
      var s' := if event.Accepting? && s.p.phase.FullSync? then s.(accepted := s.accepted + {event.link}) else s;
      if step.result.Failed? {
        ClosedHistory(s', step.state, c);
      } else if step.result.Emit? {
        assert DoPrimaryPoll(s, event, completion, k).sessions.Keys == s.sessions.Keys;
      }
    }
  }

  lemma PollRemembers(s: System, event: CmEvent, completion: Completion, k: nat)
    ensures Remembered(s.sessions, DoPrimaryPoll(s, event, completion, k).sessions)
  {
    hide PrimaryStream, PrimaryEventOk, Recorded, Push, Remembered, PrimaryDisconnected;
    SameSessions(s.sessions);
    if s.p.session.Some? && s.p.syncId.Some? {
      var id := s.p.syncId.value;
      var step := PrimaryStream(s.p, s.p.session.value, event, completion, k);
      if id in s.sessions && step.result.Emit? {
        MoreRecorded(s.sessions, id, step.state.phase.Online? && !s.p.phase.Online?, |s.log|, step.result.bytes);
      }
    }
  }

  lemma SameSessions(m: map<ByteString, Session>)
    ensures Remembered(m, m)
  {
  }

  lemma MoreRecorded(m: map<ByteString, Session>, id: ByteString, announced: bool, position: nat, bytes: ByteString)
    requires id in m
    ensures Remembered(m, m[id := Recorded(m[id], announced, position, bytes)])
  {
  }

  lemma ClosedHistory(s: System, p: Primary, c: nat)
    ensures var t := ClosePrimary(s, p, c); t == s.(p := t.p, received := t.received, toPrimary := t.toPrimary)
  {
  }

  lemma CloseHistory(s: System, c: nat)
    ensures var t := DoPrimaryClose(s, c); t == s.(p := t.p, received := t.received, toPrimary := t.toPrimary)
  {
    hide ClosePrimary;
    ClosedHistory(s, s.p, c);
  }

  /** Steps that move bytes or messages only, and the Replica's comings and goings. */
  lemma FilesQuiet(s: System, step: Step)
    requires Inv(s) && Files(s)
    requires step.Connect? || step.DeliverToReplica? || step.ReplicaRecv? || step.ReplicaClose? || step.ReplicaRestart?
             || step.ReplicaCompletesSend? || step.DeliverToPrimary?
    ensures Files(Next(s, step))
  {
    hide Inv, Files, Next;
    assert s.log + [] == s.log;
    QuietHistory(s, step);
    if PastSync(s.r) {
      Known(s);
    }
    FilesFrame(s, Next(s, step), []);
  }

  lemma QuietHistory(s: System, step: Step)
    requires step.Connect? || step.DeliverToReplica? || step.ReplicaRecv? || step.ReplicaClose? || step.ReplicaRestart?
             || step.ReplicaCompletesSend? || step.DeliverToPrimary?
    ensures SameHistory(s, Next(s, step))
  {
    hide DoConnect, DoDeliverToReplica, DoReplicaRecv, DoDeliverToPrimary, SameHistory, CloseReplica;
    match step
    case Connect => ConnectHistory(s);
    case DeliverToReplica => DeliveryHistory(s);
    case DeliverToPrimary => DeliveryHistory(s);
    case ReplicaRecv(k) => RecvHistory(s, k);
    case _ => LocalHistory(s, step);
  }

  predicate SameHistory(s: System, t: System) {
    && t.base == s.base && t.log == s.log && t.sessions == s.sessions && t.applied == s.applied
    && t.committed == s.committed
    && (PastSync(t.r) ==> PastSync(s.r) && t.r.syncId == s.r.syncId && t.r.installed == s.r.installed)
  }

  lemma ConnectHistory(s: System)
    ensures SameHistory(s, DoConnect(s))
  {
  }

  lemma DeliveryHistory(s: System)
    ensures SameHistory(s, DoDeliverToReplica(s)) && SameHistory(s, DoDeliverToPrimary(s))
  {
    hide Deliver;
  }

  lemma RecvHistory(s: System, k: nat)
    ensures SameHistory(s, DoReplicaRecv(s, k))
  {
  }

  lemma LocalHistory(s: System, step: Step)
    requires step.ReplicaClose? || step.ReplicaRestart? || step.ReplicaCompletesSend?
    ensures SameHistory(s, Next(s, step))
  {
    hide SendFinished;
  }

  lemma FilesHandle(s: System)
    requires Inv(s) && Files(s)
    ensures Files(DoReplicaHandle(s))
  {
    hide Inv, Files, UpstreamProtocol;
    assert s.log + [] == s.log;
    if PastSync(s.r) {
      Known(s);
    }
    if ReplicaReadsTcp(s) && s.r.input != [] {
      ProtocolKeepsInstalled(s.r, s.r.input, s.nextLink);
      ProtocolKeepsSession(s.r, s.r.input, s.nextLink);
    }
    FilesFrame(s, DoReplicaHandle(s), []);
  }

  lemma ProtocolKeepsSession(r: Replica, input: ByteString, link: nat)
    requires input != []
    ensures var h := UpstreamProtocol(r, input, link);
            h.Handled? && PastSync(h.state) ==> PastSync(r) && h.state.syncId == r.syncId
  {
    hide EncodeCommand, ParseCommand, Apply, ParseResync, ParseOnline, FirstLine;
  }

  lemma FilesPoll(s: System, event: CmEvent, completion: Completion)
    requires Inv(s) && Files(s)
    ensures Files(DoReplicaPoll(s, event, completion))
  {
    hide Inv, DoReplicaPoll, Files;
    assert s.log + [] == s.log;
    if PastSync(DoReplicaPoll(s, event, completion).r) && !PastSync(s.r) {
      PollPhase(s, event, completion);
      FilesInstalled(s, event, completion);
    } else {
      if PastSync(s.r) {
        Known(s);
        PollKeepsFile(s, event, completion);
      }
      FilesFrame(s, DoReplicaPoll(s, event, completion), []);
    }
  }

  lemma PollPhase(s: System, event: CmEvent, completion: Completion)
    requires PastSync(DoReplicaPoll(s, event, completion).r) && !PastSync(s.r)
    ensures s.r.phase.FullSync?
  {
    hide ReplicaStream, ReplicaEventOk;
    StreamPhases(s.r, event, completion);
  }

  lemma PollKeepsFile(s: System, event: CmEvent, completion: Completion)
    requires PastSync(s.r)
    ensures var t := DoReplicaPoll(s, event, completion);
            && t.base == s.base && t.log == s.log && t.sessions == s.sessions && t.applied == s.applied
            && t.committed == s.committed
            && t.r.installed == s.r.installed && (PastSync(t.r) ==> t.r.syncId == s.r.syncId)
  {
    hide ReplicaStream, ReplicaEventOk;
    StreamPhases(s.r, event, completion);
    StreamKeepsFile(s.r, event, completion);
  }

  lemma StreamKeepsFile(r: Replica, event: CmEvent, completion: Completion)
    requires PastSync(r)
    ensures ReplicaStream(r, event, completion).state.installed == r.installed
  {
    hide ReplicaStream;
    InstalledByStream(r, event, completion);
  }

  lemma FilesInstalled(s: System, event: CmEvent, completion: Completion)
    requires Inv(s) && s.r.phase.FullSync? && PastSync(DoReplicaPoll(s, event, completion).r)
    ensures Files(DoReplicaPoll(s, event, completion))
  {
    hide Inv, ReplicaStream, InstalledLoads;
    StreamPhases(s.r, event, completion);
    StreamCompletes(s.r, event, completion);
    EventFacts(s);
    LastBlock(s);
    LoadedAtStart(s, s.r.syncId.value);
  }

  lemma LoadedAtStart(s: System, id: ByteString)
    requires Inv(s) && id in s.sessions
    ensures InstalledLoads(s.base, s.log, s.sessions[id].start, s.sessions[id].start, Some(s.sessions[id].file))
  {
    hide Inv, Load, StoresAt, Off;
    SessionLoads(s, id);
    assert SnapshotAt(s.base, s.log, s.sessions[id].start, s.sessions[id].file);
  }

  /** How a callback may change the phase. */
  predicate PhaseStep(r: Replica, q: Replica) {
    && q.syncId == r.syncId && q.conn == r.conn
    && (q.phase == r.phase || (r.phase.FullSync? && q.phase.CatchUp?))
  }

  lemma StreamPhases(r: Replica, event: CmEvent, completion: Completion)
    ensures PhaseStep(r, ReplicaStream(r, event, completion).state)
  {
    hide ReplicaTransfer, ReadyLine;
    match event
    case RouteResolved =>
      if r.sync.endpoint.Some? && PostRecv(r.sync.endpoint.value).Some? {
        TransferPhases(r.(sync := r.sync.(endpoint := PostRecv(r.sync.endpoint.value))), completion);
      }
    case Established =>
      if r.sync.endpoint.Some? {
        TransferPhases(SendReady(r).state, completion);
      }
    case _ => TransferPhases(r, completion);
  }

  lemma TransferPhases(r: Replica, completion: Completion)
    ensures PhaseStep(r, ReplicaTransfer(r, completion).state)
  {
    hide Load, AckLine;
  }

  lemma StreamCompletes(r: Replica, event: CmEvent, completion: Completion)
    ensures var q := ReplicaStream(r, event, completion).state;
            q.phase.CatchUp? && r.phase.FullSync? ==>
              && r.writer.Writer? && r.sync.endpoint.Some? && r.sync.endpoint.value.inbox.Some?
              && completion.RecvCompletion?
              && |r.sync.endpoint.value.inbox.value| == r.writer.remaining
              && (event.RouteResolved? ==> !r.sync.endpoint.value.recvPending)
              && (event.NoEvent? || event.RouteResolved? || event.Established?)
  {
    hide Load, ReadyLine, AckLine;
  }

  /** A SAVE of an online Replica is a snapshot of the Primary's history, at the Replica's own
      position. */
  lemma FilesSave(s: System, file: ByteString)
    requires Inv(s) && Files(s)
    ensures Files(DoReplicaSave(s, file))
  {
    hide Inv, IsSnapshotOf, Load, StoresAt, Off;
    if IsOnline(s.r) && IsSnapshotOf(file, s.r.stores, |s.r.aof|) {
      Known(s);
      SaveLoads(s, file);
      assert SnapshotAt(s.base, s.log, s.applied, file);
    }
  }

  lemma SaveLoads(s: System, file: ByteString)
    requires Inv(s) && PastSync(s.r) && IsSnapshotOf(file, s.r.stores, |s.r.aof|)
    ensures s.r.syncId.Some? && s.r.syncId.value in s.sessions
            && s.sessions[s.r.syncId.value].start <= s.applied <= |s.log|
    ensures StoresAt(s.base, s.log, s.applied) == Some(s.r.stores)
    ensures Load(file) == Loaded(s.r.stores, Some(Off(s.base, s.log, s.applied)))
  {
    hide Load, Enumerates, Savable, EncodeLog, ApplyAll, Off;
    CopyFollows(s);
    BoundedCopy(s);
    var rs :| Enumerates(rs, s.r.stores) && Savable(rs, Some(|s.r.aof|)) && file == FileBytes(rs, Some(|s.r.aof|));
    SaveLoad(rs, s.r.stores, Some(|s.r.aof|));
  }

  lemma BoundedCopy(s: System)
    requires Inv(s) && s.applied <= |s.log| && ApplyAll(s.base.stores, s.log[..s.applied]) == Some(s.r.stores)
    ensures |s.r.stores.arrayTable| <= ARRAY_SIZE
  {
    hide ApplyAll, EncodeLog;
    ArrayBounded(s.base.stores, s.log[..s.applied]);
  }

  lemma {:induction false} FilesRun(s: System, steps: seq<Step>)
    requires Initial(s)
    ensures Inv(Run(s, steps)) && Files(Run(s, steps))
  {
    hide Inv, Initial, Next, Files;
    RunOk(s, steps);
    if steps == [] {
      NoFiles(s);
    } else {
      FilesRun(s, steps[..|steps| - 1]);
      FilesStep(Run(s, steps[..|steps| - 1]), steps[|steps| - 1]);
    }
  }

  lemma NoFiles(s: System)
    requires Initial(s)
    ensures Files(s)
  {
  }

  // ------------------------------------------------------------------ being online

  /** An online Replica is on a live connection, has put the complete announced snapshot of this
      very session in place, and has passed the ONLINE boundary announced on this connection. The
      final path holds that file or a later snapshot of the same history. */
  ghost predicate OnlineEarned(s: System) {
    && s.r.conn.Some? && s.r.syncId.Some? && s.r.syncId.value in s.sessions
    && var x := s.sessions[s.r.syncId.value];
       && Some(x.conn) == s.r.conn && s.committed == Some(x.file)
       && s.r.sync == NO_SYNC && s.r.writer.WriterClosed?
       && x.online.Some? && x.online.value <= s.applied <= |s.log|
       && InstalledLoads(s.base, s.log, x.start, s.applied, s.r.installed)
  }

  lemma OnlineIsEarned(s: System, steps: seq<Step>)
    requires Initial(s) && IsOnline(Run(s, steps).r)
    ensures OnlineEarned(Run(s, steps))
  {
    FilesRun(s, steps);
    OnlineFacts(Run(s, steps));
  }

  lemma OnlineFacts(s: System)
    requires Inv(s) && Files(s) && s.r.phase.Online?
    ensures OnlineEarned(s)
  {
    hide LogOk, PrimaryOk, SessionsOk, LinkOk, Pending, PositionsOk, InstalledLoads;
  }

  /** While it catches up, the file at the final path is still the announced one. */
  lemma CatchingUpKeepsFile(s: System, steps: seq<Step>)
    requires Initial(s) && Run(s, steps).r.phase.CatchUp?
    ensures var t := Run(s, steps);
            t.r.syncId.Some? && t.r.syncId.value in t.sessions
            && t.r.installed == Some(t.sessions[t.r.syncId.value].file) == t.committed
  {
    FilesRun(s, steps);
    CatchUpFacts(Run(s, steps));
  }

  lemma CatchUpFacts(s: System)
    requires Inv(s) && Files(s) && s.r.phase.CatchUp?
    ensures s.r.syncId.Some? && s.r.syncId.value in s.sessions
            && s.r.installed == Some(s.sessions[s.r.syncId.value].file) == s.committed
  {
    hide LogOk, PrimaryOk, SessionsOk, LinkOk, CopyOk, StreamOk, InstalledLoads;
  }

  /** Online, a SAVE ends that: any valid snapshot that differs from the announced file takes its
      place, although the Replica stays online. */
  lemma SaveReplacesAnnounced(s: System, file: ByteString)
    requires Inv(s) && Files(s) && IsOnline(s.r) && IsSnapshotOf(file, s.r.stores, |s.r.aof|)
    ensures s.r.syncId.Some? && s.r.syncId.value in s.sessions
    ensures var t := Next(s, ReplicaSave(file));
            && IsOnline(t.r) && t.r.installed == Some(file)
            && (file != s.sessions[s.r.syncId.value].file ==> t.r.installed != t.committed)
            && Load(file) == Loaded(t.r.stores, Some(|t.r.aof|))
  {
    hide Inv, IsSnapshotOf, Load, StoresAt, Off, InstalledLoads;
    Known(s);
    SaveLoads(s, file);
    OwnOffset(s);
  }

  lemma OwnOffset(s: System)
    requires Inv(s) && PastSync(s.r)
    ensures s.applied <= |s.log| && |s.r.aof| == Off(s.base, s.log, s.applied)
  {
    hide LogOk, PrimaryOk, SessionsOk, LinkOk, StreamOk, Off, StoresAt;
  }
}
