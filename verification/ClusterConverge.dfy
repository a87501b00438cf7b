/** After a full synchronisation: as long as nothing fails and no client writes, the Replica
    becomes online with the Primary's engines and AOF length. */
module ClusterConverge {
  import opened Bytes
  import opened Codec
  import opened Store
  import opened Aof
  import opened Snapshot
  import opened Rdma
  import opened ControlLines
  import opened Replication
  import opened Cluster
  import opened ClusterInvariant
  import opened ClusterPrimary
  import opened ClusterCatchUp
  import opened ClusterTheorems
  import opened ClusterFiles
  import opened ClusterProgress
  import opened ClusterCalm
  import opened ClusterSync
  import opened ClusterStart

  // ------------------------------------------------------------- the Primary sends all

  /** Everything logged is sent, ONLINE is announced, and no range is open. */
  predicate AllSent(p: Primary) {
    p.phase.Online? && p.aofReader.AofClosed? && p.offset == |p.aof|
  }

  /** The open range, or the position the next one starts at, lies inside the AOF. */
  predicate AofReady(p: Primary) {
    match p.aofReader
    case AofOpen(offset, remaining) => offset + remaining <= |p.aof|
    case AofClosed => p.phase.Online? && p.offset <= |p.aof|
  }

  function Unsent(p: Primary): nat
    requires AofReady(p)
  {
    match p.aofReader
    case AofOpen(offset, _) => 2 * (|p.aof| - offset) + 1
    case AofClosed => 2 * (|p.aof| - p.offset)
  }

  function Smaller(a: nat, b: nat): nat {
    if a <= b then a else b
  }

  /** A read that returns as much as it can. */
  function FullRead(p: Primary): nat
    requires AofReady(p)
  {
    match p.aofReader
    case AofOpen(offset, remaining) => Smaller(STREAM_CAPACITY, if remaining > 0 then remaining else |p.aof| - offset)
    case AofClosed => Smaller(STREAM_CAPACITY, |p.aof| - p.offset)
  }

  lemma AofMoves(p: Primary)
    requires PastSync2(p) && AofReady(p) && !AllSent(p)
    ensures var step := PrimaryAof(p, FullRead(p));
            && (step.result.Emit? || step.result.Wait?)
            && step.state == p.(aofReader := step.state.aofReader, offset := step.state.offset,
                                phase := step.state.phase)
            && PastSync2(step.state) && AofReady(step.state) && Unsent(step.state) < Unsent(p)
  {
  }

  lemma AofReadyHolds(s: System)
    requires Inv(s) && s.p.session.Some? && PastSync2(s.p)
    ensures s.p.syncId.Some? && s.p.syncId.value in s.sessions && AofReady(s.p)
    ensures var x := s.sessions[s.p.syncId.value];
            PositionsOk(s.base, s.log, s.p.aof, x) && PrimaryAofOk(s.base, s.log, s.p, x)
  {
    hide ReplicaOk, LinkOk, Load, StoresAt, Stream, IsId, LogOk, Off, IsBoundary;
    var x := s.sessions[s.p.syncId.value];
    assert SessionOk(s.base, s.log, s.p.aof, s.nextConn, s.p.syncId.value, x);
    match s.p.aofReader
    case AofOpen(offset, remaining) => BoundaryInside(s.base, s.log, s.p.stores, s.p.aof, offset + remaining);
    case AofClosed =>
  }

  /** Both sides past the synchronisation, in a run without failures. */
  ghost predicate Settled(s: System) {
    Inv(s) && Clean(s) && SyncDone(s.p, s.r)
  }

  /** What a quiet step keeps. */
  predicate Going(s: System, t: System) {
    t.p.session == s.p.session && t.p.aof == s.p.aof && t.p.stores == s.p.stores
  }

  lemma PrimaryMoves(s: System)
    requires Settled(s) && !AllSent(s.p) && AofReady(s.p)
    ensures var step := PrimaryPoll(NoEvent, NoCompletion, FullRead(s.p));
            var t := Next(s, step);
            && FailureFree(s, step) && Settled(t) && Going(s, t)
            && AofReady(t.p) && Unsent(t.p) < Unsent(s.p)
  {
    hide Inv, Clean, PrimaryAof, Recorded, Push, FullRead, AofReady, Unsent;
    EndFacts(s);
    AofMoves(s.p);
    var step := PrimaryPoll(NoEvent, NoCompletion, FullRead(s.p));
    StepOk(s, step);
    CleanStep(s, step);
  }

  lemma {:induction false} PrimarySendsAll(s: System) returns (steps: seq<Step>)
    requires Settled(s)
    ensures CalmRun(s, steps) && NoWrites(steps)
    ensures var t := Run(s, steps); Settled(t) && Going(s, t) && AllSent(t.p)
    decreases if AofReady(s.p) then Unsent(s.p) else 0
  {
    hide Inv, Clean, Next, FailureFree, AllSent, AofReady, Unsent;
    AofReadyHolds(s);
    if AllSent(s.p) {
      return [];
    } else {
      PrimaryMoves(s);
      var step := PrimaryPoll(NoEvent, NoCompletion, FullRead(s.p));
      var rest := PrimarySendsAll(Next(s, step));
      RunFront(s, step, rest);
      assert ([step] + rest)[1..] == rest;
      return [step] + rest;
    }
  }

  // ------------------------------------------------------------ the Replica reads all

  lemma ReplicaTakesAll(s: System) returns (step: Step)
    requires Settled(s) && AllSent(s.p)
    ensures var t := Next(s, step);
            && FailureFree(s, step) && !step.ClientWrite? && Settled(t) && Going(s, t) && AllSent(t.p)
            && t.r.conn.Some? && t.r.conn.value in t.toReplica && t.toReplica[t.r.conn.value] == []
  {
    hide Inv, Clean;
    EndFacts(s);
    Stages(s);
    step := ReplicaRecv(|s.toReplica[s.r.conn.value]|);
    StepOk(s, step);
    CleanStep(s, step);
  }

  /** With everything read, the input starts with a whole command or the whole ONLINE line. */
  lemma WholeInput(s: System)
    requires Settled(s) && AllSent(s.p) && ReplicaReadsTcp(s) && s.toReplica[s.r.conn.value] == [] && s.r.input != []
    ensures var h := UpstreamProtocol(s.r, s.r.input, s.nextLink); h.Handled? && 0 < h.consumed <= |s.r.input|
  {
    hide Inv, Clean, Reading, CommandFirst, UpstreamProtocol, EncodeCommand, OnlineLine, PositionsOk;
    ReadingHolds(s);
    AofReadyHolds(s);
    var x := s.sessions[s.r.syncId.value];
    ReadingApplied(s, x);
    if CommandFirst(s, x) {
      CommandFirstInLog(s, x);
      WholeCommand(s, x);
      ApplyNext(s, x);
      EncodedNonEmpty(s.log[s.applied]);
    } else {
      HandleOnline(s, x);
      WholeLine(s, x);
    }
  }

  lemma WholeCommand(s: System, x: Session)
    requires Reading(s, x) && s.applied < |s.log| && CommandFirst(s, x) && s.toReplica[s.r.conn.value] == []
    requires x.sent == |s.p.aof|
    ensures |EncodeCommand(s.log[s.applied])| <= |s.r.input|
  {
    hide EncodeCommand, Off, LogOk, CopyOk, Pending;
    CommandAt(s.base, s.log, s.p.stores, s.p.aof, s.applied);
    PendingFront(s.base, s.log, s.p.stores, s.p.aof, x, s.applied, s.r.phase.Online?);
    assert s.r.input + [] == s.r.input;
  }

  lemma WholeLine(s: System, x: Session)
    requires Reading(s, x) && !CommandFirst(s, x) && s.toReplica[s.r.conn.value] == []
    ensures 0 < |OnlineLine(|s.r.aof|)| <= |s.r.input|
  {
    hide Reading, CommandFirst;
    ReadingFrom(s, x);
    FrontOfInput(s, x);
    assert s.r.input + [] == s.r.input;
  }

  lemma ReadingFrom(s: System, x: Session)
    requires Reading(s, x)
    ensures s.r.conn.Some? && s.r.conn.value in s.toReplica && |s.r.aof| <= x.sent <= |s.p.aof|
  {
    hide LogOk, StoresAt;
  }

  lemma ReplicaHandles(s: System)
    requires Settled(s) && AllSent(s.p) && ReplicaReadsTcp(s) && s.toReplica[s.r.conn.value] == [] && s.r.input != []
    ensures var t := Next(s, ReplicaHandle);
            && FailureFree(s, ReplicaHandle) && Settled(t) && Going(s, t) && AllSent(t.p)
            && ReplicaReadsTcp(t) && t.toReplica[t.r.conn.value] == [] && |t.r.input| < |s.r.input|
  {
    hide Inv, Clean, UpstreamProtocol, AllSent, Push;
    WholeInput(s);
    HandlerLink(s.r, s.r.input, s.nextLink);
    StepOk(s, ReplicaHandle);
    CleanStep(s, ReplicaHandle);
  }

  lemma {:induction false} ReplicaHandlesAll(s: System) returns (steps: seq<Step>)
    requires Settled(s) && AllSent(s.p) && ReplicaReadsTcp(s) && s.toReplica[s.r.conn.value] == []
    ensures CalmRun(s, steps) && NoWrites(steps)
    ensures var t := Run(s, steps);
            && Settled(t) && Going(s, t) && AllSent(t.p)
            && ReplicaReadsTcp(t) && t.toReplica[t.r.conn.value] == [] && t.r.input == []
    decreases |s.r.input|
  {
    hide Inv, Clean, Next, FailureFree, AllSent;
    if s.r.input == [] {
      return [];
    } else {
      ReplicaHandles(s);
      var rest := ReplicaHandlesAll(Next(s, ReplicaHandle));
      RunFront(s, ReplicaHandle, rest);
      assert ([ReplicaHandle] + rest)[1..] == rest;
      return [ReplicaHandle] + rest;
    }
  }

  // ------------------------------------------------------------------------ together

  /** Online, with the engines of the Primary, and the same AOF from the snapshot boundary on. */
  predicate Converged(s: System) {
    && IsOnline(s.r) && |s.r.aof| == |s.p.aof| && s.r.stores == s.p.stores
    && s.r.syncId.Some? && s.r.syncId.value in s.sessions && s.sessions[s.r.syncId.value].start <= |s.log|
    && SameFrom(Off(s.base, s.log, s.sessions[s.r.syncId.value].start), s.r.aof, s.p.aof)
  }

  lemma NothingLeft(s: System)
    requires Settled(s) && AllSent(s.p) && ReplicaReadsTcp(s) && s.toReplica[s.r.conn.value] == [] && s.r.input == []
    ensures Converged(s)
  {
    hide Inv, Clean, PositionsOk, Off, CopyOk, StoresAt, LogOk;
    AofReadyHolds(s);
    CopyFollows(s);
    var x := s.sessions[s.r.syncId.value];
    StreamHolds(s, x);
    NothingPending(s, x);
    AllApplied(s);
  }

  lemma StreamHolds(s: System, x: Session)
    requires Inv(s) && PastSync(s.r) && s.r.syncId.Some? && s.r.syncId.value in s.sessions
             && x == s.sessions[s.r.syncId.value]
    ensures PositionsOk(s.base, s.log, s.p.aof, x) && LogOk(s.base, s.log, s.p.stores, s.p.aof)
    ensures s.r.conn.Some? && s.r.conn.value in s.toReplica && s.applied <= |s.log|
    ensures StreamOk(s.base, s.log, s.p.aof, x, s.r, s.applied, s.toReplica[s.r.conn.value])
  {
    hide LogOk, SessionsOk, PrimaryOk, LinkOk, NamesOk, OrderOk, ReplicaSyncOk, PositionsOk, StreamOk;
  }

  lemma NothingPending(s: System, x: Session)
    requires PositionsOk(s.base, s.log, s.p.aof, x) && s.applied <= |s.log| && PastSync(s.r)
    requires s.r.conn.Some? && s.r.conn.value in s.toReplica && s.toReplica[s.r.conn.value] == [] && s.r.input == []
    requires StreamOk(s.base, s.log, s.p.aof, x, s.r, s.applied, [])
    requires x.online.Some? && x.sent == |s.p.aof|
    ensures s.r.phase.Online? && Off(s.base, s.log, s.applied) == |s.p.aof|
  {
    hide Off, PositionsOk;
    var from := Off(s.base, s.log, s.applied);
    assert |CRLF| > 0;
    if s.r.phase.Online? {
      assert |s.p.aof[from..x.sent]| == x.sent - from;
    }
  }

  lemma AllApplied(s: System)
    requires LogOk(s.base, s.log, s.p.stores, s.p.aof) && s.applied <= |s.log|
    requires Off(s.base, s.log, s.applied) == |s.p.aof|
    ensures s.log[..s.applied] == s.log && s.applied == |s.log|
  {
    hide Off, LogOk;
    OffAt(s.base, s.log, s.p.stores, s.p.aof);
    if s.applied < |s.log| {
      OffStrict(s.base, s.log, s.applied, |s.log|);
    }
  }

  lemma {:induction false} CalmAppend(s: System, a: seq<Step>, b: seq<Step>)
    requires CalmRun(s, a) && CalmRun(Run(s, a), b)
    ensures CalmRun(s, a + b) && Run(s, a + b) == Run(Run(s, a), b)
    decreases |a|
  {
    hide Next, FailureFree;
    if a == [] {
      assert a + b == b;
    } else {
      RunFront(s, a[0], a[1..]);
      assert [a[0]] + a[1..] == a;
      CalmAppend(Next(s, a[0]), a[1..], b);
      RunFront(s, a[0], a[1..] + b);
      assert [a[0]] + (a[1..] + b) == a + b;
      assert (a + b)[1..] == a[1..] + b;
    }
  }

  /** From every state of a synchronisation there is a run without failures and without new
      writes after which the Replica is online and equal to the Primary. */
  lemma Converges(s: System) returns (steps: seq<Step>)
    requires Inv(s) && Clean(s) && s.p.session.Some?
    ensures CalmRun(s, steps) && NoWrites(steps)
    ensures var t := Run(s, steps); Inv(t) && t.p.session == s.p.session && Converged(t)
  {
    hide Inv, Clean, Next, FailureFree, AllSent, Run, CalmRun, Converged, SyncDone, ReplicaReadsTcp;
    var a := FullSyncCompletes(s);
    var b := SettledConverges(Run(s, a));
    CalmAppend(s, a, b);
    return a + b;
  }

  /** With or without a session: the handshake comes first. */
  lemma ConvergesFromStart(s: System, psync: PsyncInput) returns (steps: seq<Step>)
    requires Inv(s) && Clean(s) && OneOwner(s) && Attached(s) && (s.p.session.None? ==> PsyncInputOk(s, psync))
    ensures CalmRun(s, steps) && NoWrites(steps) && Converged(Run(s, steps))
  {
    hide Inv, Clean, Next, FailureFree, Run, CalmRun, Converged, OneOwner, Attached, PsyncInputOk;
    var a := SessionStarts(s, psync);
    var b := Converges(Run(s, a));
    CalmAppend(s, a, b);
    return a + b;
  }

  lemma {:induction false} CalmRunsAttached(s: System, steps: seq<Step>)
    requires Inv(s) && Attached(s) && CalmRun(s, steps)
    ensures Attached(Run(s, steps))
    decreases |steps|
  {
    hide Inv, Attached, Next, FailureFree;
    if steps != [] {
      StepOk(s, steps[0]);
      AttachedStep(s, steps[0]);
      CalmRunsAttached(Next(s, steps[0]), steps[1..]);
      RunFront(s, steps[0], steps[1..]);
      assert [steps[0]] + steps[1..] == steps;
    }
  }

  /** Whatever a run without failures has done since the start, it can go on to an online Replica
      that equals the Primary. `psync` is what a PSYNC is given, if none has been answered yet. */
  lemma CalmRunConverges(s: System, steps: seq<Step>, psync: PsyncInput) returns (more: seq<Step>)
    requires Initial(s) && CalmRun(s, steps)
    requires Run(s, steps).p.session.None? ==> PsyncInputOk(Run(s, steps), psync)
    ensures CalmRun(s, steps + more) && NoWrites(more) && Converged(Run(s, steps + more))
  {
    hide Inv, Clean, Next, FailureFree, Run, CalmRun, Converged, Initial, OneOwner, Attached, PsyncInputOk;
    InitialOk(s);
    CleanInitially(s);
    NoSessions(s);
    CalmRunsAreClean(s, steps);
    CalmRunsAttached(s, steps);
    OwnerRun(s, steps);
    more := ConvergesFromStart(Run(s, steps), psync);
    CalmAppend(s, steps, more);
  }

  // -------------------------------------------------------------- after any failure

  predicate OnlyCloses(steps: seq<Step>) {
    forall i :: 0 <= i < |steps| ==> steps[i].PrimaryClose? || steps[i].ReplicaClose?
  }

  lemma {:induction false} RunAppend(s: System, a: seq<Step>, b: seq<Step>)
    ensures Run(s, a + b) == Run(Run(s, a), b)
    decreases |b|
  {
    hide Next;
    if b == [] {
      assert a + b == a;
    } else {
      assert (a + b)[..|a + b| - 1] == a + b[..|b| - 1];
      RunAppend(s, a, b[..|b| - 1]);
    }
  }

  /** Closing every connection of the Primary. */
  lemma {:induction false} ClosePrimarySide(s: System) returns (steps: seq<Step>)
    requires Inv(s) && OneOwner(s)
    ensures OnlyCloses(steps)
    ensures var t := Run(s, steps); Inv(t) && OneOwner(t) && t.received == map[] && SameData(s, t)
    decreases |s.received|
  {
    hide Inv, OneOwner, Next;
    if s.received == map[] {
      return [];
    } else {
      var c :| c in s.received;
      var t := Next(s, PrimaryClose(c));
      OneCloses(s, c);
      StepOk(s, PrimaryClose(c));
      OwnerStep(s, PrimaryClose(c));
      var rest := ClosePrimarySide(t);
      RunFront(s, PrimaryClose(c), rest);
      return [PrimaryClose(c)] + rest;
    }
  }

  lemma OneCloses(s: System, c: nat)
    requires c in s.received
    ensures var t := Next(s, PrimaryClose(c)); |t.received| < |s.received| && SameData(s, t)
  {
    assert (s.received - {c}).Keys == s.received.Keys - {c};
    assert |(s.received - {c}).Keys| == |s.received.Keys| - 1;
  }

  /** With everything closed both sides are as after a start. */
  lemma ClosedIsClean(s: System)
    requires Inv(s) && s.received == map[]
    ensures var t := Next(s, ReplicaClose); Clean(t) && Attached(t) && t.p.session.None? && SameData(s, t)
  {
    hide Inv;
    EndFacts(s);
  }

  /** Whatever has happened in a run, failures and restarts included: once the connections are
      closed, a run without failures leads to an online Replica that equals the Primary. */
  lemma Reconverges(s: System, steps: seq<Step>, psync: PsyncInput) returns (closing: seq<Step>, more: seq<Step>)
    requires Initial(s) && PsyncInputOk(Run(s, steps), psync)
    ensures OnlyCloses(closing) && CalmRun(Run(s, steps + closing), more) && NoWrites(more)
    ensures Converged(Run(s, steps + closing + more))
  {
    hide Inv, Clean, Next, FailureFree, CalmRun, Converged, Initial, OneOwner, Attached, PsyncInputOk, SameData;
    OwnerRun(s, steps);
    var u := Run(s, steps);
    var a := ClosePrimarySide(u);
    var v := Run(u, a);
    StillValid(u, v, psync);
    ClosedIsClean(v);
    StepOk(v, ReplicaClose);
    OwnerStep(v, ReplicaClose);
    var w := Next(v, ReplicaClose);
    StillValid(v, w, psync);
    closing := a + [ReplicaClose];
    RunAppend(u, a, [ReplicaClose]);
    assert Run(v, [ReplicaClose]) == w by { assert [ReplicaClose][..0] == []; }
    RunAppend(s, steps, closing);
    more := ConvergesFromStart(w, psync);
    RunAppend(s, steps + closing, more);
  }

  lemma SettledConverges(s: System) returns (steps: seq<Step>)
    requires Settled(s)
    ensures CalmRun(s, steps) && NoWrites(steps)
    ensures var t := Run(s, steps); Inv(t) && t.p.session == s.p.session && Converged(t)
  {
    hide Inv, Clean, Next, FailureFree, AllSent, Converged;
    var a := PrimarySendsAll(s);
    var u := Run(s, a);
    var b := ReplicaTakesAll(u);
    var v := Next(u, b);
    SettledReads(v);
    var c := ReplicaHandlesAll(v);
    NothingLeft(Run(v, c));
    RunFront(u, b, c);
    assert ([b] + c)[1..] == c;
    CalmAppend(s, a, [b] + c);
    return a + ([b] + c);
  }

  lemma SettledReads(s: System)
    requires Settled(s) && s.r.conn.Some? && s.r.conn.value in s.toReplica
    ensures ReplicaReadsTcp(s)
  {
    hide Inv, Clean;
  }
}
